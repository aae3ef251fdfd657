/**
 Building the repository: the files of every active package, and the changes against
 the previous build.
 */
module Builder {
  import opened Text
  import opened Version
  import opened SvnLog
  import opened Serialize

  /** An active package as read by a build; versions is None if versions_json does not parse. */
  datatype BuildRow = BuildRow(t: PackageType, name: string, versions: Option<map<string, string>>, meta: PackageMeta)

  datatype Action = Update | Delete

  datatype PackageChange = PackageChange(name: string, action: Action)

  /** The files of one build, by path below p2/. */
  type FileMap = map<string, Payload>

  function NameOf(row: BuildRow): string {
    ComposerName(row.t, row.name)
  }

  /** Rows as the query returns them: one per package. */
  predicate AreRows(rows: seq<BuildRow>) {
    forall i, j :: 0 <= i < j < |rows| ==> !IsPackage(rows[i], rows[j])
  }

  /** Two rows of one package. */
  predicate IsPackage(a: BuildRow, b: BuildRow) {
    a.t == b.t && a.name == b.name
  }

  /** No slug is another slug of its type with "~dev" at the end, so no two rows share a file. */
  predicate AreApart(rows: seq<BuildRow>) {
    AreRows(rows) && forall i, j :: 0 <= i < |rows| && 0 <= j < |rows| ==> !IsDevOf(rows[i], rows[j])
  }

  predicate IsDevOf(row: BuildRow, other: BuildRow) {
    row.t == other.t && row.name == other.name + DEV
  }

  /** Rows without a slug that ends in "~dev". */
  predicate IsRowList(rows: seq<BuildRow>) {
    AreRows(rows) && forall i :: 0 <= i < |rows| ==> !HasSuffix(rows[i].name, DEV)
  }

  /** The files a build writes for a row. */
  ghost function RowFiles(row: BuildRow): FileMap {
    if row.versions.None? then map[] else WrittenFiles(row.t, row.name, row.versions.value, row.meta)
  }

  ghost function BuildFiles(rows: seq<BuildRow>): FileMap {
    if rows == [] then map[] else BuildFiles(rows[..|rows| - 1]) + RowFiles(rows[|rows| - 1])
  }

  ghost predicate IsBuildOutput(files: FileMap) {
    exists rows: seq<BuildRow> :: IsRowList(rows) && files == BuildFiles(rows)
  }

  // ----- Keys -----

  /** The package a file belongs to, as the walk over the previous build derives it. */
  function NameOfFile(key: string): string {
    var name := TrimSuffix(key, "~dev.json");
    if name == key then TrimSuffix(key, ".json") else name
  }

  /** A main file gives back its package exactly if the name does not end in "~dev". */
  lemma MainKeyName(name: string)
    ensures HasSuffix(MainKey(name), ".json") && (NameOfFile(MainKey(name)) == name <==> !HasSuffix(name, DEV))
  {
    var key := MainKey(name);
    assert key[|name|..] == ".json" && key[..|name|] == name;
    if HasSuffix(name, DEV) {
      assert key[|key| - 9..] == name[|name| - 4..] + ".json";
    }
    if HasSuffix(key, "~dev.json") {
      assert name[|name| - 4..] == key[|key| - 9..][..4];
    }
  }

  lemma DevKeyName(name: string)
    ensures NameOfFile(DevKey(name)) == name && HasSuffix(DevKey(name), ".json")
  {
    var key := DevKey(name);
    assert key[|name|..] == "~dev.json" && key[..|name|] == name;
    assert key[|key| - 5..] == key[|name|..][4..] == ".json";
  }

  lemma ComposerNameFacts(t: PackageType, u: PackageType, a: string, b: string)
    ensures ComposerName(t, a) == ComposerName(u, b) ==> t == u && a == b
    ensures HasSuffix(ComposerName(t, a), DEV) ==> HasSuffix(a, DEV)
  {
    var x, y := ComposerName(t, a), ComposerName(u, b);
    var p, q := if t.Theme? then "wp-theme/" else "wp-plugin/", if u.Theme? then "wp-theme/" else "wp-plugin/";
    assert x[|p|..] == a && y[|q|..] == b;
    assert x[3] == if t.Theme? then 't' else 'p';
    assert y[3] == if u.Theme? then 't' else 'p';
    if HasSuffix(x, DEV) {
      assert x[|p| - 1] == '/';
      assert forall i :: 0 <= i < 4 ==> x[|x| - 4 + i] == DEV[i];
      assert |a| >= 4;
      assert a[|a| - 4..] == x[|x| - 4..];
    }
  }

  // ----- What a build holds for a package -----

  /** The two files of a package, each if present. */
  datatype View = View(main: Option<Payload>, dev: Option<Payload>)

  const NOTHING := View(None, None)

  function FileAt(files: FileMap, key: string): Option<Payload> {
    if key in files then Some(files[key]) else None
  }

  function ViewOf(files: FileMap, name: string): View {
    View(FileAt(files, MainKey(name)), FileAt(files, DevKey(name)))
  }

  ghost function RowView(row: BuildRow): View {
    ViewOf(RowFiles(row), NameOf(row))
  }

  predicate IsRowKey(row: BuildRow, key: string) {
    key == MainKey(NameOf(row)) || key == DevKey(NameOf(row))
  }

  /** A row writes a main file, and a dev file too if it is a plugin; or nothing. */
  lemma RowFilesShape(row: BuildRow)
    ensures RowFiles(row).Keys ==
            if RowFiles(row) == map[] then {}
            else {MainKey(NameOf(row))} + if row.t.Plugin? then {DevKey(NameOf(row))} else {}
    ensures RowView(row).main.Some? <==> RowFiles(row) != map[]
    ensures RowView(row).dev.Some? <==> RowFiles(row) != map[] && row.t.Plugin?
  {
    if row.versions.Some? {
      WrittenShape(row.t, row.name, row.versions.value, row.meta);
      TwoFilesKeys(NameOf(row), MainPayload(row.t, row.name, row.versions.value, row.meta),
                   DevPayload(row.t, row.name, row.meta));
    }
  }

  lemma TwoFilesKeys(name: string, main: Option<Payload>, dev: Option<Payload>)
    ensures var files := TwoFiles(name, main, dev);
            && files.Keys == (if main.Some? then {MainKey(name)} else {}) + (if dev.Some? then {DevKey(name)} else {})
            && ViewOf(files, name) == View(main, dev) && (files == map[] <==> main.None? && dev.None?)
  {
    var files := TwoFiles(name, main, dev);
    assert |MainKey(name)| < |DevKey(name)|;
    assert main.Some? ==> MainKey(name) in files;
    assert dev.Some? ==> DevKey(name) in files;
  }

  lemma RowListIsApart(rows: seq<BuildRow>)
    requires IsRowList(rows)
    ensures AreApart(rows)
  {
    forall i, j | 0 <= i < |rows| && 0 <= j < |rows| ensures !IsDevOf(rows[i], rows[j]) {
      var name := rows[j].name + DEV;
      assert name[|name| - 4..] == DEV;
    }
  }

  /** Two rows that could write the same file are of one package, or one is the other's "~dev". */
  lemma SameKey(a: BuildRow, b: BuildRow, key: string)
    requires IsRowKey(a, key) && IsRowKey(b, key)
    ensures (a.t == b.t && a.name == b.name) || IsDevOf(a, b) || IsDevOf(b, a)
  {
    var m, n := NameOf(a), NameOf(b);
    ComposerNameFacts(a.t, b.t, a.name, b.name);
    if key == MainKey(m) && key == MainKey(n) {
      assert key[..|key| - 5] == m && key[..|key| - 5] == n;
    } else if key == DevKey(m) && key == DevKey(n) {
      assert key[..|key| - 9] == m && key[..|key| - 9] == n;
    } else if key == MainKey(m) {
      MainIsDev(m, n);
      DevOfName(a, b);
    } else {
      MainIsDev(n, m);
      DevOfName(b, a);
    }
  }

  lemma MainIsDev(m: string, n: string)
    requires MainKey(m) == DevKey(n)
    ensures m == n + DEV
  {
    var key := MainKey(m);
    assert key[..|key| - 5] == m;
    assert DevKey(n) == n + DEV + ".json";
    assert (n + DEV + ".json")[..|key| - 5] == n + DEV;
  }

  lemma DevOfName(a: BuildRow, b: BuildRow)
    requires NameOf(a) == NameOf(b) + DEV
    ensures IsDevOf(a, b)
  {
    assert NameOf(b) + DEV == ComposerName(b.t, b.name + DEV) by {
      var p := if b.t.Theme? then "wp-theme/" else "wp-plugin/";
      assert p + (b.name + DEV) == p + b.name + DEV;
    }
    ComposerNameFacts(a.t, b.t, a.name, b.name + DEV);
  }

  lemma SamePackage(rows: seq<BuildRow>, i: int, j: int)
    requires AreRows(rows) && 0 <= i < |rows| && 0 <= j < |rows| && IsPackage(rows[i], rows[j])
    ensures i == j
  {}

  lemma KeysOfRows(rows: seq<BuildRow>, i: int, j: int, key: string)
    requires AreApart(rows) && 0 <= i < |rows| && 0 <= j < |rows|
    requires IsRowKey(rows[i], key) && IsRowKey(rows[j], key)
    ensures i == j
  {
    SameKey(rows[i], rows[j], key);
    SamePackage(rows, i, j);
  }

  lemma KeyName(row: BuildRow, key: string)
    requires !HasSuffix(row.name, DEV) && IsRowKey(row, key)
    ensures NameOfFile(key) == NameOf(row) && HasSuffix(key, ".json")
  {
    ComposerNameFacts(row.t, row.t, row.name, row.name);
    MainKeyName(NameOf(row));
    DevKeyName(NameOf(row));
  }

  ghost predicate IsRowWith(rows: seq<BuildRow>, i: int, key: string) {
    0 <= i < |rows| && key in RowFiles(rows[i])
  }

  /** The row that writes a file. */
  lemma {:induction false} FindRow(rows: seq<BuildRow>, key: string) returns (i: int)
    requires key in BuildFiles(rows)
    ensures IsRowWith(rows, i, key)
  {
    var n := |rows| - 1;
    if key in RowFiles(rows[n]) {
      i := n;
    } else {
      i := FindRow(rows[..n], key);
    }
  }

  lemma WrittenKey(row: BuildRow, key: string)
    requires key in RowFiles(row)
    ensures IsRowKey(row, key)
  {
    RowFilesShape(row);
  }

  /** The files of different rows do not overlap. */
  lemma OneWriter(rows: seq<BuildRow>, i: int, j: int, key: string)
    requires AreApart(rows) && 0 <= i < |rows| && IsRowKey(rows[i], key) && IsRowWith(rows, j, key)
    ensures i == j
  {
    WrittenKey(rows[j], key);
    KeysOfRows(rows, i, j, key);
  }

  /** The first m rows give the row's file, if none of them after it writes that key. */
  lemma {:induction false} RowFilesAreBuilt(rows: seq<BuildRow>, i: int, m: int, key: string)
    requires 0 <= i < m <= |rows| && key in RowFiles(rows[i])
    requires forall j :: i < j < m ==> key !in RowFiles(rows[j])
    ensures FileAt(BuildFiles(rows[..m]), key) == Some(RowFiles(rows[i])[key])
    decreases m
  {
    OneMoreBuilt(rows, m, key);
    if i < m - 1 { RowFilesAreBuilt(rows, i, m - 1, key); }
  }

  lemma OneMoreBuilt(rows: seq<BuildRow>, m: int, key: string)
    requires 0 < m <= |rows|
    ensures FileAt(BuildFiles(rows[..m]), key) ==
            if key in RowFiles(rows[m - 1]) then Some(RowFiles(rows[m - 1])[key]) else FileAt(BuildFiles(rows[..m - 1]), key)
  {
    assert rows[..m][..m - 1] == rows[..m - 1];
    Overlay(BuildFiles(rows[..m - 1]), RowFiles(rows[m - 1]), key);
  }

  lemma Overlay(a: FileMap, b: FileMap, key: string)
    ensures FileAt(a + b, key) == if key in b then Some(b[key]) else FileAt(a, key)
  {}

  lemma WriterOfKey(rows: seq<BuildRow>, i: int, key: string)
    requires AreApart(rows) && 0 <= i < |rows| && IsRowKey(rows[i], key) && key in BuildFiles(rows)
    ensures key in RowFiles(rows[i])
  {
    var j := FindRow(rows, key);
    OneWriter(rows, i, j, key);
  }

  lemma FileOfRow(rows: seq<BuildRow>, i: int, key: string)
    requires AreApart(rows) && 0 <= i < |rows| && IsRowKey(rows[i], key)
    ensures FileAt(BuildFiles(rows), key) == FileAt(RowFiles(rows[i]), key)
  {
    if key in BuildFiles(rows) { WriterOfKey(rows, i, key); }
    if key in RowFiles(rows[i]) {
      forall j | i < j < |rows| ensures key !in RowFiles(rows[j]) {
        if IsRowWith(rows, j, key) { OneWriter(rows, i, j, key); }
      }
      RowFilesAreBuilt(rows, i, |rows|, key);
      TakeAll(rows);
    }
  }

  /** What a build holds for a package is what its row writes. */
  lemma ViewOfRow(rows: seq<BuildRow>, i: int)
    requires AreApart(rows) && 0 <= i < |rows|
    ensures ViewOf(BuildFiles(rows), NameOf(rows[i])) == RowView(rows[i])
  {
    FileOfRow(rows, i, MainKey(NameOf(rows[i])));
    FileOfRow(rows, i, DevKey(NameOf(rows[i])));
  }

  /** Every file of a build belongs to the row its name says. */
  lemma FileHasRow(rows: seq<BuildRow>, key: string) returns (i: int)
    requires IsRowList(rows) && key in BuildFiles(rows)
    ensures 0 <= i < |rows| && key in RowFiles(rows[i]) && IsRowKey(rows[i], key)
    ensures NameOfFile(key) == NameOf(rows[i]) && HasSuffix(key, ".json")
  {
    i := FindRow(rows, key);
    RowFilesShape(rows[i]);
    KeyName(rows[i], key);
  }

  /** A package present in two builds has the same kinds of files in both. */
  lemma SameShape(rows: seq<BuildRow>, i: int, prev: FileMap)
    requires IsRowList(rows) && 0 <= i < |rows| && RowFiles(rows[i]) != map[] && IsBuildOutput(prev)
    ensures var was := ViewOf(prev, NameOf(rows[i]));
            was == NOTHING || (was.main.Some? && (was.dev.Some? <==> rows[i].t.Plugin?))
  {
    var before: seq<BuildRow> :| IsRowList(before) && prev == BuildFiles(before);
    var n := NameOf(rows[i]);
    if ViewOf(prev, n) != NOTHING {
      var key := if MainKey(n) in prev then MainKey(n) else DevKey(n);
      var j := FileHasRow(before, key);
      KeyName(rows[i], key);
      ComposerNameFacts(rows[i].t, before[j].t, rows[i].name, before[j].name);
      RowListIsApart(before);
      ViewOfRow(before, j);
      RowFilesShape(before[j]);
    }
  }

  // ----- The diff -----

  ghost predicate DiffersFrom(files: FileMap, prev: FileMap) {
    exists k :: k in files && FileAt(prev, k) != Some(files[k])
  }

  /** Comparing the files of a row with the previous build. */
  ghost predicate IsRowChanged(row: BuildRow, previous: Option<FileMap>) {
    RowFiles(row) != map[] && (previous.None? || DiffersFrom(RowFiles(row), previous.value))
  }

  /** The change is the one and only entry for its package. */
  ghost predicate AreDistinct(changes: seq<PackageChange>) {
    forall i, j :: 0 <= i < j < |changes| ==> changes[i].name != changes[j].name
  }

  /**
   The changes are the exact difference between two builds: an update for every
   package whose files are new or differ, a delete for every package that is gone,
   one entry each.
   */
  ghost predicate IsDiff(prev: FileMap, files: FileMap, changes: seq<PackageChange>) {
    && AreDistinct(changes)
    && (forall n :: PackageChange(n, Update) in changes <==>
                    ViewOf(files, n) != NOTHING && ViewOf(files, n) != ViewOf(prev, n) && !HasSuffix(n, DEV))
    && (forall n :: PackageChange(n, Delete) in changes <==>
                    ViewOf(files, n) == NOTHING && ViewOf(prev, n) != NOTHING && !HasSuffix(n, DEV))
  }

  /** The packages whose files differ from the previous build. */
  ghost function ChangedNames(rows: seq<BuildRow>, previous: Option<FileMap>): set<string> {
    if rows == [] then {}
    else
      var last := rows[|rows| - 1];
      ChangedNames(rows[..|rows| - 1], previous) + if IsRowChanged(last, previous) then {NameOf(last)} else {}
  }

  /** One update for each name, and nothing else. */
  ghost predicate AreUpdatesOf(names: set<string>, changes: seq<PackageChange>) {
    && AreDistinct(changes)
    && (forall c :: c in changes ==> c.action == Update && c.name in names)
    && forall n :: n in names ==> PackageChange(n, Update) in changes
  }

  /** One update for each row whose files differ from the previous build, and nothing else. */
  ghost predicate AreUpdates(rows: seq<BuildRow>, previous: Option<FileMap>, changes: seq<PackageChange>) {
    AreUpdatesOf(ChangedNames(rows, previous), changes)
  }

  lemma DiffersInOneOf(files: FileMap, prev: FileMap, main: string, dev: string)
    requires main in files && files.Keys <= {main, dev}
    ensures DiffersFrom(files, prev) <==>
            FileAt(prev, main) != FileAt(files, main) || (dev in files && FileAt(prev, dev) != FileAt(files, dev))
  {}

  /** The files a row of this type has, if any. */
  predicate IsRowView(row: BuildRow, v: View) {
    v.main.Some? && (v.dev.Some? <==> row.t.Plugin?)
  }

  lemma ChangeShowsInView(row: BuildRow, prev: FileMap)
    requires RowFiles(row) != map[]
    requires ViewOf(prev, NameOf(row)) == NOTHING || IsRowView(row, ViewOf(prev, NameOf(row)))
    ensures IsRowChanged(row, Some(prev)) <==> RowView(row) != ViewOf(prev, NameOf(row))
  {
    RowFilesShape(row);
    DiffersInOneOf(RowFiles(row), prev, MainKey(NameOf(row)), DevKey(NameOf(row)));
  }

  /** Comparing file by file finds exactly the packages whose view differs. */
  lemma RowChangeIsViewChange(rows: seq<BuildRow>, i: int, prev: FileMap)
    requires IsRowList(rows) && 0 <= i < |rows| && IsBuildOutput(prev)
    ensures var n := NameOf(rows[i]);
            IsRowChanged(rows[i], Some(prev)) <==>
            ViewOf(BuildFiles(rows), n) != NOTHING && ViewOf(BuildFiles(rows), n) != ViewOf(prev, n)
  {
    RowListIsApart(rows);
    ViewOfRow(rows, i);
    RowFilesShape(rows[i]);
    if RowFiles(rows[i]) != map[] {
      SameShape(rows, i, prev);
      ChangeShowsInView(rows[i], prev);
    }
  }

  method TaggedOf(t: PackageType, name: string, versions: map<string, string>, meta: PackageMeta)
    returns (tagged: map<string, Entry>)
    ensures tagged == TaggedEntries(t, name, NormalForm(versions), meta)
  {
    var normalized := NormalizeVersions(versions);
    NormalFormIsUnique(versions, normalized, NormalForm(versions));
    tagged := BuildTaggedEntries(t, name, normalized, meta);
  }

  /** The payloads of one row. */
  lemma DevEntriesExist(row: BuildRow)
    ensures DevEntries(row.t, row.name, row.meta) != map[]
  {
    assert TRUNK in DevEntries(row.t, row.name, row.meta);
  }

  method PayloadsOf(row: BuildRow) returns (main: Option<Payload>, dev: Option<Payload>)
    ensures RowFiles(row) == TwoFiles(NameOf(row), main, dev)
    ensures main.None? ==> dev.None?
  {
    main, dev := None, None;
    if row.versions.Some? {
      var mainVersions := TaggedOf(row.t, row.name, row.versions.value, row.meta);
      WrittenShape(row.t, row.name, row.versions.value, row.meta);
      DevEntriesExist(row);
      if row.t.Plugin? {
        var devVersions := DevEntries(row.t, row.name, row.meta);
        if mainVersions == map[] { mainVersions := devVersions; }
        dev := Some(Payload(NameOf(row), devVersions));
      }
      if mainVersions != map[] { main := Some(Payload(NameOf(row), mainVersions)); }
    }
  }

  lemma TwoFilesChanged(name: string, main: Payload, dev: Option<Payload>, prev: FileMap)
    ensures var files := TwoFiles(name, Some(main), dev);
            DiffersFrom(files, prev) <==>
            FileAt(prev, MainKey(name)) != Some(main) || (dev.Some? && FileAt(prev, DevKey(name)) != dev)
  {
    var files := TwoFiles(name, Some(main), dev);
    assert |MainKey(name)| < |DevKey(name)|;
    assert MainKey(name) in files && files[MainKey(name)] == main;
    assert dev.Some? ==> DevKey(name) in files && files[DevKey(name)] == dev.value;
  }

  /** Writes the files of one row and compares them with the previous build. */
  method BuildOne(row: BuildRow, previous: Option<FileMap>) returns (written: FileMap, changed: bool)
    ensures written == RowFiles(row)
    ensures changed <==> IsRowChanged(row, previous)
  {
    written, changed := map[], false;
    var main, dev := PayloadsOf(row);
    if main.Some? { written, changed := WriteFiles(NameOf(row), main.value, dev, previous); }
  }

  /** Writes the files of a package, and compares them with the previous build until one differs. */
  method WriteFiles(name: string, main: Payload, dev: Option<Payload>, previous: Option<FileMap>)
    returns (written: FileMap, changed: bool)
    ensures written == TwoFiles(name, Some(main), dev) && written != map[]
    ensures changed <==> previous.None? || DiffersFrom(written, previous.value)
  {
    written := map[MainKey(name) := main];
    if previous.Some? { TwoFilesChanged(name, main, dev, previous.value); }
    changed := previous.None? || FileAt(previous.value, MainKey(name)) != Some(main);
    if dev.Some? {
      written := written + map[DevKey(name) := dev.value];
      if !changed {
        changed := previous.None? || FileAt(previous.value, DevKey(name)) != dev;
      }
    }
    assert MainKey(name) in written;
  }

  lemma {:induction false} ChangedRow(rows: seq<BuildRow>, previous: Option<FileMap>, name: string) returns (i: int)
    requires name in ChangedNames(rows, previous)
    ensures 0 <= i < |rows| && IsRowChanged(rows[i], previous) && NameOf(rows[i]) == name
  {
    var n := |rows| - 1;
    if name in ChangedNames(rows[..n], previous) {
      i := ChangedRow(rows[..n], previous, name);
    } else {
      i := n;
    }
  }

  lemma {:induction false} RowIsChanged(rows: seq<BuildRow>, previous: Option<FileMap>, i: int)
    requires 0 <= i < |rows| && IsRowChanged(rows[i], previous)
    ensures NameOf(rows[i]) in ChangedNames(rows, previous)
  {
    if i < |rows| - 1 { RowIsChanged(rows[..|rows| - 1], previous, i); }
  }

  lemma NewName(rows: seq<BuildRow>, n: nat, previous: Option<FileMap>)
    requires AreRows(rows) && n < |rows|
    ensures NameOf(rows[n]) !in ChangedNames(rows[..n], previous)
  {
    if NameOf(rows[n]) in ChangedNames(rows[..n], previous) {
      var i := ChangedRow(rows[..n], previous, NameOf(rows[n]));
      ComposerNameFacts(rows[n].t, rows[i].t, rows[n].name, rows[i].name);
    }
  }

  lemma ChangedNamesGrow(rows: seq<BuildRow>, n: nat, previous: Option<FileMap>)
    requires n < |rows|
    ensures ChangedNames(rows[..n + 1], previous) ==
            if IsRowChanged(rows[n], previous) then ChangedNames(rows[..n], previous) + {NameOf(rows[n])}
            else ChangedNames(rows[..n], previous)
  {
    assert rows[..n + 1][..n] == rows[..n];
  }

  lemma UpdateAppended(names: set<string>, changes: seq<PackageChange>, n: string)
    requires AreUpdatesOf(names, changes) && n !in names
    ensures AreUpdatesOf(names + {n}, changes + [PackageChange(n, Update)])
  {
    forall k | 0 <= k < |changes| ensures changes[k].name != n {
      assert changes[k] in changes;
    }
  }

  lemma UpdatesStep(rows: seq<BuildRow>, n: nat, previous: Option<FileMap>, changes: seq<PackageChange>)
    requires AreRows(rows) && n < |rows| && AreUpdates(rows[..n], previous, changes)
    ensures AreUpdates(rows[..n + 1], previous,
              if IsRowChanged(rows[n], previous) then changes + [PackageChange(NameOf(rows[n]), Update)] else changes)
  {
    ChangedNamesGrow(rows, n, previous);
    NewName(rows, n, previous);
    UpdateAppended(ChangedNames(rows[..n], previous), changes, NameOf(rows[n]));
  }

  /** The packages of a previous build, by the names of its files. */
  ghost function NamesIn(files: FileMap): set<string> {
    set key | key in files && HasSuffix(key, ".json") :: NameOfFile(key)
  }

  lemma NamesOfBuild(prev: FileMap, n: string)
    requires IsBuildOutput(prev)
    ensures n in NamesIn(prev) <==> !HasSuffix(n, DEV) && ViewOf(prev, n) != NOTHING
  {
    var rows: seq<BuildRow> :| IsRowList(rows) && prev == BuildFiles(rows);
    if n in NamesIn(prev) {
      var key :| key in prev && NameOfFile(key) == n;
      var i := FileHasRow(rows, key);
      ComposerNameFacts(rows[i].t, rows[i].t, rows[i].name, rows[i].name);
    }
    if !HasSuffix(n, DEV) && ViewOf(prev, n) != NOTHING {
      MainKeyName(n);
      DevKeyName(n);
      assert MainKey(n) in prev || DevKey(n) in prev;
    }
  }

  /** The walk over the previous build. */
  method CollectNames(files: FileMap) returns (names: set<string>)
    ensures names == NamesIn(files)
  {
    names := {};
    var todo := files.Keys;
    while todo != {}
      invariant todo <= files.Keys
      invariant names == set key | key in files && key !in todo && HasSuffix(key, ".json") :: NameOfFile(key)
    {
      var key :| key in todo;
      todo := todo - {key};
      if HasSuffix(key, ".json") { names := names + {NameOfFile(key)}; }
    }
  }

  /** The updates, and a delete for every one of the names that has no file left. */
  ghost predicate HasDeletes(
    files: FileMap, updates: seq<PackageChange>, names: set<string>, changes: seq<PackageChange>) {
    && AreDistinct(changes)
    && (forall n :: PackageChange(n, Update) in changes <==> PackageChange(n, Update) in updates)
    && forall n :: PackageChange(n, Delete) in changes <==> n in names && ViewOf(files, n) == NOTHING
  }

  lemma OneMoreDelete(
    files: FileMap, updates: seq<PackageChange>, names: set<string>, changes: seq<PackageChange>, name: string)
    requires HasDeletes(files, updates, names, changes) && name !in names && ViewOf(files, name) == NOTHING
    requires PackageChange(name, Update) !in updates
    ensures HasDeletes(files, updates, names + {name}, changes + [PackageChange(name, Delete)])
  {
    forall k | 0 <= k < |changes| ensures changes[k].name != name {
      assert PackageChange(changes[k].name, if changes[k].action == Update then Update else Delete) in changes;
    }
  }

  lemma NoMoreDelete(
    files: FileMap, updates: seq<PackageChange>, names: set<string>, changes: seq<PackageChange>, name: string)
    requires HasDeletes(files, updates, names, changes) && ViewOf(files, name) != NOTHING
    ensures HasDeletes(files, updates, names + {name}, changes)
  {}

  /** Appends a delete for every package of the previous build that has no file left. */
  method AppendDeletes(prev: FileMap, files: FileMap, updates: seq<PackageChange>) returns (changes: seq<PackageChange>)
    requires AreDistinct(updates)
    requires forall c :: c in updates ==> c.action == Update && ViewOf(files, c.name) != NOTHING
    ensures AreDistinct(changes)
    ensures forall n :: PackageChange(n, Update) in changes <==> PackageChange(n, Update) in updates
    ensures forall n :: PackageChange(n, Delete) in changes <==> n in NamesIn(prev) && ViewOf(files, n) == NOTHING
  {
    var todo := CollectNames(prev);
    changes := updates;
    ghost var done: set<string> := {};
    while todo != {}
      invariant done !! todo && done + todo == NamesIn(prev) && HasDeletes(files, updates, done, changes)
      decreases todo
    {
      var name :| name in todo;
      MoveOver(done, todo, name);
      if MainKey(name) !in files && DevKey(name) !in files {
        assert PackageChange(name, Update) in updates ==> ViewOf(files, PackageChange(name, Update).name) != NOTHING;
        OneMoreDelete(files, updates, done, changes, name);
        changes := changes + [PackageChange(name, Delete)];
      } else {
        NoMoreDelete(files, updates, done, changes, name);
      }
      todo, done := todo - {name}, done + {name};
    }
    assert done == NamesIn(prev);
  }

  /** The packages of any set of files: a main file does not count if its name ends in "~dev". */
  lemma NamedIff(files: FileMap, n: string)
    ensures n in NamesIn(files) <==> DevKey(n) in files || (MainKey(n) in files && !HasSuffix(n, DEV))
  {
    MainKeyName(n);
    DevKeyName(n);
    if n in NamesIn(files) {
      var key :| key in files && HasSuffix(key, ".json") && NameOfFile(key) == n;
      KeyOfName(key);
    }
  }

  lemma KeyOfName(key: string)
    requires HasSuffix(key, ".json")
    ensures key == MainKey(NameOfFile(key)) || key == DevKey(NameOfFile(key))
  {
    if HasSuffix(key, "~dev.json") {
      assert key == key[..|key| - 9] + key[|key| - 9..];
    } else {
      assert key == key[..|key| - 5] + key[|key| - 5..];
    }
  }

  /**
   Where the names matter: a package that is gone gets a delete exactly if its name
   does not end in "~dev", or it had a development file.
   */
  lemma VanishedIsDeletedIff(prev: FileMap, files: FileMap, changes: seq<PackageChange>, n: string)
    requires forall m :: PackageChange(m, Delete) in changes <==> m in NamesIn(prev) && ViewOf(files, m) == NOTHING
    requires ViewOf(prev, n) != NOTHING && ViewOf(files, n) == NOTHING
    ensures PackageChange(n, Delete) in changes <==> !HasSuffix(n, DEV) || DevKey(n) in prev
  {
    NamedIff(prev, n);
  }

  lemma DiffIsExact(rows: seq<BuildRow>, prev: FileMap, updates: seq<PackageChange>, changes: seq<PackageChange>)
    requires IsRowList(rows) && IsBuildOutput(prev) && AreUpdates(rows, Some(prev), updates) && AreDistinct(changes)
    requires forall n :: PackageChange(n, Update) in changes <==> PackageChange(n, Update) in updates
    requires forall n :: PackageChange(n, Delete) in changes <==>
                         n in NamesIn(prev) && ViewOf(BuildFiles(rows), n) == NOTHING
    ensures IsDiff(prev, BuildFiles(rows), changes)
  {
    var files := BuildFiles(rows);
    forall n
      ensures PackageChange(n, Update) in changes <==>
              ViewOf(files, n) != NOTHING && ViewOf(files, n) != ViewOf(prev, n) && !HasSuffix(n, DEV)
    {
      if PackageChange(n, Update) in updates {
        var i := ChangedRow(rows, Some(prev), n);
        RowChangeIsViewChange(rows, i, prev);
        ComposerNameFacts(rows[i].t, rows[i].t, rows[i].name, rows[i].name);
      }
      if ViewOf(files, n) != NOTHING && ViewOf(files, n) != ViewOf(prev, n) && !HasSuffix(n, DEV) {
        var key := if MainKey(n) in files then MainKey(n) else DevKey(n);
        var i := FileHasRow(rows, key);
        MainKeyName(n);
        DevKeyName(n);
        RowChangeIsViewChange(rows, i, prev);
        RowIsChanged(rows, Some(prev), i);
      }
    }
    forall n
      ensures PackageChange(n, Delete) in changes <==>
              ViewOf(files, n) == NOTHING && ViewOf(prev, n) != NOTHING && !HasSuffix(n, DEV)
    {
      NamesOfBuild(prev, n);
    }
  }

  lemma {:induction false} RowHasFile(rows: seq<BuildRow>, i: int)
    requires 0 <= i < |rows| && RowFiles(rows[i]) != map[]
    ensures MainKey(NameOf(rows[i])) in BuildFiles(rows)
  {
    if i < |rows| - 1 { RowHasFile(rows[..|rows| - 1], i); } else { RowFilesShape(rows[i]); }
  }

  /**
   An update for each row that differs, and against a whole previous build a delete for
   each of its packages that has no file left.
   */
  ghost predicate AreChanges(
    rows: seq<BuildRow>, previous: Option<FileMap>, partial: bool, files: FileMap, changes: seq<PackageChange>)
  {
    && AreDistinct(changes)
    && (forall n :: PackageChange(n, Update) in changes <==> n in ChangedNames(rows, previous))
    && (forall n :: PackageChange(n, Delete) in changes <==>
                    previous.Some? && !partial && n in NamesIn(previous.value) && ViewOf(files, n) == NOTHING)
  }

  /**
   Builds all files and lists what changed. A full build against a previous build
   lists the exact difference if no slug ends in "~dev"; a partial or first one lists
   updates only.
   */
  method Build(rows: seq<BuildRow>, previous: Option<FileMap>, partial: bool)
    returns (files: FileMap, changes: seq<PackageChange>)
    requires AreRows(rows)
    ensures files == BuildFiles(rows) && AreChanges(rows, previous, partial, files, changes)
    ensures IsRowList(rows) && previous.Some? && !partial && IsBuildOutput(previous.value) ==>
              IsDiff(previous.value, files, changes)
  {
    files, changes := BuildAll(rows, previous);
    UpdatesOnly(rows, previous, files, changes);
    if previous.Some? && !partial {
      var updates := changes;
      changes := AppendDeletes(previous.value, files, updates);
      if IsRowList(rows) && IsBuildOutput(previous.value) { DiffIsExact(rows, previous.value, updates, changes); }
    }
  }

  /** The loop over the rows. */
  method BuildAll(rows: seq<BuildRow>, previous: Option<FileMap>) returns (files: FileMap, changes: seq<PackageChange>)
    requires AreRows(rows)
    ensures files == BuildFiles(rows) && AreUpdates(rows, previous, changes)
  {
    files, changes := map[], [];
    for i := 0 to |rows|
      invariant files == BuildFiles(rows[..i])
      invariant AreUpdates(rows[..i], previous, changes)
    {
      var written, changed := BuildOne(rows[i], previous);
      UpdatesStep(rows, i, previous, changes);
      assert rows[..i + 1][..i] == rows[..i];
      files := files + written;
      if changed { changes := changes + [PackageChange(NameOf(rows[i]), Update)]; }
    }
    TakeAll(rows);
  }

  lemma UpdatesOnly(rows: seq<BuildRow>, previous: Option<FileMap>, files: FileMap, updates: seq<PackageChange>)
    requires AreUpdates(rows, previous, updates) && files == BuildFiles(rows)
    ensures forall c :: c in updates ==> c.action == Update && ViewOf(files, c.name) != NOTHING
    ensures forall n :: PackageChange(n, Update) in updates <==> n in ChangedNames(rows, previous)
  {
    forall c | c in updates ensures ViewOf(files, c.name) != NOTHING {
      var i := ChangedRow(rows, previous, c.name);
      RowHasFile(rows, i);
    }
    forall n | PackageChange(n, Update) in updates ensures n in ChangedNames(rows, previous) {
      assert PackageChange(n, Update).name == n;
    }
  }

  // ----- Updates, for any slugs that are apart -----

  /** What the previous build wrote for the package of a row. */
  ghost function ViewBefore(before: seq<BuildRow>, row: BuildRow): View {
    if before == [] then NOTHING
    else
      var last := before[|before| - 1];
      if IsPackage(last, row) then RowView(last) else ViewBefore(before[..|before| - 1], row)
  }

  /** The row's package is none of the others, and shares no file with them. */
  ghost predicate IsApartFrom(row: BuildRow, rows: seq<BuildRow>) {
    forall i :: 0 <= i < |rows| ==> !IsDevOf(row, rows[i]) && !IsDevOf(rows[i], row)
  }

  lemma {:induction false} RowBefore(before: seq<BuildRow>, row: BuildRow, j: int, m: int)
    requires 0 <= j < m <= |before| && IsPackage(before[j], row)
    requires forall k :: j < k < m ==> !IsPackage(before[k], row)
    ensures ViewBefore(before[..m], row) == RowView(before[j])
    decreases m
  {
    assert before[..m][..m - 1] == before[..m - 1] && before[..m][m - 1] == before[m - 1];
    if j < m - 1 { RowBefore(before, row, j, m - 1); }
  }

  lemma {:induction false} NoRowBefore(before: seq<BuildRow>, row: BuildRow)
    requires forall j :: 0 <= j < |before| ==> !IsPackage(before[j], row)
    ensures ViewBefore(before, row) == NOTHING
  {
    if before != [] { NoRowBefore(before[..|before| - 1], row); }
  }

  /** What the previous build holds for a row's package is what its row of that package wrote. */
  lemma ViewBeforeIsView(before: seq<BuildRow>, row: BuildRow)
    requires AreApart(before) && IsApartFrom(row, before)
    ensures ViewOf(BuildFiles(before), NameOf(row)) == ViewBefore(before, row)
    ensures ViewBefore(before, row) == NOTHING || IsRowView(row, ViewBefore(before, row))
  {
    if j :| 0 <= j < |before| && IsPackage(before[j], row) {
      ViewOfRow(before, j);
      forall k | j < k < |before| ensures !IsPackage(before[k], row) { assert !IsPackage(before[j], before[k]); }
      RowBefore(before, row, j, |before|);
      TakeAll(before);
      RowFilesShape(before[j]);
    } else {
      NoRowBefore(before, row);
      NoFileBefore(before, row, MainKey(NameOf(row)));
      NoFileBefore(before, row, DevKey(NameOf(row)));
    }
  }

  lemma NoFileBefore(before: seq<BuildRow>, row: BuildRow, key: string)
    requires IsApartFrom(row, before) && IsRowKey(row, key)
    requires forall j :: 0 <= j < |before| ==> !IsPackage(before[j], row)
    ensures key !in BuildFiles(before)
  {
    if key in BuildFiles(before) {
      var j := FindRow(before, key);
      WrittenKey(before[j], key);
      SameKey(row, before[j], key);
    }
  }

  /**
   Updates are exact whenever no slug of the two builds is another of its type with
   "~dev" at the end: a package is listed exactly if it has files, and not those that
   the previous build wrote for it.
   */
  lemma UpdatesAreExact(before: seq<BuildRow>, rows: seq<BuildRow>, i: int)
    requires AreApart(before) && AreRows(rows) && 0 <= i < |rows| && IsApartFrom(rows[i], before)
    ensures NameOf(rows[i]) in ChangedNames(rows, Some(BuildFiles(before))) <==>
            RowView(rows[i]) != NOTHING && RowView(rows[i]) != ViewBefore(before, rows[i])
  {
    var row, prev := rows[i], BuildFiles(before);
    ViewBeforeIsView(before, row);
    RowFilesShape(row);
    if RowFiles(row) != map[] { ChangeShowsInView(row, prev); }
    NameIsChanged(rows, i, Some(prev));
  }

  /**
   So are deletes, except that a theme whose slug ends in "~dev" never gets one: a
   package of the previous build is deleted exactly if it had files and has none now.
   */
  lemma DeletesAreExact(before: seq<BuildRow>, rows: seq<BuildRow>, j: int)
    requires AreApart(before) && AreApart(rows) && 0 <= j < |before| && IsApartFrom(before[j], rows)
    ensures var n := NameOf(before[j]);
            n in NamesIn(BuildFiles(before)) && ViewOf(BuildFiles(rows), n) == NOTHING <==>
            RowView(before[j]) != NOTHING && ViewBefore(rows, before[j]) == NOTHING
            && (HasSuffix(n, DEV) ==> before[j].t.Plugin?)
  {
    var n := NameOf(before[j]);
    NamedIff(BuildFiles(before), n);
    ViewOfRow(before, j);
    RowFilesShape(before[j]);
    ViewBeforeIsView(rows, before[j]);
    assert FileAt(BuildFiles(before), MainKey(n)) == RowView(before[j]).main;
    assert FileAt(BuildFiles(before), DevKey(n)) == RowView(before[j]).dev;
  }

  /** The row gives the name to a delete: by its own files, or as the "~dev" of another name. */
  predicate Names(row: BuildRow, n: string) {
    (NameOf(row) == n && (row.t.Plugin? || !HasSuffix(n, DEV))) || NameOf(row) == n + DEV
  }

  /**
   Which names the deletes are about: those of packages with files, without themes
   whose slug ends in "~dev", and what is left of a name without that ending, whether
   it is a package or not.
   */
  lemma DeletedNamesIff(before: seq<BuildRow>, n: string)
    ensures n in NamesIn(BuildFiles(before)) <==>
            exists j :: 0 <= j < |before| && RowFiles(before[j]) != map[] && Names(before[j], n)
  {
    NamedIff(BuildFiles(before), n);
    if n in NamesIn(BuildFiles(before)) {
      var key := if DevKey(n) in BuildFiles(before) then DevKey(n) else MainKey(n);
      var j := FindRow(before, key);
      KeyNames(before[j], key, n);
    }
    if j :| 0 <= j < |before| && RowFiles(before[j]) != map[] && Names(before[j], n) {
      NamedKey(before[j], n);
      if DevKey(n) in RowFiles(before[j]) {
        BuiltKey(before, j, DevKey(n));
      } else {
        BuiltKey(before, j, MainKey(n));
      }
    }
  }

  lemma KeyNames(row: BuildRow, key: string, n: string)
    requires key in RowFiles(row) && (key == DevKey(n) || (key == MainKey(n) && !HasSuffix(n, DEV)))
    ensures Names(row, n)
  {
    var m := NameOf(row);
    RowFilesShape(row);
    SameMain(m, n);
    DevSuffix(m);
    if key == DevKey(n) && key == MainKey(m) { MainIsDev(m, n); }
    if key == MainKey(n) && key == DevKey(m) { MainIsDev(n, m); }
  }

  lemma SameMain(m: string, n: string)
    ensures MainKey(m) == MainKey(n) ==> m == n
    ensures DevKey(m) == DevKey(n) ==> m == n
  {
    assert MainKey(m)[..|m|] == m && MainKey(n)[..|n|] == n;
    assert DevKey(m)[..|m|] == m && DevKey(n)[..|n|] == n;
  }

  lemma NamedKey(row: BuildRow, n: string)
    requires RowFiles(row) != map[] && Names(row, n)
    ensures DevKey(n) in RowFiles(row) || (MainKey(n) in RowFiles(row) && !HasSuffix(n, DEV))
  {
    var m := NameOf(row);
    RowFilesShape(row);
    assert MainKey(m) in RowFiles(row) && (row.t.Plugin? ==> DevKey(m) in RowFiles(row));
    if m == n + DEV { DevIsMain(m, n); }
  }

  lemma DevIsMain(m: string, n: string)
    requires m == n + DEV
    ensures MainKey(m) == DevKey(n)
  {
    assert n + DEV + ".json" == n + "~dev.json";
  }

  lemma {:induction false} BuiltKey(rows: seq<BuildRow>, j: int, key: string)
    requires 0 <= j < |rows| && key in RowFiles(rows[j])
    ensures key in BuildFiles(rows)
  {
    if j < |rows| - 1 { BuiltKey(rows[..|rows| - 1], j, key); }
  }

  lemma NameIsChanged(rows: seq<BuildRow>, i: int, previous: Option<FileMap>)
    requires AreRows(rows) && 0 <= i < |rows|
    ensures NameOf(rows[i]) in ChangedNames(rows, previous) <==> IsRowChanged(rows[i], previous)
  {
    if NameOf(rows[i]) in ChangedNames(rows, previous) {
      var j := ChangedRow(rows, previous, NameOf(rows[i]));
      SameName(rows[i], rows[j]);
      SamePackage(rows, i, j);
    } else if IsRowChanged(rows[i], previous) {
      RowIsChanged(rows, previous, i);
    }
  }

  lemma SameName(a: BuildRow, b: BuildRow)
    requires NameOf(a) == NameOf(b)
    ensures IsPackage(a, b)
  {
    ComposerNameFacts(a.t, b.t, a.name, b.name);
  }

  lemma FileNamesPackage(row: BuildRow, key: string)
    requires key in RowFiles(row)
    ensures RowFiles(row)[key].composerName == NameOf(row)
  {
    WrittenShape(row.t, row.name, row.versions.value, row.meta);
  }

  lemma DevKeyIsMain(a: BuildRow, b: BuildRow)
    requires IsDevOf(b, a)
    ensures MainKey(NameOf(b)) == DevKey(NameOf(a))
  {
    var p := if a.t.Theme? then "wp-theme/" else "wp-plugin/";
    assert p + (a.name + DEV) + ".json" == p + a.name + "~dev.json";
  }

  /** Two plugins of which one is the other's "~dev": building the same rows again lists the first one as updated. */
  lemma UnchangedIsListed(a: BuildRow, b: BuildRow)
    requires a.t.Plugin? && IsDevOf(b, a) && RowFiles(a) != map[] && RowFiles(b) != map[]
    ensures AreRows([a, b]) && NameOf(a) in ChangedNames([a, b], Some(BuildFiles([a, b])))
  {
    assert |b.name| == |a.name| + 4;
    var rows := [a, b];
    LastIsOverlaid(a, b);
    SharedFileDiffers(a, b, BuildFiles(rows));
    RowIsChanged(rows, Some(BuildFiles(rows)), 0);
  }

  lemma LastIsOverlaid(a: BuildRow, b: BuildRow)
    ensures forall key :: key in RowFiles(b) ==> FileAt(BuildFiles([a, b]), key) == Some(RowFiles(b)[key])
  {
    forall key | key in RowFiles(b) ensures FileAt(BuildFiles([a, b]), key) == Some(RowFiles(b)[key]) {
      OneMoreBuilt([a, b], 2, key);
    }
    TakeAll([a, b]);
  }

  lemma SharedFileDiffers(a: BuildRow, b: BuildRow, prev: FileMap)
    requires a.t.Plugin? && IsDevOf(b, a) && RowFiles(a) != map[] && RowFiles(b) != map[]
    requires forall key :: key in RowFiles(b) ==> FileAt(prev, key) == Some(RowFiles(b)[key])
    ensures IsRowChanged(a, Some(prev))
  {
    var key := MainKey(NameOf(b));
    RowFilesShape(a);
    RowFilesShape(b);
    DevKeyIsMain(a, b);
    FileNamesPackage(a, key);
    FileNamesPackage(b, key);
    ComposerNameFacts(a.t, b.t, a.name, b.name);
    assert |b.name| == |a.name| + 4;
    assert FileAt(prev, key) != Some(RowFiles(a)[key]);
  }

  // ----- Replaying a diff -----

  function Removed(files: FileMap, name: string): FileMap {
    files - {MainKey(name), DevKey(name)}
  }

  function Fetched(files: FileMap, current: FileMap, name: string): FileMap {
    Removed(files, name) + (if MainKey(name) in current then map[MainKey(name) := current[MainKey(name)]] else map[])
                         + (if DevKey(name) in current then map[DevKey(name) := current[DevKey(name)]] else map[])
  }

  /** A mirror that fetches every updated package from the new build and drops every deleted one. */
  function Applied(files: FileMap, current: FileMap, changes: seq<PackageChange>): FileMap {
    if changes == [] then files
    else
      var c := changes[|changes| - 1];
      var before := Applied(files, current, changes[..|changes| - 1]);
      if c.action == Update then Fetched(before, current, c.name) else Removed(before, c.name)
  }

  lemma KeysAreSeparate(n: string, m: string)
    requires n != m && !HasSuffix(n, DEV) && !HasSuffix(m, DEV)
    ensures MainKey(n) != MainKey(m) && MainKey(n) != DevKey(m) && DevKey(n) != MainKey(m) && DevKey(n) != DevKey(m)
    ensures MainKey(n) != DevKey(n)
  {
    MainKeyName(n);
    MainKeyName(m);
    DevKeyName(n);
    DevKeyName(m);
    assert |MainKey(n)| < |DevKey(n)|;
  }

  lemma OneStep(files: FileMap, current: FileMap, c: PackageChange, n: string)
    requires !HasSuffix(n, DEV) && !HasSuffix(c.name, DEV)
    ensures ViewOf(if c.action == Update then Fetched(files, current, c.name) else Removed(files, c.name), n) ==
            if c.name != n then ViewOf(files, n)
            else if c.action == Update then ViewOf(current, n)
            else NOTHING
  {
    assert |MainKey(n)| < |DevKey(n)|;
    if n != c.name { KeysAreSeparate(n, c.name); }
  }

  /** What a mirror holds for a package after a list of changes. */
  lemma {:induction false} AppliedView(files: FileMap, current: FileMap, changes: seq<PackageChange>, n: string)
    requires !HasSuffix(n, DEV) && AreDistinct(changes) && forall c :: c in changes ==> !HasSuffix(c.name, DEV)
    ensures ViewOf(Applied(files, current, changes), n) ==
            if PackageChange(n, Update) in changes then ViewOf(current, n)
            else if PackageChange(n, Delete) in changes then NOTHING
            else ViewOf(files, n)
  {
    if changes != [] {
      var last := |changes| - 1;
      var c := changes[last];
      AppliedView(files, current, changes[..last], n);
      OneStep(Applied(files, current, changes[..last]), current, c, n);
      assert changes == changes[..last] + [c];
      if c.name == n {
        forall d | d in changes[..last] ensures d.name != n {
          var k :| 0 <= k < last && changes[k] == d;
        }
      }
    }
  }

  lemma {:induction false} AppliedKeys(files: FileMap, current: FileMap, changes: seq<PackageChange>)
    ensures Applied(files, current, changes).Keys <= files.Keys + current.Keys
  {
    if changes != [] { AppliedKeys(files, current, changes[..|changes| - 1]); }
  }

  /** Applying the recorded updates and deletes to the previous build gives the new one. */
  lemma DiffReplays(rows: seq<BuildRow>, prev: FileMap, changes: seq<PackageChange>)
    requires IsRowList(rows) && IsBuildOutput(prev) && IsDiff(prev, BuildFiles(rows), changes)
    ensures Applied(prev, BuildFiles(rows), changes) == BuildFiles(rows)
  {
    var files := BuildFiles(rows);
    var result := Applied(prev, files, changes);
    var before: seq<BuildRow> :| IsRowList(before) && prev == BuildFiles(before);
    AppliedKeys(prev, files, changes);
    forall key ensures FileAt(result, key) == FileAt(files, key) {
      if key in prev {
        var i := FileHasRow(before, key);
        ViewReplays(prev, files, changes, before[i]);
      } else if key in files {
        var i := FileHasRow(rows, key);
        ViewReplays(prev, files, changes, rows[i]);
      }
    }
    SameFiles(result, files);
  }

  lemma SameFiles(a: FileMap, b: FileMap)
    requires forall key :: FileAt(a, key) == FileAt(b, key)
    ensures a == b
  {
    forall key ensures key in a <==> key in b {
      assert FileAt(a, key) == FileAt(b, key);
    }
    forall key | key in a ensures a[key] == b[key] {
      assert FileAt(a, key) == FileAt(b, key);
    }
  }

  lemma ViewReplays(prev: FileMap, files: FileMap, changes: seq<PackageChange>, row: BuildRow)
    requires IsDiff(prev, files, changes) && !HasSuffix(row.name, DEV)
    ensures ViewOf(Applied(prev, files, changes), NameOf(row)) == ViewOf(files, NameOf(row))
  {
    ComposerNameFacts(row.t, row.t, row.name, row.name);
    forall c | c in changes ensures !HasSuffix(c.name, DEV) {
      match c.action
      case Update => assert c == PackageChange(c.name, Update);
      case Delete => assert c == PackageChange(c.name, Delete);
    }
    AppliedView(prev, files, changes, NameOf(row));
  }
}
