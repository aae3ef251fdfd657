/**
 What is in the published files, field by field: which versions, which download, which
 source reference, and which times.
 */
module Entries {
  import opened Text
  import opened Version
  import opened VersionGrammar
  import opened VersionNumbers
  import opened SvnLog
  import opened PublishedTimes
  import opened Serialize
  import Builder

  /** The versions listed in the main file: what the raw versions normalize to, without the trunk. */
  ghost function ListedVersions(versions: map<string, string>): set<string> {
    set r | r in versions && Normalize(r) != "" && Normalize(r) != "dev-trunk" :: Normalize(r)
  }

  /** The raw version whose entry counts for a version. */
  ghost predicate IsKept(versions: map<string, string>, v: string, r: string) {
    && r in versions && Normalize(r) == v
    && if v in versions && Normalize(v) == v then r == v
       else forall q :: q in versions && Normalize(q) == v && q != r ==> Less(r, q)
  }

  /** A present text. */
  predicate IsText(field: Option<string>, text: string) {
    if text == "" then field == None else field == Some(text)
  }

  /** What all entries of a package have in common. */
  predicate IsEntryOf(t: PackageType, slug: string, meta: PackageMeta, v: string, e: Entry) {
    && e.version == v
    && e.name == (if t.Plugin? then "wp-plugin/" else "wp-theme/") + slug
    && e.kind == (if t.Plugin? then "wordpress-plugin" else "wordpress-theme")
    && e.uidOf == e.name + "/" + v
    && e.supportSource ==
       (if t.Plugin? then "https://plugins.svn.wordpress.org/" else "https://themes.svn.wordpress.org/") + slug
    && e.sourceUrl == e.supportSource + "/"
    && e.issues ==
       (if t.Plugin? then "https://wordpress.org/support/plugin/" else "https://wordpress.org/support/theme/") + slug
    && e.changelog ==
       (if t.Plugin? then "https://wordpress.org/plugins/" else "https://wordpress.org/themes/") + slug + "/#developers"
    && (if meta.requiresPhp == "" then e.requirePhp == None else e.requirePhp == Some(">=" + meta.requiresPhp))
    && IsText(e.description, meta.description) && IsText(e.homepage, meta.homepage) && IsText(e.author, meta.author)
  }

  /** The last commit as a time field. */
  predicate IsLastCommit(field: Option<TimeField>, meta: PackageMeta) {
    if meta.lastUpdated == "" then field == None else field == Some(Committed(meta.lastUpdated))
  }

  /**
   A tagged version: it has the download of the kept raw version, its tag as reference,
   and its published time in both time fields if there is one.
   */
  ghost predicate IsTaggedEntry(
    t: PackageType, slug: string, versions: map<string, string>, meta: PackageMeta, v: string, e: Entry)
  {
    && IsEntryOf(t, slug, meta, v, e)
    && (exists r :: IsKept(versions, v, r) && IsText(e.dist, versions[r]))
    && e.reference == (if t.Plugin? then "tags/" + v else v)
    && if meta.publishedTimes.Some? && v in meta.publishedTimes.value then
         e.time == e.publishedTime == Some(Published(meta.publishedTimes.value[v]))
       else IsLastCommit(e.time, meta) && e.publishedTime == None
  }

  /**
   The trunk: no download, its revision if known as reference, and the last commit as
   its time; as published time only if the package has any.
   */
  predicate IsTrunkEntry(t: PackageType, slug: string, meta: PackageMeta, e: Entry) {
    && IsEntryOf(t, slug, meta, "dev-trunk", e)
    && e.dist == None
    && e.reference == (if meta.trunkRevision.Some? then "trunk@" + FormatInt(meta.trunkRevision.value) else "trunk")
    && IsLastCommit(e.time, meta)
    && (if meta.publishedTimes.Some? then IsLastCommit(e.publishedTime, meta) else e.publishedTime == None)
  }

  /** The main file: the tagged versions, or the trunk of a plugin that has none. */
  ghost predicate IsMainFile(
    t: PackageType, slug: string, versions: map<string, string>, meta: PackageMeta, file: Option<Payload>)
  {
    var listed := ListedVersions(versions);
    if listed == {} && t.Theme? then file == None
    else
      && file.Some? && file.value.composerName == (if t.Plugin? then "wp-plugin/" else "wp-theme/") + slug
      && if listed == {} then
           file.value.entries.Keys == {"dev-trunk"} && IsTrunkEntry(t, slug, meta, file.value.entries["dev-trunk"])
         else
           file.value.entries.Keys == listed
           && forall v :: v in listed ==> IsTaggedEntry(t, slug, versions, meta, v, file.value.entries[v])
  }

  /** The development file: the trunk of a plugin. */
  predicate IsDevFile(t: PackageType, slug: string, meta: PackageMeta, file: Option<Payload>) {
    if t.Theme? then file == None
    else
      && file.Some? && file.value.composerName == "wp-plugin/" + slug
      && file.value.entries.Keys == {"dev-trunk"} && IsTrunkEntry(t, slug, meta, file.value.entries["dev-trunk"])
  }

  // ----- Entries -----

  lemma UrlTexts(kind: string, slug: string)
    requires kind == "plugin" || kind == "theme"
    ensures "https://" + kind + "s.svn.wordpress.org/" + slug
            == (if kind == "plugin" then "https://plugins.svn.wordpress.org/" else "https://themes.svn.wordpress.org/")
               + slug
    ensures "https://wordpress.org/" + kind + "s/" + slug + "/#developers"
            == (if kind == "plugin" then "https://wordpress.org/plugins/" else "https://wordpress.org/themes/")
               + slug + "/#developers"
  {
    assert "https://" + "plugin" + "s.svn.wordpress.org/" == "https://plugins.svn.wordpress.org/";
    assert "https://" + "theme" + "s.svn.wordpress.org/" == "https://themes.svn.wordpress.org/";
    assert "https://wordpress.org/" + "plugin" + "s/" == "https://wordpress.org/plugins/";
    assert "https://wordpress.org/" + "theme" + "s/" == "https://wordpress.org/themes/";
  }

  lemma KindTexts(kind: string, slug: string)
    requires kind == "plugin" || kind == "theme"
    ensures "wordpress-" + kind == if kind == "plugin" then "wordpress-plugin" else "wordpress-theme"
    ensures "https://wordpress.org/support/" + kind + "/" + slug
            == (if kind == "plugin" then "https://wordpress.org/support/plugin/" else "https://wordpress.org/support/theme/")
               + slug
  {
    assert "https://wordpress.org/support/" + "plugin" + "/" == "https://wordpress.org/support/plugin/";
    assert "https://wordpress.org/support/" + "theme" + "/" == "https://wordpress.org/support/theme/";
    assert "wordpress-" + "plugin" == "wordpress-plugin" && "wordpress-" + "theme" == "wordpress-theme";
  }

  lemma CommonFields(t: PackageType, slug: string, v: string, url: string, meta: PackageMeta)
    ensures IsEntryOf(t, slug, meta, v, ComposerVersion(t, slug, v, url, meta))
  {
    UrlTexts(if t.Plugin? then "plugin" else "theme", slug);
    KindTexts(if t.Plugin? then "plugin" else "theme", slug);
  }

  lemma TaggedEntryMeans(t: PackageType, slug: string, versions: map<string, string>, meta: PackageMeta, v: string)
    requires v in NormalForm(versions) && v != TRUNK
    ensures IsTaggedEntry(t, slug, versions, meta, v, ComposerVersion(t, slug, v, NormalForm(versions)[v], meta))
  {
    var url := NormalForm(versions)[v];
    CommonFields(t, slug, v, url, meta);
    var r :| IsChosen(versions, v, r) && url == versions[r];
    ChosenIff(versions, v, r);
    assert IsKept(versions, v, r);
  }

  lemma TrunkEntryMeans(t: PackageType, slug: string, meta: PackageMeta)
    ensures IsTrunkEntry(t, slug, meta, ComposerVersion(t, slug, TRUNK, "", meta))
  {
    CommonFields(t, slug, TRUNK, "", meta);
  }

  /** A normalized version is tagged exactly if it is not the trunk. */
  lemma TaggedIff(r: string)
    requires Normalize(r) != ""
    ensures IsTagged(Normalize(r)) <==> Normalize(r) != "dev-trunk"
  {
    NormalizeRange(r);
    FormIsTagged(Normalize(r));
  }

  lemma FormIsTagged(v: string)
    requires v == TRUNK || IsVersion(v)
    ensures IsTagged(v) <==> v != "dev-trunk"
  {
    if v == TRUNK {
      assert TRUNK[..4] == "dev-";
    } else {
      VersionIsClean(v);
      DigitFirst(v);
    }
  }

  lemma DigitFirst(v: string)
    requires v != "" && '0' <= v[0] <= '9'
    ensures !HasPrefix(v, "dev-")
  {
    assert v[0] != "dev-"[0];
  }

  /** The versions of the normal form that are listed. */
  lemma ListedIff(versions: map<string, string>, v: string)
    ensures v in ListedVersions(versions) <==> v in NormalForm(versions) && IsTagged(v)
    ensures v in NormalForm(versions) ==> (IsTagged(v) <==> v != TRUNK)
  {
    if v in NormalForm(versions) {
      var r := RawVersion(versions, v);
      TaggedIff(r);
    }
    if v in ListedVersions(versions) {
      var r :| r in versions && Normalize(r) == v && v != "";
      assert r in Candidates(versions, v);
      TaggedIff(r);
    }
  }

  // ----- Files -----

  lemma MainFileMeans(t: PackageType, slug: string, versions: map<string, string>, meta: PackageMeta)
    ensures IsMainFile(t, slug, versions, meta, MainPayload(t, slug, versions, meta))
  {
    var listed := ListedVersions(versions);
    var tagged := TaggedEntries(t, slug, NormalForm(versions), meta);
    forall v ensures v in listed <==> v in tagged { ListedIff(versions, v); }
    assert tagged.Keys == listed;
    assert tagged == map[] <==> listed == {};
    TrunkEntryMeans(t, slug, meta);
    forall v | v in listed ensures IsTaggedEntry(t, slug, versions, meta, v, tagged[v]) {
      ListedIff(versions, v);
      TaggedEntryMeans(t, slug, versions, meta, v);
    }
  }

  lemma DevFileMeans(t: PackageType, slug: string, meta: PackageMeta)
    ensures IsDevFile(t, slug, meta, DevPayload(t, slug, meta))
  {
    TrunkEntryMeans(t, slug, meta);
  }

  /** What is serialized for a file name: the main file of a slug, or with "~dev" its development file. */
  lemma SerializedMeans(t: PackageType, slug: string, versions: map<string, string>, meta: PackageMeta)
    ensures !HasSuffix(slug, DEV) ==> IsMainFile(t, slug, versions, meta, Serialized(t, slug, versions, meta))
    ensures IsDevFile(t, slug, meta, Serialized(t, slug + "~dev", versions, meta))
  {
    if !HasSuffix(slug, DEV) {
      SerializedPlain(t, slug, versions, meta);
      MainFileMeans(t, slug, versions, meta);
    }
    SerializedDev(t, slug, versions, meta);
    DevFileMeans(t, slug, meta);
  }

  /** The file of a map under a key. */
  function FileUnder(files: map<string, Payload>, key: string): Option<Payload> {
    if key in files then Some(files[key]) else None
  }

  /** Two files under the names of a package. */
  ghost predicate AreFiles(
    t: PackageType, slug: string, versions: map<string, string>, meta: PackageMeta, files: map<string, Payload>)
  {
    var name := (if t.Plugin? then "wp-plugin/" else "wp-theme/") + slug;
    && files.Keys <= {name + ".json", name + "~dev.json"}
    && IsMainFile(t, slug, versions, meta, FileUnder(files, name + ".json"))
    && IsDevFile(t, slug, meta, FileUnder(files, name + "~dev.json"))
  }

  lemma TwoFilesUnder(name: string, main: Option<Payload>, dev: Option<Payload>)
    ensures var files := TwoFiles(name, main, dev);
            && files.Keys <= {name + ".json", name + "~dev.json"}
            && FileUnder(files, name + ".json") == main && FileUnder(files, name + "~dev.json") == dev
  {
    assert |name + ".json"| < |name + "~dev.json"|;
  }

  lemma FilesOfPayloads(
    t: PackageType, slug: string, versions: map<string, string>, meta: PackageMeta,
    main: Option<Payload>, dev: Option<Payload>)
    requires IsMainFile(t, slug, versions, meta, main) && IsDevFile(t, slug, meta, dev)
    ensures AreFiles(t, slug, versions, meta, TwoFiles(ComposerName(t, slug), main, dev))
  {
    TwoFilesUnder(ComposerName(t, slug), main, dev);
  }

  /** What a build writes for a row: its main file and its development file under their names, and nothing else. */
  lemma WrittenMeans(t: PackageType, slug: string, versions: map<string, string>, meta: PackageMeta)
    ensures AreFiles(t, slug, versions, meta, WrittenFiles(t, slug, versions, meta))
  {
    WrittenShape(t, slug, versions, meta);
    MainFileMeans(t, slug, versions, meta);
    DevFileMeans(t, slug, meta);
    FilesOfPayloads(t, slug, versions, meta, MainPayload(t, slug, versions, meta), DevPayload(t, slug, meta));
  }

  /** What is uploaded, for slugs that do not end in "~dev". */
  lemma UploadedMeans(t: PackageType, slug: string, versions: map<string, string>, meta: PackageMeta)
    requires !HasSuffix(slug, DEV)
    ensures AreFiles(t, slug, versions, meta, UploadedFiles(t, slug, versions, meta))
  {
    WrittenMeans(t, slug, versions, meta);
    PlainNamesAgree(t, slug, versions, meta);
  }

  // ----- A whole build -----

  function FileName(row: Builder.BuildRow): string {
    (if row.t.Plugin? then "wp-plugin/" else "wp-theme/") + row.name
  }

  /** The files of a build under the names of one of its rows. */
  ghost predicate IsBuilt(files: map<string, Payload>, row: Builder.BuildRow) {
    var main, dev := FileUnder(files, FileName(row) + ".json"), FileUnder(files, FileName(row) + "~dev.json");
    match row.versions
    case None => main == None && dev == None
    case Some(versions) => IsMainFile(row.t, row.name, versions, row.meta, main) && IsDevFile(row.t, row.name, row.meta, dev)
  }

  lemma RowIsBuilt(row: Builder.BuildRow)
    ensures IsBuilt(Builder.RowFiles(row), row)
    ensures forall key :: key in Builder.RowFiles(row) ==>
              key == FileName(row) + ".json" || key == FileName(row) + "~dev.json"
  {
    if row.versions.Some? { WrittenMeans(row.t, row.name, row.versions.value, row.meta); }
  }

  /**
   What a build holds: under the names of each package its files, none if its versions
   do not parse; and no file under any other name.
   */
  lemma BuildMeans(rows: seq<Builder.BuildRow>)
    requires Builder.AreApart(rows)
    ensures forall i :: 0 <= i < |rows| ==> IsBuilt(Builder.BuildFiles(rows), rows[i])
    ensures forall key :: key in Builder.BuildFiles(rows) ==>
              exists i :: 0 <= i < |rows| && (key == FileName(rows[i]) + ".json" || key == FileName(rows[i]) + "~dev.json")
  {
    var files := Builder.BuildFiles(rows);
    forall i | 0 <= i < |rows| ensures IsBuilt(files, rows[i]) { RowInBuild(rows, i); }
    forall key | key in files
      ensures exists i :: 0 <= i < |rows| && (key == FileName(rows[i]) + ".json" || key == FileName(rows[i]) + "~dev.json")
    {
      var i := Builder.FindRow(rows, key);
      RowIsBuilt(rows[i]);
    }
  }

  lemma KeysOfName(row: Builder.BuildRow)
    ensures Builder.IsRowKey(row, FileName(row) + ".json") && Builder.IsRowKey(row, FileName(row) + "~dev.json")
  {}

  lemma SameFile(rows: seq<Builder.BuildRow>, i: int, key: string)
    requires Builder.AreApart(rows) && 0 <= i < |rows| && Builder.IsRowKey(rows[i], key)
    ensures FileUnder(Builder.BuildFiles(rows), key) == FileUnder(Builder.RowFiles(rows[i]), key)
  {
    Builder.FileOfRow(rows, i, key);
  }

  lemma RowInBuild(rows: seq<Builder.BuildRow>, i: int)
    requires Builder.AreApart(rows) && 0 <= i < |rows|
    ensures IsBuilt(Builder.BuildFiles(rows), rows[i])
  {
    var row := rows[i];
    RowIsBuilt(row);
    KeysOfName(row);
    SameFile(rows, i, FileName(row) + ".json");
    SameFile(rows, i, FileName(row) + "~dev.json");
  }
}
