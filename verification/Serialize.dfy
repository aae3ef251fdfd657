/**
 The Composer files of a package: version entries, the two p2 payloads, and the
 published times looked up through normalized keys.
 */
module Serialize {
  import opened Text
  import opened Version
  import opened SvnLog
  import opened PublishedTimes

  /** A time field holds the package's last commit as stored, or a published time. */
  datatype TimeField = Committed(text: string) | Published(stamp: Stamp)

  datatype PackageMeta = PackageMeta(
    description: string, homepage: string, author: string, requiresPhp: string, lastUpdated: string,
    trunkRevision: Option<int>, publishedTimes: Option<map<string, Stamp>>)

  datatype Entry = Entry(
    name: string, version: string, kind: string, sourceUrl: string, reference: string, requirePhp: Option<string>,
    supportSource: string, issues: string, changelog: string, uidOf: string, dist: Option<string>,
    description: Option<string>, homepage: Option<string>, author: Option<string>,
    time: Option<TimeField>, publishedTime: Option<TimeField>)

  /** The contents of one p2 file. */
  datatype Payload = Payload(composerName: string, entries: map<string, Entry>)

  function ComposerName(t: PackageType, slug: string): string {
    if t.Theme? then "wp-theme/" + slug else "wp-plugin/" + slug
  }

  function NonEmpty(s: string): Option<string> {
    if s == "" then None else Some(s)
  }

  function PublishedAt(meta: PackageMeta, version: string): Option<Stamp> {
    if meta.publishedTimes.Some? then Lookup(meta.publishedTimes.value, version) else None
  }

  /** The time field: the published time of a tagged version, else the last commit. */
  function TimeOf(meta: PackageMeta, version: string): Option<TimeField> {
    if version != TRUNK && PublishedAt(meta, version).Some? then Some(Published(PublishedAt(meta, version).value))
    else if meta.lastUpdated != "" then Some(Committed(meta.lastUpdated))
    else None
  }

  /** The published-time field: the trunk gets the last commit, if the package has published times at all. */
  function PublishedTimeOf(meta: PackageMeta, version: string): Option<TimeField> {
    if version == TRUNK then
      if meta.publishedTimes.Some? && meta.lastUpdated != "" then Some(Committed(meta.lastUpdated)) else None
    else if PublishedAt(meta, version).Some? then Some(Published(PublishedAt(meta, version).value))
    else None
  }

  function ReferenceOf(t: PackageType, version: string, meta: PackageMeta): string {
    if version == TRUNK then
      if meta.trunkRevision.Some? then "trunk@" + FormatInt(meta.trunkRevision.value) else "trunk"
    else if t.Theme? then version
    else "tags/" + version
  }

  /** One version entry. */
  function ComposerVersion(t: PackageType, slug: string, version: string, url: string, meta: PackageMeta): Entry {
    var name := ComposerName(t, slug);
    var kind := if t.Theme? then "theme" else "plugin";
    var svnBase := "https://" + kind + "s.svn.wordpress.org/" + slug;
    Entry(name, version, "wordpress-" + kind, svnBase + "/", ReferenceOf(t, version, meta),
          if meta.requiresPhp == "" then None else Some(">=" + meta.requiresPhp),
          svnBase, "https://wordpress.org/support/" + kind + "/" + slug,
          "https://wordpress.org/" + kind + "s/" + slug + "/#developers",
          name + "/" + version,
          if version != TRUNK && url != "" then Some(url) else None,
          NonEmpty(meta.description), NonEmpty(meta.homepage), NonEmpty(meta.author),
          TimeOf(meta, version), PublishedTimeOf(meta, version))
  }

  // ----- Published times by normalized key -----

  /** The stored times whose key normalizes to n. */
  ghost function TimesFor(times: map<string, Stamp>, n: string): set<Stamp> {
    set k | k in times && Normalize(k) == n && n != "" :: times[k]
  }

  /** The times by normalized key; where keys collide the latest time wins. */
  ghost predicate AreServedTimes(times: map<string, Stamp>, served: map<string, Stamp>) {
    forall n :: IsMaxOrNone(TimesFor(times, n), Lookup(served, n))
  }

  lemma TimesForGrow(times: map<string, Stamp>, k: string, t: Stamp, n: string)
    requires k !in times
    ensures TimesFor(times[k := t], n) ==
            if Normalize(k) == n && n != "" then TimesFor(times, n) + {t} else TimesFor(times, n)
  {
    var grown := times[k := t];
    assert k in grown && grown[k] == t;
    forall j | j in times ensures j in grown && grown[j] == times[j] {}
  }

  lemma ServedStep(times: map<string, Stamp>, k: string, t: Stamp, served: map<string, Stamp>, n: string)
    requires k !in times && n == Normalize(k) && AreServedTimes(times, served)
    ensures AreServedTimes(times[k := t],
                           if n != "" && (n !in served || t > served[n]) then served[n := t] else served)
  {
    var after := if n != "" && (n !in served || t > served[n]) then served[n := t] else served;
    forall m ensures IsMaxOrNone(TimesFor(times[k := t], m), Lookup(after, m)) {
      ServedStepAt(times, k, t, served, n, m);
    }
  }

  lemma ServedStepAt(times: map<string, Stamp>, k: string, t: Stamp, served: map<string, Stamp>, n: string, m: string)
    requires k !in times && n == Normalize(k) && IsMaxOrNone(TimesFor(times, m), Lookup(served, m))
    ensures var after := if n != "" && (n !in served || t > served[n]) then served[n := t] else served;
            IsMaxOrNone(TimesFor(times[k := t], m), Lookup(after, m))
  {
    TimesForGrow(times, k, t, m);
    MaxGrows(TimesFor(times, m), Lookup(served, m), t);
  }

  lemma MaxGrows(values: set<int>, max: Option<int>, t: int)
    requires IsMaxOrNone(values, max)
    ensures IsMaxOrNone(values + {t}, if max.None? || t > max.value then Some(t) else max)
  {}

  /** Decodes stored times; NULL and unreadable rows have none. */
  method ParsePublishedTimes(stored: StoredTimes) returns (served: Option<map<string, Stamp>>)
    ensures served.Some? <==> stored.Readable?
    ensures served.Some? ==> AreServedTimes(stored.times, served.value)
  {
    if !stored.Readable? { return None; }
    var times: map<string, Stamp> := map[];
    var todo := stored.times.Keys;
    while todo != {}
      invariant todo <= stored.times.Keys && AreServedTimes(stored.times - todo, times)
    {
      var k :| k in todo;
      var n := Normalize(k);
      WalkOn(stored.times, todo, k);
      ServedStep(stored.times - todo, k, stored.times[k], times, n);
      todo := todo - {k};
      if n != "" && (n !in times || stored.times[k] > times[n]) { times := times[n := stored.times[k]]; }
    }
    assert stored.times - todo == stored.times;
    served := Some(times);
  }

  // ----- Payloads -----

  const DEV := "~dev"

  predicate IsTagged(version: string) {
    !HasPrefix(version, "dev-")
  }

  /** The entries of the tagged versions of a normalized version map. */
  function TaggedEntries(
    t: PackageType, slug: string, versions: map<string, string>, meta: PackageMeta): map<string, Entry> {
    map v | v in versions && IsTagged(v) :: ComposerVersion(t, slug, v, versions[v], meta)
  }

  function DevEntries(t: PackageType, slug: string, meta: PackageMeta): map<string, Entry> {
    map[TRUNK := ComposerVersion(t, slug, TRUNK, "", meta)]
  }

  /** The entries of one file: the dev file and trunk-only plugins get the trunk. */
  function FileEntries(
    t: PackageType, slug: string, isDev: bool, versions: map<string, string>, meta: PackageMeta): map<string, Entry>
  {
    var tagged := TaggedEntries(t, slug, versions, meta);
    if isDev || (tagged == map[] && t.Plugin?) then DevEntries(t, slug, meta) else tagged
  }

  /** The payload of a file name with or without the ~dev ending, None if there is nothing to serialize. */
  ghost function Serialized(
    t: PackageType, name: string, versions: map<string, string>, meta: PackageMeta): Option<Payload> {
    var slug := TrimSuffix(name, DEV);
    var isDev := HasSuffix(name, DEV);
    if isDev && t.Theme? then None
    else
      var entries := FileEntries(t, slug, isDev, NormalForm(versions), meta);
      if entries == map[] then None else Some(Payload(ComposerName(t, slug), entries))
  }

  method BuildTaggedEntries(t: PackageType, slug: string, versions: map<string, string>, meta: PackageMeta)
    returns (entries: map<string, Entry>)
    ensures entries == TaggedEntries(t, slug, versions, meta)
  {
    entries := map[];
    var todo := versions.Keys;
    while todo != {}
      invariant todo <= versions.Keys
      invariant entries == map v | v in versions && v !in todo && IsTagged(v) ::
                             ComposerVersion(t, slug, v, versions[v], meta)
    {
      var v :| v in todo;
      todo := todo - {v};
      if !HasPrefix(v, "dev-") { entries := entries[v := ComposerVersion(t, slug, v, versions[v], meta)]; }
    }
  }

  method BuildEntries(t: PackageType, slug: string, isDev: bool, versions: map<string, string>, meta: PackageMeta)
    returns (entries: map<string, Entry>)
    ensures entries == FileEntries(t, slug, isDev, versions, meta)
  {
    if isDev { return DevEntries(t, slug, meta); }
    entries := BuildTaggedEntries(t, slug, versions, meta);
    if |entries| == 0 && t.Plugin? { entries := DevEntries(t, slug, meta); }
  }

  method SerializePackage(t: PackageType, name: string, versions: map<string, string>, meta: PackageMeta)
    returns (result: Option<Payload>)
    ensures result == Serialized(t, name, versions, meta)
  {
    var isDev := HasSuffix(name, DEV);
    var slug := TrimSuffix(name, DEV);
    if isDev && t.Theme? { return None; }
    var normalized := NormalizeVersions(versions);
    NormalFormIsUnique(versions, normalized, NormalForm(versions));
    var entries := BuildEntries(t, slug, isDev, normalized, meta);
    if |entries| == 0 { return None; }
    return Some(Payload(ComposerName(t, slug), entries));
  }

  // ----- The files of a package -----

  datatype PackageFile = PackageFile(key: string, payload: Payload)

  function MainKey(composerName: string): string { composerName + ".json" }

  function DevKey(composerName: string): string { composerName + "~dev.json" }

  /** The files uploaded for a package: a tagged file, and a dev file for plugins. */
  method PackageFiles(t: PackageType, name: string, versions: map<string, string>, meta: PackageMeta)
    returns (files: seq<PackageFile>)
    ensures AsMap(files) == UploadedFiles(t, name, versions, meta)
  {
    var composerName := ComposerName(t, name);
    var tagged := SerializePackage(t, name, versions, meta);
    var dev := SerializePackage(t, name + DEV, versions, meta);
    files := Listed(composerName, tagged, dev);
  }

  method Listed(composerName: string, tagged: Option<Payload>, dev: Option<Payload>) returns (files: seq<PackageFile>)
    ensures AsMap(files) == TwoFiles(composerName, tagged, dev)
  {
    files := [];
    if tagged.Some? {
      AddFile([], MainKey(composerName), tagged.value);
      files := files + [PackageFile(MainKey(composerName), tagged.value)];
    }
    if dev.Some? {
      AddFile(files, DevKey(composerName), dev.value);
      files := files + [PackageFile(DevKey(composerName), dev.value)];
    } else {
      assert AsMap(files) + map[] == AsMap(files);
    }
  }

  lemma AddFile(files: seq<PackageFile>, key: string, payload: Payload)
    ensures AsMap(files + [PackageFile(key, payload)]) == AsMap(files) + map[key := payload]
    ensures files == [] ==> AsMap(files + [PackageFile(key, payload)]) == map[key := payload]
  {
    AsMapAppend(files, PackageFile(key, payload));
  }

  lemma AsMapAppend(files: seq<PackageFile>, f: PackageFile)
    ensures AsMap(files + [f]) == AsMap(files)[f.key := f.payload]
  {
    assert (files + [f])[..|files|] == files;
  }

  function AsMap(files: seq<PackageFile>): map<string, Payload> {
    if files == [] then map[] else AsMap(files[..|files| - 1])[files[|files| - 1].key := files[|files| - 1].payload]
  }

  /** A file map with a main and a dev file, each if present. */
  function TwoFiles(composerName: string, main: Option<Payload>, dev: Option<Payload>): map<string, Payload> {
    (if main.Some? then map[MainKey(composerName) := main.value] else map[])
    + (if dev.Some? then map[DevKey(composerName) := dev.value] else map[])
  }

  ghost function UploadedFiles(
    t: PackageType, name: string, versions: map<string, string>, meta: PackageMeta): map<string, Payload> {
    TwoFiles(ComposerName(t, name), Serialized(t, name, versions, meta), Serialized(t, name + DEV, versions, meta))
  }

  /** The files a build writes for the same package: none for a theme without tagged versions. */
  ghost function WrittenFiles(
    t: PackageType, name: string, versions: map<string, string>, meta: PackageMeta): map<string, Payload> {
    var composerName := ComposerName(t, name);
    var tagged := TaggedEntries(t, name, NormalForm(versions), meta);
    var dev := DevEntries(t, name, meta);
    match t
    case Theme =>
      TwoFiles(composerName, if tagged == map[] then None else Some(Payload(composerName, tagged)), None)
    case Plugin =>
      TwoFiles(composerName, Some(Payload(composerName, if tagged == map[] then dev else tagged)),
               Some(Payload(composerName, dev)))
  }

  lemma DevSuffix(name: string)
    ensures HasSuffix(name + DEV, DEV) && TrimSuffix(name + DEV, DEV) == name
  {
    assert (name + DEV)[|name|..] == DEV;
    assert (name + DEV)[..|name|] == name;
  }

  lemma TwoFilesDiffer(
    composerName: string, a: Option<Payload>, b: Option<Payload>, c: Option<Payload>, d: Option<Payload>)
    requires TwoFiles(composerName, a, b) == TwoFiles(composerName, c, d)
    ensures a == c && b == d
  {
    assert |MainKey(composerName)| < |DevKey(composerName)|;
    var left, right := TwoFiles(composerName, a, b), TwoFiles(composerName, c, d);
    assert a.Some? <==> MainKey(composerName) in left;
    assert c.Some? <==> MainKey(composerName) in right;
    assert b.Some? <==> DevKey(composerName) in left;
    assert d.Some? <==> DevKey(composerName) in right;
  }

  /**
   The two serializers write the same files for a package exactly when its name does
   not end in "~dev", or it is a theme without tagged versions and has no files at all.
   */
  lemma SerializersAgree(t: PackageType, name: string, versions: map<string, string>, meta: PackageMeta)
    ensures UploadedFiles(t, name, versions, meta) == WrittenFiles(t, name, versions, meta)
       <==> !HasSuffix(name, DEV) || (t.Theme? && forall v :: v in NormalForm(versions) ==> !IsTagged(v))
  {
    if !HasSuffix(name, DEV) {
      PlainNamesAgree(t, name, versions, meta);
    } else if t.Plugin? {
      NamesDiffer(t, name, versions, meta);
    } else {
      DevThemesAgreeIff(t, name, versions, meta);
    }
  }

  /** Nothing is uploaded for a theme whose name ends in "~dev". */
  lemma DevThemesAgreeIff(t: PackageType, name: string, versions: map<string, string>, meta: PackageMeta)
    requires t.Theme? && HasSuffix(name, DEV)
    ensures UploadedFiles(t, name, versions, meta) == WrittenFiles(t, name, versions, meta)
       <==> forall v :: v in NormalForm(versions) ==> !IsTagged(v)
  {
    DevSuffix(name);
    assert UploadedFiles(t, name, versions, meta) == map[];
    var tagged := TaggedEntries(t, name, NormalForm(versions), meta);
    NoTaggedEntries(t, name, NormalForm(versions), meta);
    if tagged != map[] {
      assert MainKey(ComposerName(t, name)) in WrittenFiles(t, name, versions, meta);
    }
  }

  lemma NoTaggedEntries(t: PackageType, slug: string, versions: map<string, string>, meta: PackageMeta)
    ensures TaggedEntries(t, slug, versions, meta) == map[] <==> forall v :: v in versions ==> !IsTagged(v)
  {
    if v :| v in versions && IsTagged(v) {
      assert v in TaggedEntries(t, slug, versions, meta);
    }
  }

  /** The payload of the main file: tagged versions, or the trunk of a trunk-only plugin. */
  ghost function MainPayload(
    t: PackageType, name: string, versions: map<string, string>, meta: PackageMeta): Option<Payload> {
    var tagged := TaggedEntries(t, name, NormalForm(versions), meta);
    if tagged != map[] then Some(Payload(ComposerName(t, name), tagged))
    else if t.Theme? then None
    else Some(Payload(ComposerName(t, name), DevEntries(t, name, meta)))
  }

  function DevPayload(t: PackageType, name: string, meta: PackageMeta): Option<Payload> {
    if t.Theme? then None else Some(Payload(ComposerName(t, name), DevEntries(t, name, meta)))
  }

  lemma WrittenShape(t: PackageType, name: string, versions: map<string, string>, meta: PackageMeta)
    ensures WrittenFiles(t, name, versions, meta) ==
            TwoFiles(ComposerName(t, name), MainPayload(t, name, versions, meta), DevPayload(t, name, meta))
  {}

  lemma SerializedDev(t: PackageType, name: string, versions: map<string, string>, meta: PackageMeta)
    ensures Serialized(t, name + DEV, versions, meta) == DevPayload(t, name, meta)
  {
    DevSuffix(name);
    assert TRUNK in DevEntries(t, name, meta);
  }

  lemma SerializedPlain(t: PackageType, name: string, versions: map<string, string>, meta: PackageMeta)
    requires !HasSuffix(name, DEV)
    ensures Serialized(t, name, versions, meta) == MainPayload(t, name, versions, meta)
  {
    assert TRUNK in DevEntries(t, name, meta);
  }

  lemma PlainNamesAgree(t: PackageType, name: string, versions: map<string, string>, meta: PackageMeta)
    requires !HasSuffix(name, DEV)
    ensures UploadedFiles(t, name, versions, meta) == WrittenFiles(t, name, versions, meta)
  {
    SerializedDev(t, name, versions, meta);
    SerializedPlain(t, name, versions, meta);
    WrittenShape(t, name, versions, meta);
  }

  /** A package whose name ends in "~dev" is serialized under the shorter name. */
  lemma NamesDiffer(t: PackageType, name: string, versions: map<string, string>, meta: PackageMeta)
    requires t.Plugin? && HasSuffix(name, DEV)
    ensures UploadedFiles(t, name, versions, meta) != WrittenFiles(t, name, versions, meta)
  {
    var composerName := ComposerName(t, name);
    WrittenShape(t, name, versions, meta);
    assert |ComposerName(t, TrimSuffix(name, DEV))| < |composerName|;
    if UploadedFiles(t, name, versions, meta) == WrittenFiles(t, name, versions, meta) {
      TwoFilesDiffer(composerName, Serialized(t, name, versions, meta), Serialized(t, name + DEV, versions, meta),
                     MainPayload(t, name, versions, meta), DevPayload(t, name, meta));
    }
  }
}
