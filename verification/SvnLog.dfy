/**
 The SVN changelog: what a REPORT answer holds, which slugs its commits touch, and
 which tags they create or change.
 */
module SvnLog {
  import opened Text

  /** Instants count nanoseconds from Go's zero time, which stands for a missing date. */
  type Instant = int

  const ZERO: Instant := 0

  datatype PackageType = Plugin | Theme

  /** A changed path with the two attributes of its log line that matter. */
  datatype LoggedPath = LoggedPath(path: string, kind: string, propMods: string)

  /** One log item of the response; date is None if it does not parse. */
  datatype LogItem = LogItem(
    revision: int, date: Option<Instant>,
    added: seq<LoggedPath>, modified: seq<LoggedPath>, deleted: seq<LoggedPath>, replaced: seq<LoggedPath>)

  datatype Commit = Commit(
    revision: int, date: Instant,
    added: seq<string>, modified: seq<string>, deleted: seq<string>, replaced: seq<string>,
    plainFilePaths: set<string>)

  datatype Log = Log(
    slugRevisions: map<string, int>, maxRev: int, minRev: int, minDate: Instant, commits: seq<Commit>)

  // ----- Paths -----

  predicate IsSlash(c: char) { c == '/' }

  /** The package whose every tag lies below p: p is /<slug>, or /<slug>/tags for plugins. */
  function TagsAncestor(t: PackageType, p: string): Option<string> {
    var parts := Split(Trim(p, IsSlash), '/');
    if parts[0] == "" then None
    else if |parts| == 1 then Some(parts[0])
    else if t.Plugin? && |parts| == 2 && parts[1] == "tags" then Some(parts[0])
    else None
  }

  /** A path inside a tag: the package, the tag as wp.org names it, and the rest of the path. */
  datatype TagPath = TagPath(slug: string, tag: string, rest: string)

  /** The listed name of a tag: a zero goes before a leading dot. */
  function ApiTag(tag: string): string {
    if HasPrefix(tag, ".") then "0" + tag else tag
  }

  function SplitTagPath(t: PackageType, p: string): Option<TagPath> {
    var parts := SplitN(Trim(p, IsSlash), '/', 4);
    match t
    case Theme =>
      if |parts| < 2 || parts[0] == "" || parts[1] == "" then None
      else Some(TagPath(parts[0], parts[1], Join(parts[2..], '/')))
    case Plugin =>
      if |parts| < 3 || parts[0] == "" || parts[1] != "tags" || parts[2] == "" then None
      else Some(TagPath(parts[0], ApiTag(parts[2]), if |parts| == 4 then parts[3] else ""))
  }

  predicate IsReadme(rest: string) {
    ToLower(rest) == "readme.txt" || ToLower(rest) == "readme.md"
  }

  /** The top-level directory of a path, "" if it has none. */
  function SlugFromPath(path: string): string {
    var p := TrimPrefix(path, '/');
    var i := IndexOf(p, '/');
    if 0 < i < |p| then p[..i]
    else if p != "" && p != ".." then p
    else ""
  }

  /** No path is both inside a tag and above all tags. */
  lemma TagPathIsNoAncestor(t: PackageType, p: string)
    ensures SplitTagPath(t, p).None? || TagsAncestor(t, p).None?
  {
    SplitNAgrees(Trim(p, IsSlash), '/', 4);
  }

  /** A package's directory is above all its tags. */
  lemma RootIsAncestor(t: PackageType)
    ensures TagsAncestor(t, "/a") == Some("a") && SplitTagPath(t, "/a").None?
  {
    assert TrimLeft("/a", IsSlash) == "a" by { assert "/a"[1..] == "a"; }
    assert Trim("/a", IsSlash) == "a";
    assert Split("a", '/') == ["a"];
    TagPathIsNoAncestor(t, "/a");
  }

  // ----- Commits -----

  function PathsOf(paths: seq<LoggedPath>): (out: seq<string>)
    ensures |out| == |paths| && forall i :: 0 <= i < |paths| ==> out[i] == paths[i].path
  {
    seq(|paths|, i requires 0 <= i < |paths| => paths[i].path)
  }

  predicate IsPlainFile(p: LoggedPath) {
    p.kind == "file" && p.propMods == "false"
  }

  function PlainFiles(paths: seq<LoggedPath>): set<string> {
    set p | p in paths && IsPlainFile(p) :: p.path
  }

  function CommitOf(item: LogItem): Commit {
    Commit(item.revision, if item.date.Some? then item.date.value else ZERO,
           PathsOf(item.added), PathsOf(item.modified), PathsOf(item.deleted), PathsOf(item.replaced),
           PlainFiles(item.added) + PlainFiles(item.modified) + PlainFiles(item.deleted) + PlainFiles(item.replaced))
  }

  function AllPaths(c: Commit): seq<string> {
    c.added + c.modified + c.deleted + c.replaced
  }

  /** Some path of the commit lies in the package's top-level directory. */
  predicate TouchesSlug(c: Commit, slug: string) {
    slug != "" && exists p :: p in AllPaths(c) && SlugFromPath(p) == slug
  }

  // ----- Greatest and least elements -----

  /** The greatest of the values, None if there is none. */
  ghost predicate IsMaxOrNone(values: set<int>, max: Option<int>) {
    match max
    case None => values == {}
    case Some(m) => m in values && forall v :: v in values ==> v <= m
  }

  /** The least of the values, None if there is none. */
  ghost predicate IsMinOrNone(values: set<int>, min: Option<int>) {
    match min
    case None => values == {}
    case Some(m) => m in values && forall v :: v in values ==> m <= v
  }

  function Greater(max: Option<int>, v: int): int {
    if max.Some? && max.value > v then max.value else v
  }

  lemma MaxIsUnique(values: set<int>, a: Option<int>, b: Option<int>)
    requires IsMaxOrNone(values, a) && IsMaxOrNone(values, b)
    ensures a == b
  {}

  /** 0 stands for none where the values are positive. */
  function Positive(v: int): Option<int> {
    if v == 0 then None else Some(v)
  }

  /** A missing map entry reads as Go's zero time. */
  function OrZero(t: Option<Instant>): Instant {
    if t.Some? then t.value else ZERO
  }

  // ----- Parsing the response -----

  ghost function Revisions(commits: seq<Commit>): set<int> {
    set c | c in commits :: c.revision
  }

  ghost function Dates(commits: seq<Commit>): set<int> {
    set c | c in commits && c.date != ZERO :: c.date
  }

  ghost function SlugTouches(commits: seq<Commit>, slug: string): set<int> {
    set c | c in commits && TouchesSlug(c, slug) :: c.revision
  }

  /** The log of the given commits: the bounds of their revisions and dates, and the highest revision per slug. */
  ghost predicate IsLogOf(commits: seq<Commit>, log: Log) {
    && log.commits == commits
    && IsMaxOrNone(Revisions(commits), Positive(log.maxRev))
    && IsMinOrNone(Revisions(commits), Positive(log.minRev))
    && IsMinOrNone(Dates(commits), Positive(log.minDate))
    && AreSlugRevisions(commits, log.slugRevisions)
  }

  /** Revisions count from 1, and a date that parses is later than Go's zero time. */
  predicate IsLogItem(item: LogItem) {
    item.revision > 0 && (item.date.Some? ==> item.date.value > ZERO)
  }

  function CommitsOf(items: seq<LogItem>): (commits: seq<Commit>)
    ensures |commits| == |items| && forall i :: 0 <= i < |items| ==> commits[i] == CommitOf(items[i])
  {
    seq(|items|, i requires 0 <= i < |items| => CommitOf(items[i]))
  }

  ghost function SlugsIn(paths: seq<string>): set<string> {
    set p | p in paths && SlugFromPath(p) != "" :: SlugFromPath(p)
  }

  /** rev recorded for each of the slugs that has no higher revision. */
  ghost predicate AreNoted(before: map<string, int>, after: map<string, int>, slugs: set<string>, rev: int) {
    && after.Keys == before.Keys + slugs
    && forall slug :: slug in after ==>
         after[slug] == if slug in slugs then Greater(Lookup(before, slug), rev) else before[slug]
  }

  lemma NotedMax(
    values: set<int>, before: map<string, int>, after: map<string, int>, slugs: set<string>, v: int, slug: string)
    requires IsMaxOrNone(values, Lookup(before, slug)) && AreNoted(before, after, slugs, v)
    ensures IsMaxOrNone(values + if slug in slugs then {v} else {}, Lookup(after, slug))
  {
    assert values + {} == values;
  }

  lemma SlugsInGrow(paths: seq<string>, p: string)
    ensures SlugsIn(paths + [p]) == SlugsIn(paths) + if SlugFromPath(p) != "" then {SlugFromPath(p)} else {}
  {
    assert forall q :: q in paths + [p] <==> q in paths || q == p;
  }

  lemma NotedTwice(a: map<string, int>, b: map<string, int>, c: map<string, int>, s: set<string>, t: set<string>, v: int)
    requires AreNoted(a, b, s, v) && AreNoted(b, c, t, v)
    ensures AreNoted(a, c, s + t, v)
  {}

  /** Raises one entry to v, if there is a slug. */
  method Note(m: map<string, int>, slug: Option<string>, v: int) returns (result: map<string, int>)
    ensures AreNoted(m, result, if slug.Some? then {slug.value} else {}, v)
  {
    result := m;
    if slug.Some? && (slug.value !in m || v > m[slug.value]) {
      result := m[slug.value := v];
    }
  }

  /** Records rev for every slug of the paths that has no higher revision yet. */
  method NoteSlugs(slugRevisions: map<string, int>, paths: seq<string>, rev: int) returns (result: map<string, int>)
    ensures AreNoted(slugRevisions, result, SlugsIn(paths), rev)
  {
    result := slugRevisions;
    for i := 0 to |paths|
      invariant AreNoted(slugRevisions, result, SlugsIn(paths[..i]), rev)
    {
      TakeGrow(paths, i);
      SlugsInGrow(paths[..i], paths[i]);
      var before, slug := result, SlugFromPath(paths[i]);
      result := Note(result, if slug == "" then None else Some(slug), rev);
      NotedTwice(slugRevisions, before, result, SlugsIn(paths[..i]), if slug == "" then {} else {slug}, rev);
    }
    TakeAll(paths);
  }

  lemma SlugTouchesGrow(commits: seq<Commit>, c: Commit, slug: string)
    ensures SlugTouches(commits + [c], slug) ==
            SlugTouches(commits, slug) + if slug in SlugsIn(AllPaths(c)) then {c.revision} else {}
  {
    assert TouchesSlug(c, slug) <==> slug in SlugsIn(AllPaths(c));
    assert forall d :: d in commits + [c] <==> d in commits || d == c;
  }

  /** The running bounds: 0 stands for none. */
  ghost predicate AreBounds(commits: seq<Commit>, maxRev: int, minRev: int, minDate: Instant) {
    && maxRev >= 0 && minRev >= 0 && minDate >= ZERO
    && IsMaxOrNone(Revisions(commits), Positive(maxRev))
    && IsMinOrNone(Revisions(commits), Positive(minRev))
    && IsMinOrNone(Dates(commits), Positive(minDate))
  }

  lemma BoundsStep(commits: seq<Commit>, c: Commit, maxRev: int, minRev: int, minDate: Instant)
    requires AreBounds(commits, maxRev, minRev, minDate) && c.revision > 0 && c.date >= ZERO
    ensures AreBounds(commits + [c],
                      if c.revision > maxRev then c.revision else maxRev,
                      if minRev == 0 || c.revision < minRev then c.revision else minRev,
                      if c.date != ZERO && (minDate == ZERO || c.date < minDate) then c.date else minDate)
  {
    assert forall d :: d in commits + [c] <==> d in commits || d == c;
    assert Revisions(commits + [c]) == Revisions(commits) + {c.revision};
    assert Dates(commits + [c]) == Dates(commits) + if c.date == ZERO then {} else {c.date};
  }

  ghost predicate AreSlugRevisions(commits: seq<Commit>, slugRevisions: map<string, int>) {
    forall slug :: IsMaxOrNone(SlugTouches(commits, slug), Lookup(slugRevisions, slug))
  }

  lemma SlugsStep(commits: seq<Commit>, c: Commit, before: map<string, int>, after: map<string, int>)
    requires AreSlugRevisions(commits, before)
    requires AreNoted(before, after, SlugsIn(AllPaths(c)), c.revision)
    ensures AreSlugRevisions(commits + [c], after)
  {
    forall slug ensures IsMaxOrNone(SlugTouches(commits + [c], slug), Lookup(after, slug)) {
      SlugTouchesGrow(commits, c, slug);
      NotedMax(SlugTouches(commits, slug), before, after, SlugsIn(AllPaths(c)), c.revision, slug);
    }
  }

  ghost predicate IsRunningLog(log: Log) {
    && AreBounds(log.commits, log.maxRev, log.minRev, log.minDate)
    && AreSlugRevisions(log.commits, log.slugRevisions)
  }

  /** One turn of the loop over the items. */
  method AddItem(log: Log, item: LogItem) returns (result: Log)
    requires IsRunningLog(log) && IsLogItem(item)
    ensures IsRunningLog(result) && result.commits == log.commits + [CommitOf(item)]
  {
    var commit := CommitOf(item);
    BoundsStep(log.commits, commit, log.maxRev, log.minRev, log.minDate);
    var maxRev, minRev, minDate := log.maxRev, log.minRev, log.minDate;
    if item.revision > maxRev { maxRev := item.revision; }
    if minRev == 0 || item.revision < minRev { minRev := item.revision; }
    if item.date.Some? && (minDate == ZERO || commit.date < minDate) { minDate := commit.date; }
    var slugRevisions := NoteSlugs(log.slugRevisions, AllPaths(commit), item.revision);
    SlugsStep(log.commits, commit, log.slugRevisions, slugRevisions);
    result := Log(slugRevisions, maxRev, minRev, minDate, log.commits + [commit]);
  }

  /** Builds the log of a response whose items are given. */
  method ParseSvnLog(items: seq<LogItem>) returns (log: Log)
    requires forall item :: item in items ==> IsLogItem(item)
    ensures IsLogOf(CommitsOf(items), log)
  {
    log := Log(map[], 0, 0, ZERO, []);
    ghost var all := CommitsOf(items);
    for i := 0 to |items|
      invariant log.commits == all[..i]
      invariant IsRunningLog(log)
    {
      TakeGrow(all, i);
      log := AddItem(log, items[i]);
    }
  }

  // ----- Tag changes -----

  /** The dates of changed tags by package and tag, and of packages with a change to all their tags at once. */
  datatype TagChangeSet = TagChangeSet(tags: map<string, map<string, Instant>>, all: map<string, Instant>)

  /** p changes the tag; a plain readme file does not count unless it was replaced. */
  predicate ChangesTag(t: PackageType, c: Commit, p: string, readmeExempt: bool, slug: string, tag: string) {
    Hits(SplitTagPath(t, p), readmeExempt && p in c.plainFilePaths, slug, tag)
  }

  /** The path is in the tag, and is no readme if readmes are exempt. */
  predicate Hits(tp: Option<TagPath>, exempt: bool, slug: string, tag: string) {
    tp.Some? && tp.value.slug == slug && tp.value.tag == tag && !(exempt && IsReadme(tp.value.rest))
  }

  function LoosePaths(c: Commit): seq<string> {
    c.added + c.modified + c.deleted
  }

  /** The commit creates or changes the tag. */
  predicate TouchesTag(t: PackageType, c: Commit, slug: string, tag: string) {
    || (exists p :: p in LoosePaths(c) && ChangesTag(t, c, p, true, slug, tag))
    || (exists p :: p in c.replaced && ChangesTag(t, c, p, false, slug, tag))
  }

  /** The commit adds or replaces the directory that holds every tag of the package. */
  predicate TouchesAll(t: PackageType, c: Commit, slug: string) {
    exists p :: p in c.added + c.replaced && TagsAncestor(t, p) == Some(slug)
  }

  ghost function TagDates(t: PackageType, commits: seq<Commit>, slug: string, tag: string): set<Instant> {
    set c | c in commits && TouchesTag(t, c, slug, tag) :: c.date
  }

  ghost function AllDates(t: PackageType, commits: seq<Commit>, slug: string): set<Instant> {
    set c | c in commits && TouchesAll(t, c, slug) :: c.date
  }

  function DateOf(tags: map<string, map<string, Instant>>, slug: string, tag: string): Option<Instant> {
    if slug in tags then Lookup(tags[slug], tag) else None
  }

  /** The tag changes of a log: the latest date of each tag and of each whole tags directory. */
  ghost predicate AreTagChanges(t: PackageType, commits: seq<Commit>, changes: TagChangeSet) {
    && (forall slug, tag :: IsMaxOrNone(TagDates(t, commits, slug, tag), DateOf(changes.tags, slug, tag)))
    && (forall slug :: IsMaxOrNone(AllDates(t, commits, slug), Lookup(changes.all, slug)))
    && forall slug :: slug in changes.tags ==> changes.tags[slug] != map[]
  }

  /** Keys of the map of touched tags: package and tag. */
  type TagKey = (string, string)

  predicate IsMarked(touched: map<TagKey, bool>, slug: string, tag: string) {
    (slug, tag) in touched && touched[(slug, tag)]
  }

  ghost predicate ChangesTagIn(t: PackageType, c: Commit, paths: seq<string>, exempt: bool, slug: string, tag: string) {
    exists p :: p in paths && ChangesTag(t, c, p, exempt, slug, tag)
  }

  lemma ChangesTagInGrow(
    t: PackageType, c: Commit, paths: seq<string>, p: string, exempt: bool, slug: string, tag: string)
    ensures ChangesTagIn(t, c, paths + [p], exempt, slug, tag) <==>
            ChangesTagIn(t, c, paths, exempt, slug, tag) || ChangesTag(t, c, p, exempt, slug, tag)
  {
    assert p in paths + [p];
    assert forall q :: q in paths + [p] <==> q in paths || q == p;
  }

  /** Marks the tag of one path, unless only an exempt readme was seen in it. */
  method Mark(tp: Option<TagPath>, exempt: bool, touched: map<TagKey, bool>) returns (result: map<TagKey, bool>)
    ensures forall slug, tag :: IsMarked(result, slug, tag) <==>
                                IsMarked(touched, slug, tag) || Hits(tp, exempt, slug, tag)
  {
    result := touched;
    if tp.Some? {
      var key := (tp.value.slug, tp.value.tag);
      if exempt && IsReadme(tp.value.rest) {
        if key !in touched { result := touched[key := false]; }
      } else {
        result := touched[key := true];
      }
    }
  }

  method MarkAll(t: PackageType, c: Commit, paths: seq<string>, exempt: bool, touched: map<TagKey, bool>)
    returns (result: map<TagKey, bool>)
    ensures forall slug, tag :: IsMarked(result, slug, tag) <==>
                                IsMarked(touched, slug, tag) || ChangesTagIn(t, c, paths, exempt, slug, tag)
  {
    result := touched;
    for i := 0 to |paths|
      invariant forall slug, tag :: IsMarked(result, slug, tag) <==>
                                    IsMarked(touched, slug, tag) || ChangesTagIn(t, c, paths[..i], exempt, slug, tag)
    {
      TakeGrow(paths, i);
      forall slug, tag
        ensures ChangesTagIn(t, c, paths[..i + 1], exempt, slug, tag) <==>
                ChangesTagIn(t, c, paths[..i], exempt, slug, tag) || ChangesTag(t, c, paths[i], exempt, slug, tag)
      {
        ChangesTagInGrow(t, c, paths[..i], paths[i], exempt, slug, tag);
      }
      result := Mark(SplitTagPath(t, paths[i]), exempt && paths[i] in c.plainFilePaths, result);
    }
    TakeAll(paths);
  }

  /** Raises the date of every marked tag to date; the walk order is arbitrary. */
  method RaiseDates(tags: map<string, map<string, Instant>>, touched: map<TagKey, bool>, date: Instant)
    returns (result: map<string, map<string, Instant>>)
    requires forall slug :: slug in tags ==> tags[slug] != map[]
    ensures forall slug :: slug in result ==> result[slug] != map[]
    ensures forall slug, tag :: DateOf(result, slug, tag) == if IsMarked(touched, slug, tag)
                                                             then Some(Greater(DateOf(tags, slug, tag), date))
                                                             else DateOf(tags, slug, tag)
  {
    result := tags;
    var todo := touched.Keys;
    while todo != {}
      invariant todo <= touched.Keys
      invariant forall slug :: slug in result ==> result[slug] != map[]
      invariant forall slug, tag :: DateOf(result, slug, tag) ==
                                    if (slug, tag) !in todo && IsMarked(touched, slug, tag)
                                    then Some(Greater(DateOf(tags, slug, tag), date))
                                    else DateOf(tags, slug, tag)
    {
      var key :| key in todo;
      todo := todo - {key};
      if touched[key] {
        var slug, tag := key.0, key.1;
        var ofPackage := if slug in result then result[slug] else map[];
        if tag !in ofPackage || date > ofPackage[tag] {
          result := result[slug := ofPackage[tag := date]];
        }
      }
    }
  }

  lemma TagDatesGrow(t: PackageType, commits: seq<Commit>, c: Commit, slug: string, tag: string)
    ensures TagDates(t, commits + [c], slug, tag) ==
            TagDates(t, commits, slug, tag) + if TouchesTag(t, c, slug, tag) then {c.date} else {}
  {
    assert forall d :: d in commits + [c] <==> d in commits || d == c;
  }

  lemma AllDatesGrow(t: PackageType, commits: seq<Commit>, c: Commit, slug: string)
    ensures AllDates(t, commits + [c], slug) ==
            AllDates(t, commits, slug) + if TouchesAll(t, c, slug) then {c.date} else {}
  {
    assert forall d :: d in commits + [c] <==> d in commits || d == c;
  }

  /** The packages whose tags directory the commit adds or replaces. */
  ghost function Ancestors(t: PackageType, paths: seq<string>): set<string> {
    set p | p in paths && TagsAncestor(t, p).Some? :: TagsAncestor(t, p).value
  }

  lemma AncestorsGrow(t: PackageType, paths: seq<string>, p: string)
    ensures Ancestors(t, paths + [p]) ==
            Ancestors(t, paths) + if TagsAncestor(t, p).Some? then {TagsAncestor(t, p).value} else {}
  {
    assert forall q :: q in paths + [p] <==> q in paths || q == p;
  }

  method RaiseAll(t: PackageType, all: map<string, Instant>, paths: seq<string>, date: Instant)
    returns (result: map<string, Instant>)
    ensures AreNoted(all, result, Ancestors(t, paths), date)
  {
    result := all;
    for i := 0 to |paths|
      invariant AreNoted(all, result, Ancestors(t, paths[..i]), date)
    {
      TakeGrow(paths, i);
      AncestorsGrow(t, paths[..i], paths[i]);
      var before, slug := result, TagsAncestor(t, paths[i]);
      result := Note(result, slug, date);
      NotedTwice(all, before, result, Ancestors(t, paths[..i]), if slug.Some? then {slug.value} else {}, date);
    }
    TakeAll(paths);
  }

  lemma GreaterIsMax(dates: set<Instant>, max: Option<Instant>, date: Instant)
    requires IsMaxOrNone(dates, max)
    ensures IsMaxOrNone(dates + {date}, Some(Greater(max, date)))
  {}

  lemma TagDatesStep(
    t: PackageType, commits: seq<Commit>, c: Commit,
    before: map<string, map<string, Instant>>, after: map<string, map<string, Instant>>, slug: string, tag: string)
    requires IsMaxOrNone(TagDates(t, commits, slug, tag), DateOf(before, slug, tag))
    requires DateOf(after, slug, tag) == if TouchesTag(t, c, slug, tag) then Some(Greater(DateOf(before, slug, tag), c.date))
                                         else DateOf(before, slug, tag)
    ensures IsMaxOrNone(TagDates(t, commits + [c], slug, tag), DateOf(after, slug, tag))
  {
    TagDatesGrow(t, commits, c, slug, tag);
    GreaterIsMax(TagDates(t, commits, slug, tag), DateOf(before, slug, tag), c.date);
  }

  lemma AncestorsTouch(t: PackageType, c: Commit, slug: string)
    ensures TouchesAll(t, c, slug) <==> slug in Ancestors(t, c.added + c.replaced)
  {}

  lemma AllDatesStep(
    t: PackageType, commits: seq<Commit>, c: Commit, before: map<string, Instant>, after: map<string, Instant>, slug: string)
    requires IsMaxOrNone(AllDates(t, commits, slug), Lookup(before, slug))
    requires AreNoted(before, after, Ancestors(t, c.added + c.replaced), c.date)
    ensures IsMaxOrNone(AllDates(t, commits + [c], slug), Lookup(after, slug))
  {
    AllDatesGrow(t, commits, c, slug);
    AncestorsTouch(t, c, slug);
    NotedMax(AllDates(t, commits, slug), before, after, Ancestors(t, c.added + c.replaced), c.date, slug);
  }

  /** One turn of the loop over the commits. */
  method AddCommit(t: PackageType, ghost commits: seq<Commit>, c: Commit, changes: TagChangeSet)
    returns (result: TagChangeSet)
    requires AreTagChanges(t, commits, changes)
    ensures AreTagChanges(t, commits + [c], result)
  {
    var all := RaiseAll(t, changes.all, c.added + c.replaced, c.date);
    var touched := MarkAll(t, c, LoosePaths(c), true, map[]);
    touched := MarkAll(t, c, c.replaced, false, touched);
    var tags := RaiseDates(changes.tags, touched, c.date);
    result := TagChangeSet(tags, all);
    forall slug, tag ensures IsMaxOrNone(TagDates(t, commits + [c], slug, tag), DateOf(tags, slug, tag)) {
      assert IsMarked(touched, slug, tag) <==> TouchesTag(t, c, slug, tag);
      TagDatesStep(t, commits, c, changes.tags, tags, slug, tag);
    }
    forall slug ensures IsMaxOrNone(AllDates(t, commits + [c], slug), Lookup(all, slug)) {
      AllDatesStep(t, commits, c, changes.all, all, slug);
    }
  }

  /** For each tag and each tags directory, when a commit of the log last gave it new contents. */
  method TagChanges(t: PackageType, commits: seq<Commit>) returns (changes: TagChangeSet)
    ensures AreTagChanges(t, commits, changes)
  {
    changes := TagChangeSet(map[], map[]);
    for i := 0 to |commits|
      invariant AreTagChanges(t, commits[..i], changes)
    {
      TakeGrow(commits, i);
      changes := AddCommit(t, commits[..i], commits[i], changes);
    }
    TakeAll(commits);
  }

  /** Two commits that list the same paths, in whatever order and however often. */
  ghost predicate SameChanges(c: Commit, d: Commit) {
    && c.date == d.date && c.plainFilePaths == d.plainFilePaths
    && (forall p :: p in LoosePaths(c) <==> p in LoosePaths(d))
    && (forall p :: p in c.added <==> p in d.added)
    && (forall p :: p in c.replaced <==> p in d.replaced)
  }

  /** The logs agree commit by commit, up to the order of the paths within each list. */
  ghost predicate SamePathSets(a: seq<Commit>, b: seq<Commit>) {
    |a| == |b| && forall i :: 0 <= i < |a| ==> SameChanges(a[i], b[i])
  }

  lemma SamePathSetsDates(t: PackageType, a: seq<Commit>, b: seq<Commit>, slug: string, tag: string)
    requires SamePathSets(a, b)
    ensures TagDates(t, a, slug, tag) <= TagDates(t, b, slug, tag)
    ensures AllDates(t, a, slug) <= AllDates(t, b, slug)
  {
    forall c | c in a && TouchesTag(t, c, slug, tag) ensures c.date in TagDates(t, b, slug, tag) {
      var i :| 0 <= i < |a| && a[i] == c;
      assert SameChanges(c, b[i]) && TouchesTag(t, b[i], slug, tag);
    }
    forall c | c in a && TouchesAll(t, c, slug) ensures c.date in AllDates(t, b, slug) {
      var i :| 0 <= i < |a| && a[i] == c;
      assert SameChanges(c, b[i]) && TouchesAll(t, b[i], slug);
    }
  }

  /** Tag changes are determined by the dates at which each tag and each tags directory changed. */
  lemma SameDatesSameChanges(t: PackageType, a: seq<Commit>, b: seq<Commit>, x: TagChangeSet, y: TagChangeSet)
    requires AreTagChanges(t, a, x) && AreTagChanges(t, b, y)
    requires forall slug, tag :: TagDates(t, a, slug, tag) == TagDates(t, b, slug, tag)
    requires forall slug :: AllDates(t, a, slug) == AllDates(t, b, slug)
    ensures x == y
  {
    forall slug, tag ensures DateOf(x.tags, slug, tag) == DateOf(y.tags, slug, tag) {
      assert IsMaxOrNone(TagDates(t, a, slug, tag), DateOf(x.tags, slug, tag));
      MaxIsUnique(TagDates(t, b, slug, tag), DateOf(x.tags, slug, tag), DateOf(y.tags, slug, tag));
    }
    forall slug ensures Lookup(x.all, slug) == Lookup(y.all, slug) {
      assert IsMaxOrNone(AllDates(t, a, slug), Lookup(x.all, slug));
      MaxIsUnique(AllDates(t, b, slug), Lookup(x.all, slug), Lookup(y.all, slug));
    }
    LookupsDetermine(x.all, y.all);
    NoEmptyPackages(x.tags, y.tags);
    NoEmptyPackages(y.tags, x.tags);
    forall slug | slug in x.tags ensures x.tags[slug] == y.tags[slug] {
      forall tag ensures Lookup(x.tags[slug], tag) == Lookup(y.tags[slug], tag) {
        assert DateOf(x.tags, slug, tag) == DateOf(y.tags, slug, tag);
      }
      LookupsDetermine(x.tags[slug], y.tags[slug]);
    }
    assert x.tags == y.tags;
  }

  lemma LookupsDetermine(a: map<string, int>, b: map<string, int>)
    requires forall k :: Lookup(a, k) == Lookup(b, k)
    ensures a == b
  {
    forall k
      ensures k in a <==> k in b
      ensures k in a ==> a[k] == b[k]
    {
      assert Lookup(a, k) == Lookup(b, k);
    }
  }

  lemma NoEmptyPackages(a: map<string, map<string, Instant>>, b: map<string, map<string, Instant>>)
    requires forall slug, tag :: DateOf(a, slug, tag) == DateOf(b, slug, tag)
    requires forall slug :: slug in a ==> a[slug] != map[]
    ensures a.Keys <= b.Keys
  {
    forall slug | slug in a ensures slug in b {
      var tag :| tag in a[slug];
      assert DateOf(a, slug, tag) == DateOf(b, slug, tag);
    }
  }

  /** Reordering the paths within the lists of a commit does not change the tag changes. */
  lemma TagChangesIgnorePathOrder(t: PackageType, a: seq<Commit>, b: seq<Commit>, x: TagChangeSet, y: TagChangeSet)
    requires SamePathSets(a, b)
    requires AreTagChanges(t, a, x) && AreTagChanges(t, b, y)
    ensures x == y
  {
    forall slug, tag
      ensures TagDates(t, a, slug, tag) == TagDates(t, b, slug, tag)
      ensures AllDates(t, a, slug) == AllDates(t, b, slug)
    {
      SamePathSetsDates(t, a, b, slug, tag);
      SamePathSetsDates(t, b, a, slug, tag);
    }
    SameDatesSameChanges(t, a, b, x, y);
  }

  /** The tag changes depend on which commits there are, in whatever order and however often. */
  lemma TagChangesIgnoreCommitOrder(t: PackageType, a: seq<Commit>, b: seq<Commit>, x: TagChangeSet, y: TagChangeSet)
    requires forall c :: c in a <==> c in b
    requires AreTagChanges(t, a, x) && AreTagChanges(t, b, y)
    ensures x == y
  {
    SameDatesSameChanges(t, a, b, x, y);
  }
}
