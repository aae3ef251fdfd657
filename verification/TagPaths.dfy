/**
 What the SVN paths that count look like as text: paths inside a tag, directories above
 all tags, the package of a path, and the commits that change a tag.
 */
module TagPaths {
  import opened Text
  import opened SvnLog

  /** A path component. */
  predicate IsName(s: string) {
    s != "" && '/' !in s
  }

  predicate AreSlashes(s: string) {
    forall i :: 0 <= i < |s| ==> s[i] == '/'
  }

  predicate IsTrimmed(s: string) {
    s == "" || (s[0] != '/' && s[|s| - 1] != '/')
  }

  /** The path is the core with slashes around it. */
  ghost predicate IsAround(p: string, core: string) {
    IsTrimmed(core) && exists a, b :: AreSlashes(a) && AreSlashes(b) && p == a + core + b
  }

  /** A path in a tag: below the package's tags directory for plugins, right below the package for themes. */
  function TagText(t: PackageType, slug: string, dir: string, rest: string): string {
    slug + (if t.Plugin? then "/tags/" else "/") + Below(dir, rest)
  }

  function Below(dir: string, rest: string): string {
    dir + if rest == "" then "" else "/" + rest
  }

  /** The version a tag directory is listed as: for plugins, a name that starts with a dot gets a zero. */
  function ListedName(t: PackageType, dir: string): string
    requires dir != ""
  {
    if t.Plugin? && dir[0] == '.' then "0" + dir else dir
  }

  // ----- Slashes -----

  lemma TrimmedCore(p: string, core: string)
    requires IsAround(p, core)
    ensures Trim(p, IsSlash) == core
  {
    var a, b :| AreSlashes(a) && AreSlashes(b) && p == a + core + b;
    if core == "" {
      DropAll(a + b, IsSlash);
      assert a + core + b == a + b;
    } else {
      DropAround(a, core, b, IsSlash);
    }
  }

  /** Every path has a core. */
  lemma CoreExists(p: string)
    ensures IsAround(p, Trim(p, IsSlash))
  {
    var a, b := DroppedAround(p, IsSlash);
    assert AreSlashes(a) && AreSlashes(b);
  }

  // ----- Paths in a tag -----

  lemma BelowParts(dir: string, rest: string, n: nat)
    requires '/' !in dir && n >= 2
    ensures SplitN(Below(dir, rest), '/', n) == [dir] + if rest == "" then [] else SplitN(rest, '/', n - 1)
  {
    if rest == "" {
      assert Below(dir, rest) == dir;
      SplitNWhole(dir, '/', n);
    } else {
      assert Below(dir, rest) == dir + ['/'] + rest;
      SplitNFirst(dir, rest, '/', n);
    }
  }

  lemma TagsParts(below: string)
    ensures SplitN("tags/" + below, '/', 3) == ["tags"] + SplitN(below, '/', 2)
  {
    assert "tags/" + below == "tags" + ['/'] + below && '/' !in "tags";
    SplitNFirst("tags", below, '/', 3);
  }

  lemma PluginParts(slug: string, dir: string, rest: string)
    requires '/' !in slug && '/' !in dir
    ensures SplitN(TagText(Plugin, slug, dir, rest), '/', 4) == [slug, "tags", dir] + if rest == "" then [] else [rest]
  {
    var below := Below(dir, rest);
    InTagsDirectory(slug, below);
    SplitNFirst(slug, "tags/" + below, '/', 4);
    TagsParts(below);
    BelowParts(dir, rest, 2);
    if rest == "" {
      ConsParts(slug, "tags", dir, []);
    } else {
      ConsParts(slug, "tags", dir, [rest]);
    }
  }

  lemma InTagsDirectory(slug: string, below: string)
    ensures slug + "/tags/" + below == slug + ['/'] + ("tags/" + below)
  {
    assert "/tags/" == ['/'] + "tags/";
  }

  lemma ConsParts(a: string, b: string, c: string, more: seq<string>)
    ensures [a] + ([b] + ([c] + more)) == [a, b, c] + more
  {}

  lemma ThemeParts(slug: string, dir: string, rest: string)
    requires '/' !in slug && '/' !in dir
    ensures SplitN(TagText(Theme, slug, dir, rest), '/', 4) ==
            [slug, dir] + if rest == "" then [] else SplitN(rest, '/', 2)
  {
    assert TagText(Theme, slug, dir, rest) == slug + ['/'] + Below(dir, rest);
    SplitNFirst(slug, Below(dir, rest), '/', 4);
    BelowParts(dir, rest, 3);
  }

  lemma PluginSplits(p: string, slug: string, dir: string, rest: string)
    requires IsName(slug) && IsName(dir) && Trim(p, IsSlash) == TagText(Plugin, slug, dir, rest)
    ensures SplitTagPath(Plugin, p) == Some(TagPath(slug, ListedName(Plugin, dir), rest))
  {
    PluginParts(slug, dir, rest);
    DotPrefix(dir);
    SplitsByParts(p, [slug, "tags", dir] + if rest == "" then [] else [rest]);
  }

  lemma SplitsByParts(p: string, parts: seq<string>)
    requires parts == SplitN(Trim(p, IsSlash), '/', 4)
    requires |parts| >= 3 && parts[0] != "" && parts[1] == "tags" && parts[2] != ""
    ensures SplitTagPath(Plugin, p) ==
            Some(TagPath(parts[0], ApiTag(parts[2]), if |parts| == 4 then parts[3] else ""))
  {}

  lemma DotPrefix(dir: string)
    requires dir != ""
    ensures ApiTag(dir) == ListedName(Plugin, dir)
  {}

  lemma ThemeSplits(p: string, slug: string, dir: string, rest: string)
    requires IsName(slug) && IsName(dir) && Trim(p, IsSlash) == TagText(Theme, slug, dir, rest)
    ensures SplitTagPath(Theme, p) == Some(TagPath(slug, ListedName(Theme, dir), rest))
  {
    ThemeParts(slug, dir, rest);
    if rest != "" {
      JoinOfSplitN(rest, '/', 2);
      assert ([slug, dir] + SplitN(rest, '/', 2))[2..] == SplitN(rest, '/', 2);
    }
  }

  lemma TwoJoined(a: string, b: string, more: seq<string>)
    ensures Join([a, b] + more, '/') == a + "/" + b + if more == [] then "" else "/" + Join(more, '/')
  {
    assert ([a, b] + more)[1..] == [b] + more && ([b] + more)[1..] == more;
  }

  lemma NoTrailingSlash(before: string, rest: string)
    requires IsTrimmed(before + "/" + rest)
    ensures rest != ""
  {
    assert (before + "/")[|before|] == '/';
    assert rest == "" ==> before + "/" + rest == before + "/";
  }

  /** The text of a cut plugin path. */
  lemma PluginJoined(parts: seq<string>, core: string)
    requires (|parts| == 3 || |parts| == 4) && parts[1] == "tags" && core == Join(parts, '/') && IsTrimmed(core)
    ensures |parts| == 4 ==> parts[3] != ""
    ensures core == TagText(Plugin, parts[0], parts[2], if |parts| == 4 then parts[3] else "")
  {
    var slug, dir := parts[0], parts[2];
    assert parts == [slug, "tags"] + parts[2..];
    TwoJoined(slug, "tags", parts[2..]);
    if |parts| == 3 {
      assert parts[2..] == [dir];
      PluginText(slug, dir, "");
    } else {
      assert parts[2..] == [dir, parts[3]] + [];
      TwoJoined(dir, parts[3], []);
      PluginText(slug, dir, "/" + parts[3]);
      NoTrailingSlash(slug + "/tags/" + dir, parts[3]);
    }
  }

  lemma PluginText(slug: string, dir: string, tail: string)
    ensures slug + "/" + "tags" + ("/" + (dir + tail)) == slug + "/tags/" + (dir + tail)
    ensures dir + tail + "" == dir + tail
    ensures tail != "" ==> slug + "/tags/" + dir + "/" + tail[1..] == slug + "/tags/" + (dir + ("/" + tail[1..]))
    ensures dir + "" == dir
  {}

  lemma ThemeJoined(parts: seq<string>, core: string)
    requires |parts| >= 2 && core == Join(parts, '/') && IsTrimmed(core)
    ensures |parts| > 2 ==> Join(parts[2..], '/') != ""
    ensures core == TagText(Theme, parts[0], parts[1], Join(parts[2..], '/'))
  {
    assert parts == [parts[0], parts[1]] + parts[2..];
    TwoJoined(parts[0], parts[1], parts[2..]);
    var rest := Join(parts[2..], '/');
    if |parts| > 2 {
      ThemeText(parts[0], parts[1], rest);
      NoTrailingSlash(parts[0] + "/" + parts[1], rest);
    } else {
      assert parts[2..] == [];
      assert parts[0] + "/" + parts[1] + "" == parts[0] + "/" + (parts[1] + "");
    }
  }

  lemma ThemeText(slug: string, dir: string, rest: string)
    ensures slug + "/" + dir + ("/" + rest) == slug + "/" + (dir + ("/" + rest)) == slug + "/" + dir + "/" + rest
  {}

  /** A path that splits has the text of a path in a tag. */
  lemma SplitHasText(t: PackageType, p: string) returns (dir: string)
    requires SplitTagPath(t, p).Some?
    ensures var tp := SplitTagPath(t, p).value;
            IsName(tp.slug) && IsName(dir) && tp.tag == ListedName(t, dir)
            && Trim(p, IsSlash) == TagText(t, tp.slug, dir, tp.rest)
  {
    var core := Trim(p, IsSlash);
    var parts := SplitN(core, '/', 4);
    CoreExists(p);
    JoinOfSplitN(core, '/', 4);
    if t.Plugin? {
      dir := parts[2];
      DotPrefix(dir);
      PluginJoined(parts, core);
    } else {
      dir := parts[1];
      ThemeJoined(parts, core);
    }
  }

  /** Which paths are in a tag, and in which: those whose text, without slashes around it, is that of one. */
  lemma SplitTagPathIff(t: PackageType, p: string, slug: string, tag: string, rest: string)
    ensures SplitTagPath(t, p) == Some(TagPath(slug, tag, rest)) <==>
            exists dir :: IsTagDir(t, p, slug, dir, rest) && tag == ListedName(t, dir)
  {
    CoreExists(p);
    if SplitTagPath(t, p) == Some(TagPath(slug, tag, rest)) {
      var dir := SplitHasText(t, p);
      assert IsTagDir(t, p, slug, dir, rest);
    }
    if dir :| IsTagDir(t, p, slug, dir, rest) && tag == ListedName(t, dir) {
      TrimmedCore(p, TagText(t, slug, dir, rest));
      if t.Plugin? { PluginSplits(p, slug, dir, rest); } else { ThemeSplits(p, slug, dir, rest); }
    }
  }

  ghost predicate IsTagDir(t: PackageType, p: string, slug: string, dir: string, rest: string) {
    IsName(slug) && IsName(dir) && IsAround(p, TagText(t, slug, dir, rest))
  }

  // ----- Directories above all tags -----

  /** Which directories hold every tag of a package: the package's own, and the tags directory of plugins. */
  lemma TagsAncestorIff(t: PackageType, p: string, slug: string)
    ensures TagsAncestor(t, p) == Some(slug) <==>
            IsName(slug) && (IsAround(p, slug) || (t.Plugin? && IsAround(p, slug + "/tags")))
  {
    CoreExists(p);
    if TagsAncestor(t, p) == Some(slug) { AncestorHasText(t, p, slug); }
    if IsName(slug) && IsAround(p, slug) {
      TrimmedCore(p, slug);
      SplitOfJoin([slug], '/');
    }
    if IsName(slug) && t.Plugin? && IsAround(p, slug + "/tags") {
      TrimmedCore(p, slug + "/tags");
      TagsDirectory(slug);
    }
  }

  lemma TagsDirectory(slug: string)
    requires '/' !in slug
    ensures Split(slug + "/tags", '/') == [slug, "tags"]
  {
    SplitOfJoin([slug, "tags"], '/');
    TagsJoined([slug, "tags"]);
  }

  lemma AncestorHasText(t: PackageType, p: string, slug: string)
    requires TagsAncestor(t, p) == Some(slug)
    ensures IsName(slug) && (Trim(p, IsSlash) == slug || (t.Plugin? && Trim(p, IsSlash) == slug + "/tags"))
  {
    var core := Trim(p, IsSlash);
    var parts := Split(core, '/');
    JoinOfSplit(core, '/');
    assert slug == parts[0];
    if |parts| == 1 { assert Join(parts, '/') == parts[0]; } else { TagsJoined(parts); }
  }

  lemma TagsJoined(parts: seq<string>)
    requires |parts| == 2 && parts[1] == "tags"
    ensures Join(parts, '/') == parts[0] + "/tags"
  {
    assert parts == [parts[0], "tags"] + [];
    TwoJoined(parts[0], "tags", []);
    assert parts[0] + "/" + "tags" + "" == parts[0] + "/tags";
  }

  // ----- The package of a path -----

  /** The path without one slash in front. */
  function Relative(p: string): string {
    if p != "" && p[0] == '/' then p[1..] else p
  }

  /** The slug is the component of the path before its first slash, or all of it. */
  predicate IsInPackage(p: string, slug: string) {
    || (IsName(slug) && HasPrefix(Relative(p), slug + "/"))
    || (Relative(p) == slug != "" && slug != ".." && ('/' !in slug || slug[0] == '/'))
  }

  /** Which package a path belongs to. */
  lemma SlugFromPathIff(p: string, slug: string)
    requires slug != ""
    ensures SlugFromPath(p) == slug <==> IsInPackage(p, slug)
  {
    var q := Relative(p);
    var i := IndexOf(q, '/');
    if IsName(slug) && HasPrefix(q, slug + "/") {
      var rest := q[|slug| + 1..];
      assert q == slug + ['/'] + rest by { assert q == q[..|slug| + 1] + rest && q[..|slug| + 1] == slug + "/"; }
      FirstIndex(slug, '/', rest);
    }
    if 0 < i < |q| { assert q[..i + 1] == q[..i] + "/"; }
    if q == slug && '/' !in slug { NoIndex(slug, '/'); }
  }

  // ----- Commits that change a tag -----

  /** Case variants of the two readme names. */
  predicate IsReadmeName(rest: string) {
    IsVariant(rest, "readme.txt") || IsVariant(rest, "readme.md")
  }

  predicate IsVariant(s: string, word: string) {
    |s| == |word| && forall i :: 0 <= i < |s| ==>
      s[i] == word[i] || ('a' <= word[i] <= 'z' && s[i] as int == word[i] as int - 32)
  }

  lemma VariantIsLowered(s: string, word: string)
    requires forall i :: 0 <= i < |word| ==> !('A' <= word[i] <= 'Z')
    ensures ToLower(s) == word <==> IsVariant(s, word)
  {
    if IsVariant(s, word) {
      forall i | 0 <= i < |s| ensures ToLower(s)[i] == word[i] {}
      assert ToLower(s) == word;
    }
    if ToLower(s) == word {
      forall i | 0 <= i < |s| ensures s[i] == word[i] || ('a' <= word[i] <= 'z' && s[i] as int == word[i] as int - 32) {
        assert ToLower(s)[i] == ToLowerChar(s[i]);
      }
    }
  }

  lemma IsReadmeIff(rest: string)
    ensures IsReadme(rest) <==> IsReadmeName(rest)
  {
    VariantIsLowered(rest, "readme.txt");
    VariantIsLowered(rest, "readme.md");
  }

  /** A path of the commit in the tag's directory that counts: a plain readme file does not, unless it was replaced. */
  ghost predicate IsChange(t: PackageType, c: Commit, p: string, slug: string, dir: string, rest: string) {
    && IsTagDir(t, p, slug, dir, rest)
    && (p in c.replaced || (p in c.added + c.modified + c.deleted && !(p in c.plainFilePaths && IsReadmeName(rest))))
  }

  /** Which commits change a tag, in terms of the texts of their paths. */
  lemma TouchesTagIff(t: PackageType, c: Commit, slug: string, tag: string)
    ensures TouchesTag(t, c, slug, tag) <==>
            exists p, dir, rest :: IsChange(t, c, p, slug, dir, rest) && tag == ListedName(t, dir)
  {
    if p :| p in LoosePaths(c) && ChangesTag(t, c, p, true, slug, tag) { PathIsChange(t, c, p, slug, tag); }
    if p :| p in c.replaced && ChangesTag(t, c, p, false, slug, tag) { PathIsChange(t, c, p, slug, tag); }
    if p, dir, rest :| IsChange(t, c, p, slug, dir, rest) && tag == ListedName(t, dir) {
      SplitTagPathIff(t, p, slug, tag, rest);
      IsReadmeIff(rest);
      assert ChangesTag(t, c, p, p !in c.replaced, slug, tag);
    }
  }

  lemma PathIsChange(t: PackageType, c: Commit, p: string, slug: string, tag: string)
    requires || (p in LoosePaths(c) && ChangesTag(t, c, p, true, slug, tag))
             || (p in c.replaced && ChangesTag(t, c, p, false, slug, tag))
    ensures exists dir, rest :: IsChange(t, c, p, slug, dir, rest) && tag == ListedName(t, dir)
  {
    var rest := SplitTagPath(t, p).value.rest;
    SplitTagPathIff(t, p, slug, tag, rest);
    var dir :| IsTagDir(t, p, slug, dir, rest) && tag == ListedName(t, dir);
    IsReadmeIff(rest);
    assert IsChange(t, c, p, slug, dir, rest);
  }

  /** Which commits change all tags of a package at once. */
  lemma TouchesAllIff(t: PackageType, c: Commit, slug: string)
    ensures TouchesAll(t, c, slug) <==>
            exists p :: p in c.added + c.replaced && IsName(slug)
                        && (IsAround(p, slug) || (t.Plugin? && IsAround(p, slug + "/tags")))
  {
    forall p ensures TagsAncestor(t, p) == Some(slug) <==>
                     IsName(slug) && (IsAround(p, slug) || (t.Plugin? && IsAround(p, slug + "/tags")))
    {
      TagsAncestorIff(t, p, slug);
    }
  }

  // ----- Items of the response -----

  ghost predicate IsListed(p: string, paths: seq<LoggedPath>) {
    exists l :: l in paths && l.path == p
  }

  ghost predicate IsLogged(p: string, item: LogItem) {
    IsListed(p, item.added) || IsListed(p, item.modified) || IsListed(p, item.deleted) || IsListed(p, item.replaced)
  }

  /** The item has the path as a file without property changes. */
  ghost predicate IsLoggedPlain(p: string, item: LogItem) {
    exists l :: (l in item.added || l in item.modified || l in item.deleted || l in item.replaced)
      && l.path == p && l.kind == "file" && l.propMods == "false"
  }

  /** The item has a path in the tag's directory; a plain readme file counts only if it was replaced. */
  ghost predicate IsLoggedChange(t: PackageType, item: LogItem, p: string, slug: string, dir: string, rest: string) {
    && IsTagDir(t, p, slug, dir, rest) && IsLogged(p, item)
    && (IsListed(p, item.replaced) || !(IsLoggedPlain(p, item) && IsReadmeName(rest)))
  }

  ghost predicate ItemChanges(t: PackageType, item: LogItem, slug: string, tag: string) {
    exists p, dir, rest :: IsLoggedChange(t, item, p, slug, dir, rest) && tag == ListedName(t, dir)
  }

  /** The item adds or replaces a directory that holds all tags of the package. */
  ghost predicate ItemChangesAll(t: PackageType, item: LogItem, slug: string) {
    exists p :: (IsListed(p, item.added) || IsListed(p, item.replaced)) && IsName(slug)
      && (IsAround(p, slug) || (t.Plugin? && IsAround(p, slug + "/tags")))
  }

  lemma ListedIff(p: string, paths: seq<LoggedPath>)
    ensures p in PathsOf(paths) <==> IsListed(p, paths)
  {
    if p in PathsOf(paths) {
      var i :| 0 <= i < |paths| && PathsOf(paths)[i] == p;
      assert paths[i] in paths;
    }
    if l :| l in paths && l.path == p {
      var i :| 0 <= i < |paths| && paths[i] == l;
      assert PathsOf(paths)[i] == p;
    }
  }

  /** The paths of a commit, by the lists of its item. */
  lemma CommitHolds(item: LogItem, p: string)
    ensures var c := CommitOf(item);
            && (p in c.added <==> IsListed(p, item.added)) && (p in c.modified <==> IsListed(p, item.modified))
            && (p in c.deleted <==> IsListed(p, item.deleted)) && (p in c.replaced <==> IsListed(p, item.replaced))
            && (p in c.plainFilePaths <==> IsLoggedPlain(p, item))
  {
    ListedIff(p, item.added);
    ListedIff(p, item.modified);
    ListedIff(p, item.deleted);
    ListedIff(p, item.replaced);
  }

  /** Which items of a response change a tag. */
  lemma ItemTouchesTagIff(t: PackageType, item: LogItem, slug: string, tag: string)
    ensures TouchesTag(t, CommitOf(item), slug, tag) <==> ItemChanges(t, item, slug, tag)
  {
    var c := CommitOf(item);
    TouchesTagIff(t, c, slug, tag);
    forall p, dir, rest ensures IsChange(t, c, p, slug, dir, rest) <==> IsLoggedChange(t, item, p, slug, dir, rest) {
      CommitHolds(item, p);
    }
  }

  lemma ItemTouchesAllIff(t: PackageType, item: LogItem, slug: string)
    ensures TouchesAll(t, CommitOf(item), slug) <==> ItemChangesAll(t, item, slug)
  {
    var c := CommitOf(item);
    TouchesAllIff(t, c, slug);
    forall p ensures p in c.added + c.replaced <==> IsListed(p, item.added) || IsListed(p, item.replaced) {
      CommitHolds(item, p);
    }
  }

  lemma ItemTouchesSlugIff(item: LogItem, slug: string)
    requires slug != ""
    ensures TouchesSlug(CommitOf(item), slug) <==> exists p :: IsLogged(p, item) && IsInPackage(p, slug)
  {
    var c := CommitOf(item);
    forall p
      ensures p in AllPaths(c) <==> IsLogged(p, item)
      ensures SlugFromPath(p) == slug <==> IsInPackage(p, slug)
    {
      CommitHolds(item, p);
      SlugFromPathIff(p, slug);
    }
  }

  function DateOfItem(item: LogItem): Instant {
    if item.date.Some? then item.date.value else 0
  }

  ghost function ChangeDates(t: PackageType, items: seq<LogItem>, slug: string, tag: string): set<Instant> {
    set item | item in items && ItemChanges(t, item, slug, tag) :: DateOfItem(item)
  }

  ghost function ChangeAllDates(t: PackageType, items: seq<LogItem>, slug: string): set<Instant> {
    set item | item in items && ItemChangesAll(t, item, slug) :: DateOfItem(item)
  }

  ghost function TouchRevisions(items: seq<LogItem>, slug: string): set<int> {
    set item | item in items && exists p :: IsLogged(p, item) && IsInPackage(p, slug) :: item.revision
  }

  /** The commits of a response are those of its items. */
  lemma CommitOfSome(items: seq<LogItem>, c: Commit) returns (item: LogItem)
    requires c in CommitsOf(items)
    ensures item in items && c == CommitOf(item)
  {
    var i :| 0 <= i < |items| && CommitsOf(items)[i] == c;
    item := items[i];
  }

  lemma CommitIsThere(items: seq<LogItem>, item: LogItem)
    requires item in items
    ensures CommitOf(item) in CommitsOf(items)
  {
    var i :| 0 <= i < |items| && items[i] == item;
    assert CommitsOf(items)[i] == CommitOf(item);
  }

  lemma TagDatesOfItems(t: PackageType, items: seq<LogItem>, slug: string, tag: string)
    ensures TagDates(t, CommitsOf(items), slug, tag) == ChangeDates(t, items, slug, tag)
  {
    forall d | d in TagDates(t, CommitsOf(items), slug, tag) ensures d in ChangeDates(t, items, slug, tag) {
      var c :| c in CommitsOf(items) && TouchesTag(t, c, slug, tag) && c.date == d;
      var item := CommitOfSome(items, c);
      ItemTouchesTagIff(t, item, slug, tag);
    }
    forall item | item in items && ItemChanges(t, item, slug, tag)
      ensures DateOfItem(item) in TagDates(t, CommitsOf(items), slug, tag)
    {
      CommitIsThere(items, item);
      ItemTouchesTagIff(t, item, slug, tag);
      assert CommitOf(item).date == DateOfItem(item);
    }
  }

  lemma AllDatesOfItems(t: PackageType, items: seq<LogItem>, slug: string)
    ensures AllDates(t, CommitsOf(items), slug) == ChangeAllDates(t, items, slug)
  {
    forall d | d in AllDates(t, CommitsOf(items), slug) ensures d in ChangeAllDates(t, items, slug) {
      var c :| c in CommitsOf(items) && TouchesAll(t, c, slug) && c.date == d;
      var item := CommitOfSome(items, c);
      ItemTouchesAllIff(t, item, slug);
    }
    forall item | item in items && ItemChangesAll(t, item, slug)
      ensures DateOfItem(item) in AllDates(t, CommitsOf(items), slug)
    {
      CommitIsThere(items, item);
      ItemTouchesAllIff(t, item, slug);
      assert CommitOf(item).date == DateOfItem(item);
    }
  }

  /**
   The tag changes of a response, in terms of its items and the texts of their paths:
   each tag has the latest date of the items that change it, if there is one, and so has
   each package whose tags were changed at once.
   */
  lemma ResponseTagChanges(t: PackageType, items: seq<LogItem>, changes: TagChangeSet, slug: string, tag: string)
    requires AreTagChanges(t, CommitsOf(items), changes)
    ensures IsMaxOrNone(ChangeDates(t, items, slug, tag), DateOf(changes.tags, slug, tag))
    ensures IsMaxOrNone(ChangeAllDates(t, items, slug), Lookup(changes.all, slug))
  {
    TagDatesOfItems(t, items, slug, tag);
    AllDatesOfItems(t, items, slug);
  }

  /** The packages of a response, each with the greatest revision of the items that have a path in it. */
  lemma ResponseSlugs(items: seq<LogItem>, log: Log, slug: string)
    requires IsLogOf(CommitsOf(items), log) && slug != ""
    ensures IsMaxOrNone(TouchRevisions(items, slug), Lookup(log.slugRevisions, slug))
  {
    forall r | r in SlugTouches(CommitsOf(items), slug) ensures r in TouchRevisions(items, slug) {
      var c :| c in CommitsOf(items) && TouchesSlug(c, slug) && c.revision == r;
      var item := CommitOfSome(items, c);
      ItemTouchesSlugIff(item, slug);
    }
    forall item | item in items && exists p :: IsLogged(p, item) && IsInPackage(p, slug)
      ensures item.revision in SlugTouches(CommitsOf(items), slug)
    {
      CommitIsThere(items, item);
      ItemTouchesSlugIff(item, slug);
      assert CommitOf(item).revision == item.revision;
    }
    assert SlugTouches(CommitsOf(items), slug) == TouchRevisions(items, slug);
  }
}
