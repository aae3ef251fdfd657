/**
 The backward scan of the SVN changelog: coverage of a chunk, merging of tag changes,
 and the loop that stops at commits older than the window.
 */
module BackfillScan {
  import opened Text
  import opened SvnLog

  /** The most log items one REPORT answer holds. */
  const SVN_LOG_LIMIT := 50_000

  /** An SVN repository: revision r is the r-th commit. */
  ghost predicate IsRepository(repo: seq<Commit>) {
    forall i :: 0 <= i < |repo| ==> repo[i].revision == i + 1
  }

  /** Every commit has a date, and dates do not decrease from one revision to the next. */
  ghost predicate AreDatesOrdered(repo: seq<Commit>) {
    && (forall i :: 0 <= i < |repo| ==> repo[i].date > ZERO)
    && forall i, j :: 0 <= i < j < |repo| ==> repo[i].date <= repo[j].date
  }

  /** What a REPORT may answer for a range: commits of the range, each at most once, some perhaps missing. */
  ghost predicate IsAnswer(repo: seq<Commit>, first: int, last: int, commits: seq<Commit>) {
    && (forall c :: c in commits ==> first <= c.revision <= last && 1 <= c.revision <= |repo| && c == repo[c.revision - 1])
    && forall i, j :: 0 <= i < j < |commits| ==> commits[i].revision != commits[j].revision
  }

  /** The answer holds every revision of the range. */
  ghost predicate IsComplete(repo: seq<Commit>, first: int, last: int, commits: seq<Commit>) {
    1 <= first && last <= |repo| && forall i :: first - 1 <= i < last ==> repo[i] in commits
  }

  /** Whether the response holds every revision from first to last, judged by its bounds and its size. */
  predicate CheckCoverage(log: Log, first: int, last: int) {
    log.minRev == first && log.maxRev == last && |log.commits| == last - first + 1
  }

  ghost function Range(first: int, last: int): (r: set<int>)
    requires first <= last + 1
    ensures forall i :: i in r <==> first <= i <= last
    ensures |r| == last - first + 1
    decreases last - first + 1
  {
    if first > last then {} else Range(first, last - 1) + {last}
  }

  lemma {:induction false} DistinctRevisions(commits: seq<Commit>)
    requires forall i, j :: 0 <= i < j < |commits| ==> commits[i].revision != commits[j].revision
    ensures |Revisions(commits)| == |commits|
  {
    if commits != [] {
      var last := |commits| - 1;
      DistinctRevisions(commits[..last]);
      assert commits == commits[..last] + [commits[last]];
      assert Revisions(commits) == Revisions(commits[..last]) + {commits[last].revision};
      assert commits[last].revision !in Revisions(commits[..last]);
    }
  }

  lemma SubsetOfSameSize(a: set<int>, b: set<int>)
    requires a <= b && |a| == |b|
    ensures a == b
  {
    assert |b - a| == |b| - |a|;
  }

  /** The least and the greatest revision and their number tell exactly whether the range is covered. */
  lemma BoundsAndSize(revisions: set<int>, first: int, last: int, min: Option<int>, max: Option<int>)
    requires first <= last && revisions <= Range(first, last)
    requires IsMinOrNone(revisions, min) && IsMaxOrNone(revisions, max)
    ensures revisions == Range(first, last) <==>
            min == Some(first) && max == Some(last) && |revisions| == last - first + 1
  {
    assert first in Range(first, last) && last in Range(first, last);
    if |revisions| == last - first + 1 { SubsetOfSameSize(revisions, Range(first, last)); }
  }

  lemma RevisionsOfAnswer(repo: seq<Commit>, first: int, last: int, commits: seq<Commit>)
    requires IsRepository(repo) && 1 <= first <= last <= |repo| && IsAnswer(repo, first, last, commits)
    ensures Revisions(commits) <= Range(first, last)
    ensures Revisions(commits) == Range(first, last) <==> IsComplete(repo, first, last, commits)
  {
    forall i | first - 1 <= i < last ensures i + 1 in Revisions(commits) <==> repo[i] in commits {
      assert repo[i].revision == i + 1;
      if i + 1 in Revisions(commits) {
        var c :| c in commits && c.revision == i + 1;
      }
    }
    if IsComplete(repo, first, last, commits) {
      forall r | r in Range(first, last) ensures r in Revisions(commits) {
        assert repo[r - 1] in commits;
      }
    } else {
      var i :| first - 1 <= i < last && repo[i] !in commits;
      assert i + 1 in Range(first, last);
    }
  }

  /** The bounds and the size tell exactly whether an answer is complete. */
  lemma CoverageIsCompleteness(repo: seq<Commit>, first: int, last: int, log: Log)
    requires IsRepository(repo) && 1 <= first <= last <= |repo|
    requires IsAnswer(repo, first, last, log.commits) && IsLogOf(log.commits, log)
    ensures CheckCoverage(log, first, last) <==> IsComplete(repo, first, last, log.commits)
  {
    DistinctRevisions(log.commits);
    RevisionsOfAnswer(repo, first, last, log.commits);
    BoundsAndSize(Revisions(log.commits), first, last, Positive(log.minRev), Positive(log.maxRev));
  }

  // ----- The window -----

  ghost function Since(dates: set<Instant>, since: Instant): set<Instant> {
    set d | d in dates && d >= since
  }

  /** The latest change at or after since of every tag and of every whole tags directory. */
  ghost predicate IsWindow(t: PackageType, commits: seq<Commit>, since: Instant, changes: TagChangeSet) {
    && (forall slug, tag ::
          IsMaxOrNone(Since(TagDates(t, commits, slug, tag), since), DateOf(changes.tags, slug, tag)))
    && forall slug :: IsMaxOrNone(Since(AllDates(t, commits, slug), since), Lookup(changes.all, slug))
  }

  /** A missing date counts as now; a date before since is dropped. */
  function Clamp(t: Instant, since: Instant, now: Instant): Option<Instant> {
    var u := if t == ZERO then now else t;
    if u < since then None else Some(u)
  }

  /** One entry folded into another. */
  function MergedDate(into: Option<Instant>, change: Option<Instant>, since: Instant, now: Instant): Option<Instant> {
    match change
    case None => into
    case Some(t) =>
      match Clamp(t, since, now)
      case None => into
      case Some(u) => if u > OrZero(into) then Some(u) else into
  }

  ghost predicate IsMerged(
    into: TagChangeSet, changes: TagChangeSet, since: Instant, now: Instant, result: TagChangeSet) {
    && (forall slug, tag :: DateOf(result.tags, slug, tag) ==
                            MergedDate(DateOf(into.tags, slug, tag), DateOf(changes.tags, slug, tag), since, now))
    && forall slug :: Lookup(result.all, slug) == MergedDate(Lookup(into.all, slug), Lookup(changes.all, slug), since, now)
  }

  /** Folds one map of dates into another. */
  method MergeDates(into: map<string, Instant>, changes: map<string, Instant>, since: Instant, now: Instant)
    returns (result: map<string, Instant>)
    ensures forall k :: Lookup(result, k) == MergedDate(Lookup(into, k), Lookup(changes, k), since, now)
  {
    result := into;
    var todo := changes.Keys;
    while todo != {}
      invariant todo <= changes.Keys
      invariant forall k :: Lookup(result, k) == if k in todo then Lookup(into, k)
                                                 else MergedDate(Lookup(into, k), Lookup(changes, k), since, now)
    {
      var k :| k in todo;
      todo := todo - {k};
      var t := Clamp(changes[k], since, now);
      if t.Some? && t.value > OrZero(Lookup(result, k)) { result := result[k := t.value]; }
    }
  }

  /** Folds the changes of one chunk into those collected so far. */
  method MergeTagChanges(into: TagChangeSet, changes: TagChangeSet, since: Instant, now: Instant)
    returns (result: TagChangeSet)
    ensures IsMerged(into, changes, since, now, result)
  {
    var tags := into.tags;
    var todo := changes.tags.Keys;
    while todo != {}
      invariant todo <= changes.tags.Keys
      invariant forall slug, tag :: slug in todo ==> DateOf(tags, slug, tag) == DateOf(into.tags, slug, tag)
      invariant forall slug, tag :: slug !in todo ==>
                  DateOf(tags, slug, tag) ==
                  MergedDate(DateOf(into.tags, slug, tag), DateOf(changes.tags, slug, tag), since, now)
    {
      var slug :| slug in todo;
      ghost var before := tags;
      var merged := MergeDates(if slug in tags then tags[slug] else map[], changes.tags[slug], since, now);
      tags := tags[slug := merged];
      forall tag
        ensures DateOf(tags, slug, tag) ==
                MergedDate(DateOf(into.tags, slug, tag), DateOf(changes.tags, slug, tag), since, now)
      {
        assert DateOf(before, slug, tag) == DateOf(into.tags, slug, tag);
        assert Lookup(merged, tag) == DateOf(tags, slug, tag);
      }
      todo := todo - {slug};
    }
    var all := MergeDates(into.all, changes.all, since, now);
    result := TagChangeSet(tags, all);
  }

  lemma DatesOfParts(t: PackageType, a: seq<Commit>, b: seq<Commit>, slug: string, tag: string)
    ensures TagDates(t, a + b, slug, tag) == TagDates(t, a, slug, tag) + TagDates(t, b, slug, tag)
    ensures AllDates(t, a + b, slug) == AllDates(t, a, slug) + AllDates(t, b, slug)
  {
    assert forall c :: c in a + b <==> c in a || c in b;
  }

  /** The maximum of two windows, given the maximum of one and the plain maximum of the other. */
  lemma MergedMax(
    chunk: set<Instant>, rest: set<Instant>, since: Instant, now: Instant, a: Option<Instant>, b: Option<Instant>)
    requires forall d :: d in chunk + rest ==> d > ZERO
    requires IsMaxOrNone(Since(rest, since), a) && IsMaxOrNone(chunk, b)
    ensures IsMaxOrNone(Since(chunk + rest, since), MergedDate(a, b, since, now))
  {
    assert Since(chunk + rest, since) == Since(chunk, since) + Since(rest, since);
    if b.Some? && b.value >= since {
      assert b.value in Since(chunk, since);
    } else {
      assert Since(chunk, since) == {};
    }
  }

  ghost predicate AreDated(commits: seq<Commit>) {
    forall c :: c in commits ==> c.date > ZERO
  }

  /** Merging the changes of one more chunk extends the window by that chunk. */
  lemma WindowGrows(
    t: PackageType, chunk: seq<Commit>, rest: seq<Commit>, since: Instant, now: Instant,
    collected: TagChangeSet, changes: TagChangeSet, result: TagChangeSet)
    requires AreDated(chunk) && AreDated(rest)
    requires IsWindow(t, rest, since, collected) && AreTagChanges(t, chunk, changes)
    requires IsMerged(collected, changes, since, now, result)
    ensures IsWindow(t, chunk + rest, since, result)
  {
    forall slug, tag
      ensures IsMaxOrNone(Since(TagDates(t, chunk + rest, slug, tag), since), DateOf(result.tags, slug, tag))
    {
      DatesOfParts(t, chunk, rest, slug, tag);
      MergedMax(TagDates(t, chunk, slug, tag), TagDates(t, rest, slug, tag), since, now,
                DateOf(collected.tags, slug, tag), DateOf(changes.tags, slug, tag));
    }
    forall slug
      ensures IsMaxOrNone(Since(AllDates(t, chunk + rest, slug), since), Lookup(result.all, slug))
    {
      DatesOfParts(t, chunk, rest, slug, "");
      MergedMax(AllDates(t, chunk, slug), AllDates(t, rest, slug), since, now,
                Lookup(collected.all, slug), Lookup(changes.all, slug));
    }
  }

  lemma OlderDates(t: PackageType, older: seq<Commit>, rest: seq<Commit>, since: Instant, slug: string, tag: string)
    requires forall c :: c in older ==> c.date < since
    ensures Since(TagDates(t, older + rest, slug, tag), since) == Since(TagDates(t, rest, slug, tag), since)
    ensures Since(AllDates(t, older + rest, slug), since) == Since(AllDates(t, rest, slug), since)
  {
    DatesOfParts(t, older, rest, slug, tag);
  }

  /** Commits before the window add nothing to it. */
  lemma OlderCommitsDoNotCount(
    t: PackageType, older: seq<Commit>, rest: seq<Commit>, since: Instant, changes: TagChangeSet)
    requires IsWindow(t, rest, since, changes)
    requires forall c :: c in older ==> c.date < since
    ensures IsWindow(t, older + rest, since, changes)
  {
    forall slug, tag
      ensures IsMaxOrNone(Since(TagDates(t, older + rest, slug, tag), since), DateOf(changes.tags, slug, tag))
    {
      OlderDates(t, older, rest, since, slug, tag);
    }
    forall slug
      ensures IsMaxOrNone(Since(AllDates(t, older + rest, slug), since), Lookup(changes.all, slug))
    {
      OlderDates(t, older, rest, since, slug, "");
    }
  }

  lemma SameCommitsSameDates(t: PackageType, a: seq<Commit>, b: seq<Commit>, slug: string, tag: string)
    requires forall c :: c in a <==> c in b
    ensures TagDates(t, a, slug, tag) == TagDates(t, b, slug, tag)
    ensures AllDates(t, a, slug) == AllDates(t, b, slug)
  {}

  /** Tag changes depend on which commits are looked at, not on their order. */
  lemma SameCommitsSameTagChanges(t: PackageType, a: seq<Commit>, b: seq<Commit>, changes: TagChangeSet)
    requires AreTagChanges(t, a, changes)
    requires forall c :: c in a <==> c in b
    ensures AreTagChanges(t, b, changes)
  {
    forall slug, tag ensures IsMaxOrNone(TagDates(t, b, slug, tag), DateOf(changes.tags, slug, tag)) {
      SameCommitsSameDates(t, a, b, slug, tag);
    }
    forall slug ensures IsMaxOrNone(AllDates(t, b, slug), Lookup(changes.all, slug)) {
      SameCommitsSameDates(t, a, b, slug, "");
    }
  }

  lemma CompleteAnswerIsChunk(repo: seq<Commit>, first: int, last: int, commits: seq<Commit>)
    requires IsRepository(repo) && 1 <= first <= last <= |repo|
    requires IsAnswer(repo, first, last, commits) && IsComplete(repo, first, last, commits)
    ensures forall c :: c in commits <==> c in repo[first - 1..last]
  {
    forall c | c in repo[first - 1..last] ensures c in commits {
      var i :| 0 <= i < last - first + 1 && repo[first - 1..last][i] == c;
      assert c == repo[first + i - 1] && first <= first + i <= last;
    }
    forall c | c in commits ensures c in repo[first - 1..last] {
      assert c == repo[first - 1..last][c.revision - first];
    }
  }

  // ----- The scan -----

  /** The changelog endpoint: the answer to a range on each attempt, None for a failed fetch. */
  type Endpoint = (int, int, nat) -> Option<seq<LogItem>>

  ghost predicate IsEndpoint(repo: seq<Commit>, report: Endpoint) {
    forall first, last, k :: report(first, last, k).Some? ==>
      && (forall item :: item in report(first, last, k).value ==> IsLogItem(item))
      && IsAnswer(repo, first, last, CommitsOf(report(first, last, k).value))
  }

  /** The attempt fetches every revision of the range. */
  ghost predicate IsGoodAttempt(repo: seq<Commit>, report: Endpoint, first: int, last: int, k: nat) {
    report(first, last, k).Some? && IsComplete(repo, first, last, CommitsOf(report(first, last, k).value))
  }

  ghost predicate IsBadChunk(repo: seq<Commit>, report: Endpoint, first: int, last: int) {
    forall k: nat :: 1 <= k <= 3 ==> !IsGoodAttempt(repo, report, first, last, k)
  }

  /** One attempt at a chunk: the log if the answer covers the range. */
  method TryChunk(ghost repo: seq<Commit>, report: Endpoint, first: int, last: int, k: nat) returns (log: Option<Log>)
    requires IsRepository(repo) && IsEndpoint(repo, report) && 1 <= first <= last <= |repo|
    ensures log.Some? <==> IsGoodAttempt(repo, report, first, last, k)
    ensures log.Some? ==> IsLogOf(log.value.commits, log.value) && IsAnswer(repo, first, last, log.value.commits)
                          && IsComplete(repo, first, last, log.value.commits)
  {
    log := None;
    var items := report(first, last, k);
    if items.Some? {
      var parsed := ParseSvnLog(items.value);
      CoverageIsCompleteness(repo, first, last, parsed);
      if CheckCoverage(parsed, first, last) { log := Some(parsed); }
    }
  }

  /** Fetches one chunk, trying three times. */
  method FetchChunk(ghost repo: seq<Commit>, report: Endpoint, first: int, last: int) returns (log: Option<Log>)
    requires IsRepository(repo) && IsEndpoint(repo, report) && 1 <= first <= last <= |repo|
    ensures log.Some? ==> IsLogOf(log.value.commits, log.value) && IsAnswer(repo, first, last, log.value.commits)
                          && IsComplete(repo, first, last, log.value.commits)
    ensures log.None? <==> IsBadChunk(repo, report, first, last)
  {
    log := None;
    var attempt := 1;
    while attempt <= 3 && log.None?
      invariant 1 <= attempt <= 4
      invariant log.Some? ==> IsLogOf(log.value.commits, log.value) && IsAnswer(repo, first, last, log.value.commits)
                              && IsComplete(repo, first, last, log.value.commits)
                              && attempt > 1 && IsGoodAttempt(repo, report, first, last, attempt - 1)
      invariant log.None? ==> forall k: nat :: 1 <= k < attempt ==> !IsGoodAttempt(repo, report, first, last, k)
    {
      log := TryChunk(repo, report, first, last, attempt);
      attempt := attempt + 1;
    }
  }

  function ChunkStart(last: int, chunkSize: nat): int {
    if last - chunkSize + 1 < 1 then 1 else last - chunkSize + 1
  }

  /**
   A chunk that the scan requests cannot be fetched whole in three attempts: one that
   it comes to before the first chunk that reaches back beyond since.
   */
  ghost predicate Breaks(repo: seq<Commit>, report: Endpoint, last: int, chunkSize: nat, since: Instant)
    requires last <= |repo| && chunkSize >= 1
    decreases last
  {
    last > 0 &&
    var first := ChunkStart(last, chunkSize);
    IsBadChunk(repo, report, first, last)
    || (repo[first - 1].date >= since && Breaks(repo, report, first - 1, chunkSize, since))
  }

  /** The earliest date of a whole chunk is that of its first revision. */
  lemma MinDateIsFirst(repo: seq<Commit>, first: int, last: int, endRev: nat, log: Log)
    requires 1 <= first <= last <= endRev <= |repo| && AreDatesOrdered(repo[..endRev]) && IsLogOf(log.commits, log)
    requires IsAnswer(repo, first, last, log.commits) && IsComplete(repo, first, last, log.commits)
    ensures log.minDate == repo[first - 1].date > ZERO
  {
    var c := repo[first - 1];
    var dates := Dates(log.commits);
    assert c in log.commits && repo[..endRev][first - 1] == c && c.date > ZERO;
    forall d | d in dates ensures c.date <= d {
      var e :| e in log.commits && e.date != ZERO && e.date == d;
      assert repo[..endRev][e.revision - 1] == e;
    }
    LeastIsMin(dates, Positive(log.minDate), c.date);
  }

  lemma LeastIsMin(dates: set<int>, min: Option<int>, least: int)
    requires IsMinOrNone(dates, min) && least in dates && forall d :: d in dates ==> least <= d
    ensures min == Some(least)
  {}

  /** The scan goes on exactly while whole chunks hold nothing older than since. */
  lemma BreaksStep(repo: seq<Commit>, report: Endpoint, last: int, endRev: nat, chunkSize: nat, since: Instant, log: Log)
    requires 1 <= last <= endRev <= |repo| && AreDatesOrdered(repo[..endRev]) && chunkSize >= 1
    requires var first := ChunkStart(last, chunkSize);
             && IsLogOf(log.commits, log) && IsAnswer(repo, first, last, log.commits)
             && IsComplete(repo, first, last, log.commits) && !IsBadChunk(repo, report, first, last)
    ensures Breaks(repo, report, last, chunkSize, since) <==>
            !(log.minDate != ZERO && log.minDate < since)
            && Breaks(repo, report, ChunkStart(last, chunkSize) - 1, chunkSize, since)
  {
    MinDateIsFirst(repo, ChunkStart(last, chunkSize), last, endRev, log);
  }

  /**
   Walks the changelog backwards from endRev up to the first chunk that reaches beyond
   since. Stopping early and scanning in chunks lose nothing: the result is the
   window over all revisions up to endRev, for any chunk size in the allowed range.
   The scan fails exactly if a chunk it comes to cannot be fetched whole.
   */
  method ScanTagChangesSince(
    t: PackageType, ghost repo: seq<Commit>, report: Endpoint, endRev: nat, chunkSize: nat, since: Instant, now: Instant)
    returns (result: Option<TagChangeSet>)
    requires IsRepository(repo) && IsEndpoint(repo, report) && endRev <= |repo| && AreDatesOrdered(repo[..endRev])
    requires 1 <= chunkSize <= SVN_LOG_LIMIT
    ensures result.Some? ==> IsWindow(t, repo[..endRev], since, result.value)
    ensures result.None? <==> Breaks(repo, report, endRev, chunkSize, since)
  {
    var acc := TagChangeSet(map[], map[]);
    var last: int := endRev;
    NothingScanned(t, repo, endRev, since);
    while last > 0
      invariant IsScanned(t, repo, last, endRev, since, acc)
      invariant Breaks(repo, report, last, chunkSize, since) <==> Breaks(repo, report, endRev, chunkSize, since)
    {
      var turn := ScanTurn(t, repo, report, last, endRev, chunkSize, since, now, acc);
      match turn
      case Broken => return None;
      case Finished(all) => return Some(all);
      case Onward(next, wider) => last, acc := next, wider;
    }
    AllScanned(t, repo, endRev, since, acc);
    result := Some(acc);
  }

  /** How a turn of the scan ends: with a bad chunk, with everything found, or further back. */
  datatype Turn = Broken | Finished(all: TagChangeSet) | Onward(next: int, wider: TagChangeSet)

  ghost predicate IsTurn(
    t: PackageType, repo: seq<Commit>, report: Endpoint, last: int, endRev: nat, chunkSize: nat, since: Instant, turn: Turn)
    requires last <= endRev <= |repo| && chunkSize >= 1
  {
    match turn
    case Broken => Breaks(repo, report, last, chunkSize, since)
    case Finished(all) => !Breaks(repo, report, last, chunkSize, since) && IsWindow(t, repo[..endRev], since, all)
    case Onward(next, wider) =>
      && next < last && IsScanned(t, repo, next, endRev, since, wider)
      && (Breaks(repo, report, last, chunkSize, since) <==> Breaks(repo, report, next, chunkSize, since))
  }

  method ScanTurn(
    t: PackageType, ghost repo: seq<Commit>, report: Endpoint, last: int, ghost endRev: nat, chunkSize: nat,
    since: Instant, now: Instant, acc: TagChangeSet)
    returns (turn: Turn)
    requires last > 0 && IsScanned(t, repo, last, endRev, since, acc)
    requires IsRepository(repo) && IsEndpoint(repo, report) && AreDatesOrdered(repo[..endRev])
    requires 1 <= chunkSize <= SVN_LOG_LIMIT
    ensures IsTurn(t, repo, report, last, endRev, chunkSize, since, turn)
  {
    var first := last - chunkSize + 1;
    if first < 1 { first := 1; }
    assert first == ChunkStart(last, chunkSize);
    var log, wider := ScanChunk(t, repo, report, first, last, endRev, since, now, acc);
    if log.None? {
      return Broken;
    }
    BreaksStep(repo, report, last, endRev, chunkSize, since, log.value);
    if log.value.minDate != ZERO && log.value.minDate < since {
      EarlyStopLosesNothing(t, repo, first, last, endRev, log.value, since, wider);
      return Finished(wider);
    }
    return Onward(first - 1, wider);
  }

  /** One turn of the scan: fetches a chunk and widens the window to it. */
  method ScanChunk(
    t: PackageType, ghost repo: seq<Commit>, report: Endpoint, first: int, last: int, ghost endRev: nat,
    since: Instant, now: Instant, acc: TagChangeSet)
    returns (log: Option<Log>, result: TagChangeSet)
    requires 1 <= first <= last <= endRev <= |repo| && IsScanned(t, repo, last, endRev, since, acc)
    requires IsRepository(repo) && IsEndpoint(repo, report) && AreDatesOrdered(repo[..endRev])
    ensures log.None? <==> IsBadChunk(repo, report, first, last)
    ensures log.Some? ==> IsLogOf(log.value.commits, log.value) && IsAnswer(repo, first, last, log.value.commits)
                          && IsComplete(repo, first, last, log.value.commits)
                          && IsScanned(t, repo, first - 1, endRev, since, result)
  {
    result := acc;
    log := FetchChunk(repo, report, first, last);
    if log.Some? {
      var changes := TagChanges(t, log.value.commits);
      CompleteAnswerIsChunk(repo, first, last, log.value.commits);
      SameCommitsSameTagChanges(t, log.value.commits, repo[first - 1..last], changes);
      result := MergeTagChanges(acc, changes, since, now);
      PartsAreDated(repo, first - 1, last, endRev);
      WindowGrows(t, repo[first - 1..last], repo[last..endRev], since, now, acc, changes, result);
      Adjacent(repo, first - 1, last, endRev);
    }
  }

  /** The revisions after last, up to endRev, are accounted for. */
  ghost predicate IsScanned(
    t: PackageType, repo: seq<Commit>, last: int, endRev: int, since: Instant, acc: TagChangeSet)
  {
    0 <= last <= endRev <= |repo| && IsWindow(t, repo[last..endRev], since, acc)
  }

  lemma NothingScanned(t: PackageType, repo: seq<Commit>, endRev: nat, since: Instant)
    requires endRev <= |repo|
    ensures IsScanned(t, repo, endRev, endRev, since, TagChangeSet(map[], map[]))
  {
    assert repo[endRev..endRev] == [];
  }

  lemma AllScanned(t: PackageType, repo: seq<Commit>, endRev: nat, since: Instant, acc: TagChangeSet)
    requires IsScanned(t, repo, 0, endRev, since, acc)
    ensures IsWindow(t, repo[..endRev], since, acc)
  {
    assert repo[0..endRev] == repo[..endRev];
  }

  lemma Adjacent<T>(s: seq<T>, a: nat, b: nat, c: nat)
    requires a <= b <= c <= |s|
    ensures s[a..b] + s[b..c] == s[a..c]
  {}

  lemma EarlyStopLosesNothing(
    t: PackageType, repo: seq<Commit>, first: int, last: int, endRev: nat, log: Log, since: Instant, acc: TagChangeSet)
    requires 1 <= first <= last <= endRev <= |repo| && AreDatesOrdered(repo[..endRev])
    requires IsLogOf(log.commits, log) && IsAnswer(repo, first, last, log.commits)
    requires log.minDate != ZERO && log.minDate < since
    requires IsScanned(t, repo, first - 1, endRev, since, acc)
    ensures IsWindow(t, repo[..endRev], since, acc)
  {
    EarlierIsOlder(repo, first, last, endRev, log, since);
    OlderCommitsDoNotCount(t, repo[..first - 1], repo[first - 1..endRev], since, acc);
    assert repo[..first - 1] + repo[first - 1..endRev] == repo[..endRev];
  }

  lemma PartsAreDated(repo: seq<Commit>, a: nat, b: nat, end: nat)
    requires a <= b <= end <= |repo| && AreDatesOrdered(repo[..end])
    ensures AreDated(repo[a..b]) && AreDated(repo[b..end])
  {
    forall c | c in repo[a..b] ensures c.date > ZERO {
      var i :| a <= i < b && repo[i] == c;
      assert repo[..end][i] == c;
    }
    forall c | c in repo[b..end] ensures c.date > ZERO {
      var i :| b <= i < end && repo[i] == c;
      assert repo[..end][i] == c;
    }
  }

  /** A chunk that holds a commit older than since has only older commits before it. */
  lemma EarlierIsOlder(repo: seq<Commit>, first: int, last: int, end: nat, log: Log, since: Instant)
    requires 1 <= first <= last <= end <= |repo| && AreDatesOrdered(repo[..end])
    requires IsLogOf(log.commits, log) && IsAnswer(repo, first, last, log.commits)
    requires log.minDate != ZERO && log.minDate < since
    ensures forall c :: c in repo[..first - 1] ==> c.date < since
  {
    var d :| d in log.commits && d.date == log.minDate;
    assert repo[..end][d.revision - 1] == d;
    forall c | c in repo[..first - 1] ensures c.date < since {
      var i :| 0 <= i < first - 1 && repo[i] == c;
      assert repo[..end][i] == c;
    }
  }

  /**
   A commit without a date is taken as made now only if no dated commit of its chunk
   touches the same tag, or the same tags directory: the chunk's entry is Go's zero
   time exactly then.
   */
  lemma MissingDateShows(t: PackageType, chunk: seq<Commit>, changes: TagChangeSet, slug: string, tag: string)
    requires AreTagChanges(t, chunk, changes) && forall c :: c in chunk ==> c.date >= ZERO
    ensures ZERO in TagDates(t, chunk, slug, tag) ==>
              (DateOf(changes.tags, slug, tag) == Some(ZERO) <==> TagDates(t, chunk, slug, tag) == {ZERO})
    ensures ZERO in AllDates(t, chunk, slug) ==>
              (Lookup(changes.all, slug) == Some(ZERO) <==> AllDates(t, chunk, slug) == {ZERO})
  {
    if ZERO in TagDates(t, chunk, slug, tag) {
      GreatestIsZero(TagDates(t, chunk, slug, tag), DateOf(changes.tags, slug, tag));
    }
    if ZERO in AllDates(t, chunk, slug) { GreatestIsZero(AllDates(t, chunk, slug), Lookup(changes.all, slug)); }
  }

  const UNDATED := Commit(2, ZERO, ["/a"], [], [], [], {})
  const DATED := Commit(1, 1, ["/a"], [], [], [], {})

  lemma AddsRoot(t: PackageType, c: Commit, slug: string, tag: string)
    requires c == UNDATED || c == DATED
    ensures (TouchesAll(t, c, slug) <==> slug == "a") && !TouchesTag(t, c, slug, tag)
  {
    RootIsAncestor(t);
    assert LoosePaths(c) == ["/a"] && c.added + c.replaced == ["/a"] && "/a" in ["/a"];
  }

  /**
   A chunk that hides a missing date: the package was added again by a commit without a
   date, but a commit before the window sets its entry, and the window leaves it out.
   */
  lemma MissingDateIsHidden(t: PackageType, since: Instant, now: Instant) returns (changes: TagChangeSet)
    requires 1 < since <= now
    ensures AreTagChanges(t, [DATED, UNDATED], changes) && ZERO in AllDates(t, [DATED, UNDATED], "a")
    ensures Clamp(ZERO, since, now) == Some(now)
    ensures MergedDate(None, Lookup(changes.all, "a"), since, now) == None
  {
    changes := TagChangeSet(map[], map["a" := 1]);
    HiddenChanges(t);
    DatesOfBoth(t, "a", "");
  }

  lemma HiddenChanges(t: PackageType)
    ensures AreTagChanges(t, [DATED, UNDATED], TagChangeSet(map[], map["a" := 1]))
  {
    forall slug, tag ensures TagDates(t, [DATED, UNDATED], slug, tag) == {} { DatesOfBoth(t, slug, tag); }
    forall slug ensures AllDates(t, [DATED, UNDATED], slug) == if slug == "a" then {1, ZERO} else {} {
      DatesOfBoth(t, slug, "");
    }
  }

  lemma DatesOfBoth(t: PackageType, slug: string, tag: string)
    ensures TagDates(t, [DATED, UNDATED], slug, tag) == {}
    ensures AllDates(t, [DATED, UNDATED], slug) == if slug == "a" then {1, ZERO} else {}
  {
    AddsRoot(t, DATED, slug, tag);
    AddsRoot(t, UNDATED, slug, tag);
    OnlyCommit(t, DATED, slug, tag);
    OnlyCommit(t, UNDATED, slug, tag);
    assert [DATED] + [UNDATED] == [DATED, UNDATED];
    DatesOfParts(t, [DATED], [UNDATED], slug, tag);
  }

  lemma OnlyCommit(t: PackageType, c: Commit, slug: string, tag: string)
    ensures TagDates(t, [c], slug, tag) == if TouchesTag(t, c, slug, tag) then {c.date} else {}
    ensures AllDates(t, [c], slug) == if TouchesAll(t, c, slug) then {c.date} else {}
  {
    assert forall d :: d in [c] <==> d == c;
  }

  lemma GreatestIsZero(dates: set<Instant>, max: Option<Instant>)
    requires IsMaxOrNone(dates, max) && ZERO in dates && forall d :: d in dates ==> d >= ZERO
    ensures max == Some(ZERO) <==> dates == {ZERO}
  {
    if max == Some(ZERO) {
      assert forall d :: d in dates <==> d == ZERO;
    }
  }
}
