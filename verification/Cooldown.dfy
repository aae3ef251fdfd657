/**
 Published times over whole runs: discover, update, backfill and everything around
 them, one transaction at a time, with a changelog replica that lags, fetches that
 fail and processes that die anywhere.
 */
module Cooldown {
  import opened Text
  import opened Version
  import opened SvnLog
  import opened PublishedTimes
  import opened BackfillScan
  import opened Serialize

  /** How many revisions discover asks for at a time. */
  const SVN_LOG_CHUNK_SIZE := 10_000

  // ----- When a time is too early -----

  /** The tag gives the version a stored key stands for. */
  predicate GivesVersion(tag: string, key: string) {
    Normalize(tag) == Normalize(key) && Normalize(tag) != "" && Normalize(tag) != TRUNK
  }

  /** The commit changes what the version resolves to: its tag, or every tag at once. */
  ghost predicate Changes(t: PackageType, c: Commit, slug: string, key: string) {
    TouchesAll(t, c, slug) || exists tag :: TouchesTag(t, c, slug, tag) && GivesVersion(tag, key)
  }

  /** No stored time of the row is earlier, to the second, than a change in one of the commits. */
  ghost predicate IsSafeRow(t: PackageType, slug: string, row: Row, commits: set<Commit>) {
    row.times.Readable? && !row.closed ==>
      forall c, k :: c in commits && k in row.times.times && Changes(t, c, slug, k) ==>
        StampOf(c.date) <= row.times.times[k]
  }

  // ----- The writers keep rows safe -----

  lemma TagChangeIsReset(
    t: PackageType, log: seq<Commit>, changes: TagChangeSet, c: Commit, slug: string, tag: string)
    requires AreTagChanges(t, log, changes) && c in log && TouchesTag(t, c, slug, tag)
    ensures tag in TagsOf(changes.tags, slug)
  {
    assert c.date in TagDates(t, log, slug, tag);
    assert IsMaxOrNone(TagDates(t, log, slug, tag), DateOf(changes.tags, slug, tag));
  }

  lemma AllChangeIsReset(t: PackageType, log: seq<Commit>, changes: TagChangeSet, c: Commit, slug: string)
    requires AreTagChanges(t, log, changes) && c in log && TouchesAll(t, c, slug)
    ensures slug in changes.all
  {
    assert c.date in AllDates(t, log, slug);
    assert IsMaxOrNone(AllDates(t, log, slug), Lookup(changes.all, slug));
  }

  lemma ChangeIsReset(t: PackageType, log: seq<Commit>, changes: TagChangeSet, c: Commit, slug: string, k: string)
    requires AreTagChanges(t, log, changes) && c in log && Changes(t, c, slug, k)
    ensures IsReset(k, slug in changes.all, ResetKeys(TagsOf(changes.tags, slug)))
  {
    if TouchesAll(t, c, slug) {
      AllChangeIsReset(t, log, changes, c, slug);
    } else {
      var tag :| TouchesTag(t, c, slug, tag) && GivesVersion(tag, k);
      TagChangeIsReset(t, log, changes, c, slug, tag);
    }
  }

  /** What a reset does to one key. */
  lemma RaisedAt(times: map<string, Stamp>, resetAll: bool, toReset: set<string>, stamp: Stamp, k: string)
    requires k in ResetTimes(times, resetAll, toReset, stamp)
    ensures k in times && times[k] <= ResetTimes(times, resetAll, toReset, stamp)[k]
    ensures IsReset(k, resetAll, toReset) ==> stamp <= ResetTimes(times, resetAll, toReset, stamp)[k]
  {}

  /** A reset at a time not before the commits makes the row safe for them, and keeps it safe for others. */
  lemma ResetKeepsSafe(
    t: PackageType, slug: string, row: Row, log: seq<Commit>, changes: TagChangeSet, now: Instant, seen: set<Commit>)
    requires AreTagChanges(t, log, changes) && forall c :: c in log ==> c.date <= now
    requires IsSafeRow(t, slug, row, seen)
    ensures IsSafeRow(t, slug, ResetRow(row, slug in changes.all, TagsOf(changes.tags, slug), StampOf(now)),
                      seen + set c | c in log)
  {
    var stamp := StampOf(now);
    var after := ResetRow(row, slug in changes.all, TagsOf(changes.tags, slug), stamp);
    if row.times.Readable? && !row.closed {
      forall c, k | c in seen + (set c | c in log) && k in after.times.times && Changes(t, c, slug, k)
        ensures StampOf(c.date) <= after.times.times[k]
      {
        RaisedAt(row.times.times, slug in changes.all, ResetKeys(TagsOf(changes.tags, slug)), stamp, k);
        if c in log {
          ChangeIsReset(t, log, changes, c, slug, k);
          StampsAreMonotone(c.date, now);
        }
      }
    }
  }

  /** A reset hits a stored key exactly if a commit of the log changes its version. */
  lemma IsResetIff(t: PackageType, log: seq<Commit>, changes: TagChangeSet, slug: string, k: string)
    requires AreTagChanges(t, log, changes)
    ensures IsReset(k, slug in changes.all, ResetKeys(TagsOf(changes.tags, slug))) <==> IsChanged(t, log, slug, k)
  {
    if c :| c in log && Changes(t, c, slug, k) { ChangeIsReset(t, log, changes, c, slug, k); }
    if slug in changes.all {
      assert changes.all[slug] in AllDates(t, log, slug) by {
        assert IsMaxOrNone(AllDates(t, log, slug), Lookup(changes.all, slug));
      }
      var c :| c in log && TouchesAll(t, c, slug);
      assert Changes(t, c, slug, k);
    } else if IsReset(k, false, ResetKeys(TagsOf(changes.tags, slug))) {
      ResetTagIsChange(t, log, changes, slug, k);
    }
  }

  lemma ResetTagIsChange(t: PackageType, log: seq<Commit>, changes: TagChangeSet, slug: string, k: string)
    requires AreTagChanges(t, log, changes) && Normalize(k) in ResetKeys(TagsOf(changes.tags, slug))
    ensures IsChanged(t, log, slug, k)
  {
    var tag :| tag in TagsOf(changes.tags, slug) && Normalize(tag) != "" && Normalize(tag) != TRUNK
               && Normalize(tag) == Normalize(k);
    assert DateOf(changes.tags, slug, tag).Some?;
    assert IsMaxOrNone(TagDates(t, log, slug, tag), DateOf(changes.tags, slug, tag));
    assert DateOf(changes.tags, slug, tag).value in TagDates(t, log, slug, tag);
    var c :| c in log && TouchesTag(t, c, slug, tag);
    assert GivesVersion(tag, k) && Changes(t, c, slug, k);
  }

  /** Some commit of the log changes the version of the key. */
  ghost predicate IsChanged(t: PackageType, log: seq<Commit>, slug: string, k: string) {
    exists c :: c in log && Changes(t, c, slug, k)
  }

  /** The time of one key after a reset from a log. */
  ghost predicate IsResetTime(
    t: PackageType, log: seq<Commit>, slug: string, k: string, before: Stamp, stamp: Stamp, after: Stamp)
  {
    after == if before < stamp && IsChanged(t, log, slug, k) then stamp else before
  }

  /**
   What a reset from a log does to a row: only open rows with readable times change, no
   key comes or goes, and a time becomes the stamp exactly if it was earlier and a
   commit of the log changes its version.
   */
  lemma ResetMeans(t: PackageType, slug: string, row: Row, log: seq<Commit>, changes: TagChangeSet, stamp: Stamp)
    requires AreTagChanges(t, log, changes)
    ensures var after := ResetRow(row, slug in changes.all, TagsOf(changes.tags, slug), stamp);
            if row.closed || !row.times.Readable? then after == row
            else
              && after.versions == row.versions && !after.closed && after.times.Readable?
              && after.times.times.Keys == row.times.times.Keys
              && forall k :: k in row.times.times ==>
                   IsResetTime(t, log, slug, k, row.times.times[k], stamp, after.times.times[k])
  {
    if !row.closed && row.times.Readable? {
      var keys := ResetKeys(TagsOf(changes.tags, slug));
      forall k | k in row.times.times
        ensures IsResetTime(t, log, slug, k, row.times.times[k], stamp,
                            ResetTimes(row.times.times, slug in changes.all, keys, stamp)[k])
      {
        IsResetIff(t, log, changes, slug, k);
      }
    }
  }

  lemma MergeKeepsSafe(
    t: PackageType, slug: string, row: Row, versions: map<string, string>, now: Instant, seen: set<Commit>)
    requires IsSafeRow(t, slug, row, seen) && forall c :: c in seen ==> c.date <= now
    ensures IsSafeRow(t, slug, UpdatedRow(row, versions, now), seen)
  {
    var after := UpdatedRow(row, versions, now);
    if after.times.Readable? && !row.closed {
      forall c, k | c in seen && k in after.times.times && Changes(t, c, slug, k)
        ensures StampOf(c.date) <= after.times.times[k]
      {
        StampsAreMonotone(c.date, now);
      }
    }
  }

  lemma WindowCoversAll(
    t: PackageType, commits: seq<Commit>, since: Instant, changes: TagChangeSet, c: Commit, slug: string)
    requires IsWindow(t, commits, since, changes) && c in commits && c.date >= since && TouchesAll(t, c, slug)
    ensures slug in changes.all && c.date <= changes.all[slug]
  {
    assert c.date in Since(AllDates(t, commits, slug), since);
    assert IsMaxOrNone(Since(AllDates(t, commits, slug), since), Lookup(changes.all, slug));
  }

  lemma WindowCoversTag(
    t: PackageType, commits: seq<Commit>, since: Instant, changes: TagChangeSet, c: Commit, slug: string, tag: string)
    requires IsWindow(t, commits, since, changes) && c in commits && c.date >= since && TouchesTag(t, c, slug, tag)
    ensures var tags := TagDatesOf(changes.tags, slug); tag in tags && c.date <= tags[tag]
  {
    assert c.date in Since(TagDates(t, commits, slug, tag), since);
    assert IsMaxOrNone(Since(TagDates(t, commits, slug, tag), since), DateOf(changes.tags, slug, tag));
  }

  /** A scan of the commits from since on finds a time for the version that is not before c. */
  ghost predicate IsSeen(t: PackageType, commits: seq<Commit>, since: Instant, slug: string, k: string, c: Commit) {
    || StampOf(c.date) <= StampOf(since) || StampOf(c.date) <= StampOf(ZERO)
    || exists d :: d in commits && d.date >= since && StampOf(c.date) <= StampOf(d.date) && Gives(t, d, slug, Normalize(k))
  }

  /** The commit changes every tag, or one that normalizes to the version. */
  ghost predicate Gives(t: PackageType, d: Commit, slug: string, version: string) {
    TouchesAll(t, d, slug) || (version != "" && exists tag :: TouchesTag(t, d, slug, tag) && Normalize(tag) == version)
  }

  lemma WindowHoldsCommit(
    t: PackageType, commits: seq<Commit>, since: Instant, changes: TagChangeSet, slug: string, version: string, d: Instant)
    requires IsWindow(t, commits, since, changes)
    requires d in BackfillDates(TagDatesOf(changes.tags, slug), Lookup(changes.all, slug), since, version)
    requires d != since && d != ZERO
    ensures exists c :: c in commits && c.date == d >= since && Gives(t, c, slug, version)
  {
    DateFrom(TagDatesOf(changes.tags, slug), Lookup(changes.all, slug), since, version, d);
    if Lookup(changes.all, slug) == Some(d) {
      AllHoldsCommit(t, commits, since, changes, slug, d);
    } else {
      var tags := TagDatesOf(changes.tags, slug);
      var tag :| tag in tags && Normalize(tag) == version && version != "" && tags[tag] == d;
      TagHoldsCommit(t, commits, since, changes, slug, tag, d);
    }
  }

  lemma DateFrom(tags: map<string, Instant>, all: Option<Instant>, since: Instant, version: string, d: Instant)
    requires d in BackfillDates(tags, all, since, version) && d != since && d != ZERO
    ensures all == Some(d) || exists tag :: tag in tags && Normalize(tag) == version && version != "" && tags[tag] == d
  {}

  lemma AllHoldsCommit(
    t: PackageType, commits: seq<Commit>, since: Instant, changes: TagChangeSet, slug: string, d: Instant)
    requires IsWindow(t, commits, since, changes) && Lookup(changes.all, slug) == Some(d)
    ensures exists c :: c in commits && c.date == d >= since && TouchesAll(t, c, slug)
  {
    assert IsMaxOrNone(Since(AllDates(t, commits, slug), since), Some(d));
    assert d in Since(AllDates(t, commits, slug), since);
  }

  lemma TagHoldsCommit(
    t: PackageType, commits: seq<Commit>, since: Instant, changes: TagChangeSet, slug: string, tag: string, d: Instant)
    requires IsWindow(t, commits, since, changes) && DateOf(changes.tags, slug, tag) == Some(d)
    ensures exists c :: c in commits && c.date == d >= since && TouchesTag(t, c, slug, tag)
  {
    assert IsMaxOrNone(Since(TagDates(t, commits, slug, tag), since), Some(d));
    assert d in Since(TagDates(t, commits, slug, tag), since);
  }

  lemma CommitIsInWindow(
    t: PackageType, commits: seq<Commit>, since: Instant, changes: TagChangeSet, slug: string, version: string, c: Commit)
    requires IsWindow(t, commits, since, changes) && c in commits && c.date >= since && Gives(t, c, slug, version)
    ensures exists d :: d in BackfillDates(TagDatesOf(changes.tags, slug), Lookup(changes.all, slug), since, version)
                        && c.date <= d
  {
    var tags := TagDatesOf(changes.tags, slug);
    var dates := BackfillDates(tags, Lookup(changes.all, slug), since, version);
    if TouchesAll(t, c, slug) {
      WindowCoversAll(t, commits, since, changes, c, slug);
      assert changes.all[slug] in dates;
    } else {
      var tag :| TouchesTag(t, c, slug, tag) && Normalize(tag) == version;
      WindowCoversTag(t, commits, since, changes, c, slug, tag);
      assert tags[tag] in VersionDates(tags, version);
      assert tags[tag] in dates;
    }
  }

  /** The time a backfill stores is late enough exactly if the scan sees the change. */
  lemma BackfilledLateIff(
    t: PackageType, commits: seq<Commit>, since: Instant, changes: TagChangeSet, slug: string, k: string, c: Commit)
    requires IsWindow(t, commits, since, changes)
    ensures StampOf(c.date) <= BackfilledStamp(TagDatesOf(changes.tags, slug), Lookup(changes.all, slug), since, k)
            <==> IsSeen(t, commits, since, slug, k, c)
  {
    var dates := BackfillDates(TagDatesOf(changes.tags, slug), Lookup(changes.all, slug), since, Normalize(k));
    var max := Max(dates);
    assert since in dates && ZERO in dates && max in dates;
    StampsAreMonotone(since, max);
    StampsAreMonotone(ZERO, max);
    if StampOf(c.date) <= StampOf(max) {
      if max != since && max != ZERO { WindowHoldsCommit(t, commits, since, changes, slug, Normalize(k), max); }
    }
    if IsSeen(t, commits, since, slug, k, c) { SeenIsLate(t, commits, since, changes, slug, k, c); }
  }

  lemma SeenIsLate(
    t: PackageType, commits: seq<Commit>, since: Instant, changes: TagChangeSet, slug: string, k: string, c: Commit)
    requires IsWindow(t, commits, since, changes) && IsSeen(t, commits, since, slug, k, c)
    ensures StampOf(c.date) <= BackfilledStamp(TagDatesOf(changes.tags, slug), Lookup(changes.all, slug), since, k)
  {
    var dates := BackfillDates(TagDatesOf(changes.tags, slug), Lookup(changes.all, slug), since, Normalize(k));
    assert since in dates && ZERO in dates;
    StampsAreMonotone(since, Max(dates));
    StampsAreMonotone(ZERO, Max(dates));
    if StampOf(c.date) > StampOf(since) && StampOf(c.date) > StampOf(ZERO) {
      var d :| d in commits && d.date >= since && StampOf(c.date) <= StampOf(d.date) && Gives(t, d, slug, Normalize(k));
      CommitIsInWindow(t, commits, since, changes, slug, Normalize(k), d);
      var later :| later in dates && d.date <= later;
      StampsAreMonotone(d.date, Max(dates));
    }
  }

  /** The scan sees every change of the row's versions in the given commits. */
  ghost predicate SeesRow(
    t: PackageType, commits: seq<Commit>, since: Instant, slug: string, row: Row, seen: set<Commit>) {
    forall c, k :: c in seen && k in row.versions && k != TRUNK && Changes(t, c, slug, k) ==>
      IsSeen(t, commits, since, slug, k, c)
  }

  /** A row without times is safe after a backfill exactly if the scan sees every processed change of its versions. */
  lemma BackfillIsSafeIff(
    t: PackageType, slug: string, row: Row, commits: seq<Commit>, since: Instant, changes: TagChangeSet, seen: set<Commit>)
    requires IsWindow(t, commits, since, changes) && row.times.Null? && !row.closed
    ensures IsSafeRow(t, slug, BackfilledRow(row, slug, changes, since), seen)
            <==> SeesRow(t, commits, since, slug, row, seen)
  {
    var after := BackfilledRow(row, slug, changes, since);
    forall c, k | c in seen && k in row.versions && k != TRUNK
      ensures k in after.times.times && (StampOf(c.date) <= after.times.times[k] <==> IsSeen(t, commits, since, slug, k, c))
    {
      BackfilledLateIff(t, commits, since, changes, slug, k, c);
    }
    if !SeesRow(t, commits, since, slug, row, seen) {
      var c, k :| c in seen && k in row.versions && k != TRUNK && Changes(t, c, slug, k)
                  && !IsSeen(t, commits, since, slug, k, c);
      assert k in after.times.times && !(StampOf(c.date) <= after.times.times[k]);
    }
  }

  /** A scan sees every change in its own commits, however old. */
  lemma OwnCommitsAreSeen(t: PackageType, commits: seq<Commit>, since: Instant, slug: string, k: string, c: Commit)
    requires c in commits && Changes(t, c, slug, k)
    ensures IsSeen(t, commits, since, slug, k, c)
  {
    if c.date < since { StampsAreMonotone(c.date, since); }
  }

  /** The row an update writes; a package without times yet keeps none unless it had no versions. */
  function UpdatedRow(row: Row, versions: map<string, string>, now: Instant): Row {
    Row(versions, Merged(versions.Keys, row.versions != map[], row.times, now), row.closed)
  }

  // ----- The pipeline -----

  /**
   Where a discover run stands: at the top of its loop, with an answer in hand, with
   the reset committed but not the marking, or after the loop. last is the watermark
   it started from, cursor how far it has scanned, head the listed revision.
   */
  datatype Phase =
    | Idle
    | Scanning(last: nat, cursor: nat, head: nat)
    | Answered(last: nat, cursor: nat, head: nat, log: seq<Commit>)
    | Stamped(last: nat, cursor: nat, head: nat, log: seq<Commit>)
    | Leaving(last: nat, cursor: nat)

  /**
   The database, the SVN repository and the clock, with four history variables: the
   first watermark stored, the highest revision a REPORT returned, and the revisions
   whose resets and whose markings were committed.
   */
  datatype State = State(
    t: PackageType, rows: map<string, Row>, watermark: nat, phase: Phase,
    repo: seq<Commit>, clock: Instant,
    baseline: nat, reported: nat, stamped: set<nat>, marked: set<nat>)

  datatype Step =
    | Tick(now: Instant)
    | CommitToSvn(commit: Commit)
    | AddShell(slug: string)
    | Tombstone(slug: string)
    | Corrupt(slug: string)
    | UpdatePackage(slug: string, versions: map<string, string>, now: Instant)
    | Backfill(head: nat, since: Instant, changes: TagChangeSet)
    | StartDiscover(head: nat)
    | Fetch(replica: nat, log: seq<Commit>)
    | FetchFails
    | Reset(changes: TagChangeSet, now: Instant)
    | MarkChanged
    | StoreWatermark
    | Crash

  function ChunkEnd(cursor: nat, head: nat): nat {
    if cursor + SVN_LOG_CHUNK_SIZE < head then cursor + SVN_LOG_CHUNK_SIZE else head
  }

  function Min(a: nat, b: nat): nat {
    if a < b then a else b
  }

  /** A REPORT answer for the revisions after cursor holds every one of them up to the replica's head, once each. */
  ghost predicate IsReport(repo: seq<Commit>, cursor: nat, last: nat, replica: nat, log: seq<Commit>) {
    && replica <= |repo|
    && IsAnswer(repo, cursor + 1, Min(last, replica), log)
    && IsComplete(repo, cursor + 1, Min(last, replica), log)
  }

  ghost function MaxRev(log: seq<Commit>): int {
    if Revisions(log) == {} then 0 else Max(Revisions(log))
  }

  /** The hypotheses about the surroundings, and the order of the steps of one run. */
  ghost predicate IsEnabled(s: State, step: Step) {
    match step
    case Tick(now) => s.clock <= now
    case CommitToSvn(c) => c.revision == |s.repo| + 1 && c.date <= s.clock
    case AddShell(slug) => slug !in s.rows
    case Tombstone(slug) => slug in s.rows
    case Corrupt(slug) => slug in s.rows
    case UpdatePackage(slug, versions, now) => s.phase.Idle? && slug in s.rows && s.clock <= now
    case Backfill(head, since, changes) =>
      s.phase.Idle? && head <= |s.repo| && IsWindow(s.t, s.repo[..head], since, changes) && SeesProcessed(s, head, since)
    case StartDiscover(head) => s.phase.Idle? && head <= |s.repo| && head > 0
    case Fetch(replica, log) =>
      s.phase.Scanning? && s.phase.cursor < s.phase.head
      && IsReport(s.repo, s.phase.cursor, ChunkEnd(s.phase.cursor, s.phase.head), replica, log)
    case FetchFails => s.phase.Scanning? && s.phase.cursor < s.phase.head
    case Reset(changes, now) => s.phase.Answered? && AreTagChanges(s.t, s.phase.log, changes) && s.clock <= now
    case MarkChanged => s.phase.Stamped?
    case StoreWatermark => s.phase.Leaving? || (s.phase.Scanning? && s.phase.cursor >= s.phase.head)
    case Crash => true
  }

  function Above(revisions: set<nat>, head: nat): set<nat> {
    set r | r in revisions && r > head
  }

  /**
   A backfill that lists revisions up to head sees what discover has processed above it:
   for every version it will stamp, the window holds a change at least as late.
   */
  ghost predicate SeesProcessed(s: State, head: nat, since: Instant)
    requires head <= |s.repo|
  {
    forall slug :: slug in s.rows ==> SeesProcessedOf(s, head, since, slug)
  }

  ghost predicate SeesProcessedOf(s: State, head: nat, since: Instant, slug: string)
    requires head <= |s.repo| && slug in s.rows
  {
    s.rows[slug].times.Null? && !s.rows[slug].closed ==>
      SeesRow(s.t, s.repo[..head], since, slug, s.rows[slug], CommitsAt(s.repo, Above(s.stamped, head)))
  }

  ghost function RevisionsOf(log: seq<Commit>): set<nat> {
    set c | c in log && c.revision >= 0 :: c.revision
  }

  /** Where the loop goes after a chunk: on, or out if the replica lags. */
  ghost function AfterChunk(p: Phase): Phase
    requires p.Stamped?
  {
    var maxRev := MaxRev(p.log);
    if maxRev <= p.cursor then Leaving(p.last, p.cursor)
    else if maxRev < ChunkEnd(p.cursor, p.head) then Leaving(p.last, maxRev)
    else Scanning(p.last, maxRev, p.head)
  }

  ghost function Next(s: State, step: Step): State {
    match step
    case Tick(now) => s.(clock := now)
    case CommitToSvn(c) => s.(repo := s.repo + [c])
    case AddShell(slug) => s.(rows := s.rows[slug := Row(map[], Null, false)])
    case Tombstone(slug) => if slug in s.rows then s.(rows := s.rows[slug := s.rows[slug].(closed := true)]) else s
    case Corrupt(slug) => if slug in s.rows then s.(rows := s.rows[slug := s.rows[slug].(times := Unreadable)]) else s
    case UpdatePackage(slug, versions, now) =>
      if slug in s.rows then s.(rows := s.rows[slug := UpdatedRow(s.rows[slug], versions, now)]) else s
    case Backfill(head, since, changes) => s.(rows := BackfilledRows(s.rows, changes, since))
    case StartDiscover(head) =>
      if s.watermark == 0 then s.(watermark := head, baseline := head)
      else s.(phase := Scanning(s.watermark, s.watermark, head))
    case Fetch(replica, log) =>
      if !s.phase.Scanning? then s
      else s.(phase := Answered(s.phase.last, s.phase.cursor, s.phase.head, log),
              reported := if MaxRev(log) > s.reported then MaxRev(log) else s.reported)
    case FetchFails => if !s.phase.Scanning? then s else s.(watermark := s.phase.cursor, phase := Idle)
    case Reset(changes, now) =>
      if !s.phase.Answered? then s
      else s.(rows := ResetRows(s.rows, changes, StampOf(now)), stamped := s.stamped + RevisionsOf(s.phase.log),
              phase := Stamped(s.phase.last, s.phase.cursor, s.phase.head, s.phase.log))
    case MarkChanged =>
      if !s.phase.Stamped? then s
      else s.(marked := s.marked + RevisionsOf(s.phase.log), phase := AfterChunk(s.phase))
    case StoreWatermark =>
      if s.phase.Leaving? || s.phase.Scanning? then s.(watermark := s.phase.cursor, phase := Idle) else s
    case Crash => s.(phase := Idle)
  }

  ghost predicate IsRun(s: State, steps: seq<Step>)
    decreases |steps|
  {
    steps == [] || (IsEnabled(s, steps[0]) && IsRun(Next(s, steps[0]), steps[1..]))
  }

  ghost function Run(s: State, steps: seq<Step>): State
    decreases |steps|
  {
    if steps == [] then s else Run(Next(s, steps[0]), steps[1..])
  }

  /** Before the first run: no watermark, and no package has published times. */
  ghost predicate IsInitial(s: State) {
    && (forall slug :: slug in s.rows ==> s.rows[slug].times.Null?)
    && s.watermark == 0 && s.phase == Idle && s.baseline == 0 && s.reported == 0
    && s.stamped == {} && s.marked == {}
    && IsRepository(s.repo) && forall c :: c in s.repo ==> c.date <= s.clock
  }

  // ----- Invariants -----

  ghost function CommitsAt(repo: seq<Commit>, revisions: set<nat>): set<Commit> {
    set r | r in revisions && 1 <= r <= |repo| :: repo[r - 1]
  }

  /** No open package stores a time earlier than a processed change to the version. */
  ghost predicate IsSafe(s: State) {
    AreSafe(s.t, s.rows, CommitsAt(s.repo, s.stamped))
  }

  ghost predicate AreSafe(t: PackageType, rows: map<string, Row>, seen: set<Commit>) {
    forall slug :: slug in rows ==> IsSafeRow(t, slug, rows[slug], seen)
  }

  ghost predicate AreDatedBy(repo: seq<Commit>, clock: Instant) {
    forall c :: c in repo ==> c.date <= clock
  }

  ghost predicate AreUpTo(revisions: set<nat>, head: nat) {
    forall r :: r in revisions ==> 1 <= r <= head
  }

  ghost predicate IsWorldSound(s: State) {
    && IsRepository(s.repo) && AreDatedBy(s.repo, s.clock)
    && AreUpTo(s.stamped, |s.repo|) && s.marked <= s.stamped
  }

  /** Every revision between the baseline and r has been reset and marked. */
  ghost predicate IsCovered(s: State, r: nat) {
    AreMarked(s.marked, s.baseline, r)
  }

  ghost predicate AreMarked(marked: set<nat>, baseline: nat, r: nat) {
    baseline <= r && forall i: nat :: baseline < i <= r ==> i in marked
  }

  function Bound(s: State): nat {
    if s.baseline > s.reported then s.baseline else s.reported
  }

  ghost predicate IsPhaseSound(s: State) {
    s.phase.Idle? || (IsInRun(s) && HasChunk(s))
  }

  /** A run in progress: it started at the watermark, and what lies below its cursor is covered. */
  ghost predicate IsInRun(s: State)
    requires !s.phase.Idle?
  {
    && s.phase.last == s.watermark && s.watermark > 0 && s.watermark <= s.phase.cursor <= Bound(s)
    && IsCovered(s, s.phase.cursor)
    && (!s.phase.Leaving? ==> s.phase.head <= |s.repo|)
    && (s.phase.Answered? || s.phase.Stamped? ==> s.phase.cursor < s.phase.head)
  }

  /** The answer in hand holds the requested revisions up to some point. */
  ghost predicate HasChunk(s: State) {
    && (s.phase.Answered? || s.phase.Stamped? ==>
          MaxRev(s.phase.log) <= s.reported
          && IsSomeReport(s.repo, s.phase.cursor, ChunkEnd(s.phase.cursor, s.phase.head), s.phase.log))
    && (s.phase.Stamped? ==> RevisionsOf(s.phase.log) <= s.stamped)
  }

  ghost predicate IsSomeReport(repo: seq<Commit>, cursor: nat, last: nat, log: seq<Commit>) {
    exists replica: nat :: IsReport(repo, cursor, last, replica, log)
  }

  ghost predicate IsWatermarkSound(s: State) {
    if s.watermark == 0 then s.baseline == 0
    else IsCovered(s, s.watermark) && s.watermark <= Bound(s)
  }

  ghost predicate Inv(s: State) {
    IsWorldSound(s) && IsSafe(s) && IsWatermarkSound(s) && IsPhaseSound(s)
  }

  // ----- Lemmas about answers -----

  lemma ReportShape(repo: seq<Commit>, cursor: nat, last: nat, replica: nat, log: seq<Commit>)
    requires IsRepository(repo) && IsReport(repo, cursor, last, replica, log)
    ensures forall c :: c in log ==> c in repo && c.revision > cursor
    ensures forall r: nat :: r in RevisionsOf(log) <==> cursor < r <= Min(last, replica)
    ensures Min(last, replica) <= |repo|
  {
    var end := Min(last, replica);
    forall r: nat ensures r in RevisionsOf(log) <==> cursor < r <= end {
      if cursor < r <= end {
        assert repo[r - 1] in log && repo[r - 1].revision == r;
      }
    }
  }

  lemma ReportMax(repo: seq<Commit>, cursor: nat, last: nat, replica: nat, log: seq<Commit>)
    requires IsRepository(repo) && IsReport(repo, cursor, last, replica, log)
    ensures MaxRev(log) == if cursor < Min(last, replica) then Min(last, replica) else 0
  {
    var end := Min(last, replica);
    ReportShape(repo, cursor, last, replica, log);
    if cursor < end {
      assert end in RevisionsOf(log);
      assert end in Revisions(log);
      MaxIs(Revisions(log), end);
    } else {
      assert forall r :: r in Revisions(log) ==> r in RevisionsOf(log);
    }
  }

  lemma ReportSurvivesCommit(repo: seq<Commit>, c: Commit, cursor: nat, last: nat, replica: nat, log: seq<Commit>)
    requires IsReport(repo, cursor, last, replica, log)
    ensures IsReport(repo + [c], cursor, last, replica, log)
  {
    var end := Min(last, replica);
    forall i | cursor <= i < end ensures (repo + [c])[i] in log { assert repo[i] in log; }
  }

  lemma CommitsAtAppend(repo: seq<Commit>, c: Commit, revisions: set<nat>)
    requires forall r :: r in revisions ==> r <= |repo|
    ensures CommitsAt(repo + [c], revisions) == CommitsAt(repo, revisions)
  {
    forall r | r in revisions && 1 <= r <= |repo| ensures (repo + [c])[r - 1] == repo[r - 1] {}
  }

  lemma CommitsAtReport(repo: seq<Commit>, seen: set<nat>, cursor: nat, last: nat, replica: nat, log: seq<Commit>)
    requires IsRepository(repo) && IsReport(repo, cursor, last, replica, log)
    ensures CommitsAt(repo, seen + RevisionsOf(log)) == CommitsAt(repo, seen) + set c | c in log
  {
    ReportShape(repo, cursor, last, replica, log);
    forall c | c in log ensures c in CommitsAt(repo, seen + RevisionsOf(log)) {
      assert c == repo[c.revision - 1] && c.revision in RevisionsOf(log);
    }
    forall r | r in RevisionsOf(log) && 1 <= r <= |repo| ensures repo[r - 1] in log {
      var c :| c in log && c.revision == r;
    }
  }

  // ----- Every step keeps the invariant -----

  lemma CommitKeepsWorld(s: State, c: Commit)
    requires IsWorldSound(s) && IsEnabled(s, CommitToSvn(c))
    ensures IsWorldSound(Next(s, CommitToSvn(c)))
  {
    RepoGrows(s.repo, c, s.clock);
  }

  lemma RepoGrows(repo: seq<Commit>, c: Commit, clock: Instant)
    requires IsRepository(repo) && AreDatedBy(repo, clock) && c.revision == |repo| + 1 && c.date <= clock
    ensures IsRepository(repo + [c]) && AreDatedBy(repo + [c], clock)
  {}

  lemma CommitKeepsChunk(s: State, c: Commit)
    requires HasChunk(s)
    ensures HasChunk(Next(s, CommitToSvn(c)))
  {
    if s.phase.Answered? || s.phase.Stamped? {
      var end := ChunkEnd(s.phase.cursor, s.phase.head);
      var replica: nat :| IsReport(s.repo, s.phase.cursor, end, replica, s.phase.log);
      ReportSurvivesCommit(s.repo, c, s.phase.cursor, end, replica, s.phase.log);
    }
  }

  lemma CommitKeepsInv(s: State, c: Commit)
    requires Inv(s) && IsEnabled(s, CommitToSvn(c))
    ensures Inv(Next(s, CommitToSvn(c)))
  {
    CommitsAtAppend(s.repo, c, s.stamped);
    CommitKeepsWorld(s, c);
    CommitKeepsChunk(s, c);
    SameWatermark(s, Next(s, CommitToSvn(c)));
    if !s.phase.Idle? { CommitKeepsRun(s, c); }
  }

  lemma CommitKeepsRun(s: State, c: Commit)
    requires !s.phase.Idle? && IsInRun(s)
    ensures IsInRun(s.(repo := s.repo + [c]))
  {
    assert IsCovered(s.(repo := s.repo + [c]), s.phase.cursor);
  }

  lemma SeenCommits(s: State, c: Commit)
    requires IsWorldSound(s) && c in CommitsAt(s.repo, s.stamped)
    ensures c in s.repo && c.date <= s.clock
  {
    var r :| r in s.stamped && 1 <= r <= |s.repo| && s.repo[r - 1] == c;
  }

  lemma UpdateKeepsInv(s: State, slug: string, versions: map<string, string>, now: Instant)
    requires Inv(s) && IsEnabled(s, UpdatePackage(slug, versions, now))
    ensures Inv(Next(s, UpdatePackage(slug, versions, now)))
  {
    forall c | c in CommitsAt(s.repo, s.stamped) ensures c.date <= now { SeenCommits(s, c); }
    MergeKeepsSafe(s.t, slug, s.rows[slug], versions, now, CommitsAt(s.repo, s.stamped));
    RowKeepsInv(s, slug, UpdatedRow(s.rows[slug], versions, now));
  }

  /**
   A backfill from any listed head leaves every stored time safe exactly if it sees the
   processed changes above that head.
   */
  lemma BackfillKeepsSafeIff(s: State, head: nat, since: Instant, changes: TagChangeSet)
    requires IsWorldSound(s) && IsSafe(s) && head <= |s.repo| && IsWindow(s.t, s.repo[..head], since, changes)
    ensures IsSafe(Next(s, Backfill(head, since, changes))) <==> SeesProcessed(s, head, since)
  {
    var seen := CommitsAt(s.repo, s.stamped);
    var after := BackfilledRows(s.rows, changes, since);
    BackfilledIsSafe(s, head, since, changes);
    if SeesProcessed(s, head, since) {
      forall slug | slug in after ensures IsSafeRow(s.t, slug, after[slug], seen) {
        BackfillRowIff(s, head, since, changes, slug);
      }
    } else {
      var slug :| slug in s.rows && !SeesProcessedOf(s, head, since, slug);
      BackfillRowIff(s, head, since, changes, slug);
      assert slug in after && !IsSafeRow(s.t, slug, after[slug], seen);
    }
  }

  lemma BackfillRowIff(s: State, head: nat, since: Instant, changes: TagChangeSet, slug: string)
    requires IsWorldSound(s) && slug in s.rows && head <= |s.repo| && IsWindow(s.t, s.repo[..head], since, changes)
    requires IsSafeRow(s.t, slug, s.rows[slug], CommitsAt(s.repo, s.stamped))
    ensures IsSafeRow(s.t, slug, BackfilledRow(s.rows[slug], slug, changes, since), CommitsAt(s.repo, s.stamped))
            <==> SeesProcessedOf(s, head, since, slug)
  {
    var row := s.rows[slug];
    if row.times.Null? && !row.closed {
      BackfillIsSafeIff(s.t, slug, row, s.repo[..head], since, changes, CommitsAt(s.repo, s.stamped));
      OnlyLaterCount(s, head, since, slug);
    }
  }

  lemma BackfilledIsSafe(s: State, head: nat, since: Instant, changes: TagChangeSet)
    ensures IsSafe(Next(s, Backfill(head, since, changes))) <==>
            AreSafe(s.t, BackfilledRows(s.rows, changes, since), CommitsAt(s.repo, s.stamped))
  {}

  lemma OnlyLaterCount(s: State, head: nat, since: Instant, slug: string)
    requires IsWorldSound(s) && head <= |s.repo| && slug in s.rows && s.rows[slug].times.Null? && !s.rows[slug].closed
    ensures SeesProcessedOf(s, head, since, slug) <==>
            SeesRow(s.t, s.repo[..head], since, slug, s.rows[slug], CommitsAt(s.repo, s.stamped))
  {
    OnlyLaterIsUnseen(s.t, s.repo, s.stamped, head, since, slug, s.rows[slug]);
  }

  lemma OnlyLaterIsUnseen(
    t: PackageType, repo: seq<Commit>, stamped: set<nat>, head: nat, since: Instant, slug: string, row: Row)
    requires head <= |repo|
    ensures SeesRow(t, repo[..head], since, slug, row, CommitsAt(repo, Above(stamped, head))) <==>
            SeesRow(t, repo[..head], since, slug, row, CommitsAt(repo, stamped))
  {
    var seen, later := CommitsAt(repo, stamped), CommitsAt(repo, Above(stamped, head));
    forall c, k | c in seen && c !in later && Changes(t, c, slug, k) ensures IsSeen(t, repo[..head], since, slug, k, c) {
      EarlierIsListed(repo, stamped, head, c);
      OwnCommitsAreSeen(t, repo[..head], since, slug, k, c);
    }
    assert later <= seen;
  }

  lemma EarlierIsListed(repo: seq<Commit>, stamped: set<nat>, head: nat, c: Commit)
    requires head <= |repo| && c in CommitsAt(repo, stamped) && c !in CommitsAt(repo, Above(stamped, head))
    ensures c in repo[..head]
  {
    var r :| r in stamped && 1 <= r <= |repo| && repo[r - 1] == c;
    assert r in Above(stamped, head) ==> c in CommitsAt(repo, Above(stamped, head));
    assert repo[..head][r - 1] == c;
  }

  lemma BackfillKeepsInv(s: State, head: nat, since: Instant, changes: TagChangeSet)
    requires Inv(s) && IsEnabled(s, Backfill(head, since, changes))
    ensures Inv(Next(s, Backfill(head, since, changes)))
  {
    BackfillKeepsSafeIff(s, head, since, changes);
    RowsOnly(s, BackfilledRows(s.rows, changes, since));
  }

  lemma FetchGivesChunk(s: State, replica: nat, log: seq<Commit>)
    requires IsEnabled(s, Fetch(replica, log))
    ensures HasChunk(Next(s, Fetch(replica, log)))
  {
    assert IsReport(s.repo, s.phase.cursor, ChunkEnd(s.phase.cursor, s.phase.head), replica, log);
  }

  /** What does not touch rows, revisions or the clock leaves the world sound and the rows safe. */
  lemma SameWorld(s: State, e: State)
    requires IsWorldSound(s) && IsSafe(s) && e.t == s.t && e.rows == s.rows && e.repo == s.repo && e.clock == s.clock
    requires e.stamped == s.stamped && e.marked == s.marked
    ensures IsWorldSound(e) && IsSafe(e)
  {}

  /** More reported revisions leave the watermark sound. */
  lemma SameWatermark(s: State, e: State)
    requires IsWatermarkSound(s) && e.watermark == s.watermark && e.baseline == s.baseline && e.marked == s.marked
    requires s.reported <= e.reported
    ensures IsWatermarkSound(e)
  {}

  lemma FetchKeepsRun(s: State, e: State, log: seq<Commit>)
    requires s.phase.Scanning? && s.phase.cursor < s.phase.head && IsInRun(s)
    requires e.phase == Answered(s.phase.last, s.phase.cursor, s.phase.head, log)
    requires e.watermark == s.watermark && e.baseline == s.baseline && s.reported <= e.reported
    requires e.marked == s.marked && e.repo == s.repo
    ensures IsInRun(e)
  {}

  lemma FetchKeepsInv(s: State, replica: nat, log: seq<Commit>)
    requires Inv(s) && IsEnabled(s, Fetch(replica, log))
    ensures Inv(Next(s, Fetch(replica, log)))
  {
    var e := Next(s, Fetch(replica, log));
    FetchGivesChunk(s, replica, log);
    FetchKeepsRun(s, e, log);
    SameWorld(s, e);
    SameWatermark(s, e);
  }

  lemma ResetIsSafe(s: State, changes: TagChangeSet, now: Instant)
    requires Inv(s) && IsEnabled(s, Reset(changes, now))
    ensures IsSafe(Next(s, Reset(changes, now)))
  {
    var Answered(last, cursor, head, log) := s.phase;
    var replica: nat :| IsReport(s.repo, cursor, ChunkEnd(cursor, head), replica, log);
    ReportShape(s.repo, cursor, ChunkEnd(cursor, head), replica, log);
    CommitsAtReport(s.repo, s.stamped, cursor, ChunkEnd(cursor, head), replica, log);
    forall slug | slug in s.rows
      ensures IsSafeRow(s.t, slug, ResetRows(s.rows, changes, StampOf(now))[slug],
                        CommitsAt(s.repo, s.stamped + RevisionsOf(log)))
    {
      ResetKeepsSafe(s.t, slug, s.rows[slug], log, changes, now, CommitsAt(s.repo, s.stamped));
    }
  }

  lemma AnswerIsInRepository(repo: seq<Commit>, cursor: nat, head: nat, log: seq<Commit>)
    requires IsRepository(repo) && IsSomeReport(repo, cursor, ChunkEnd(cursor, head), log)
    ensures AreUpTo(RevisionsOf(log), |repo|)
  {
    var replica: nat :| IsReport(repo, cursor, ChunkEnd(cursor, head), replica, log);
    ReportShape(repo, cursor, ChunkEnd(cursor, head), replica, log);
  }

  lemma ResetKeepsWorld(s: State, changes: TagChangeSet, now: Instant)
    requires IsWorldSound(s) && s.phase.Answered?
    requires IsSomeReport(s.repo, s.phase.cursor, ChunkEnd(s.phase.cursor, s.phase.head), s.phase.log)
    ensures IsWorldSound(Next(s, Reset(changes, now)))
  {
    AnswerIsInRepository(s.repo, s.phase.cursor, s.phase.head, s.phase.log);
    BothUpTo(s.stamped, RevisionsOf(s.phase.log), |s.repo|);
  }

  lemma BothUpTo(a: set<nat>, b: set<nat>, head: nat)
    requires AreUpTo(a, head) && AreUpTo(b, head)
    ensures AreUpTo(a + b, head)
  {}

  lemma ResetKeepsPhase(s: State, changes: TagChangeSet, now: Instant)
    requires IsPhaseSound(s) && s.phase.Answered?
    ensures IsPhaseSound(Next(s, Reset(changes, now)))
  {
    var e := Next(s, Reset(changes, now));
    assert e.phase == Stamped(s.phase.last, s.phase.cursor, s.phase.head, s.phase.log) && e.repo == s.repo;
    assert IsCovered(e, e.phase.cursor) && Bound(e) == Bound(s);
    assert RevisionsOf(e.phase.log) <= e.stamped;
  }

  lemma ResetKeepsInv(s: State, changes: TagChangeSet, now: Instant)
    requires Inv(s) && IsEnabled(s, Reset(changes, now))
    ensures Inv(Next(s, Reset(changes, now)))
  {
    ResetIsSafe(s, changes, now);
    ResetKeepsWorld(s, changes, now);
    ResetKeepsPhase(s, changes, now);
  }

  ghost predicate IsPastChunk(s: State, e: State)
    requires !s.phase.Idle?
  {
    !e.phase.Idle? && s.phase.cursor <= e.phase.cursor <= Bound(s) && IsCovered(e, e.phase.cursor)
  }

  /** Marking a chunk covers the revisions up to the one the loop goes on from. */
  lemma ChunkIsMarked(repo: seq<Commit>, marked: set<nat>, baseline: nat, cursor: nat, last: nat, log: seq<Commit>)
    requires IsRepository(repo) && IsSomeReport(repo, cursor, last, log) && AreMarked(marked, baseline, cursor)
    ensures var maxRev := MaxRev(log);
            maxRev >= 0 && AreMarked(marked + RevisionsOf(log), baseline, if maxRev <= cursor then cursor else maxRev)
  {
    var replica: nat :| IsReport(repo, cursor, last, replica, log);
    ReportShape(repo, cursor, last, replica, log);
    ReportMax(repo, cursor, last, replica, log);
  }

  /** Where the loop goes after a chunk, given what marking it covers. */
  lemma ChunkIsCovered(s: State, e: State, maxRev: nat)
    requires s.phase.Stamped? && s.phase.cursor <= Bound(s) && MaxRev(s.phase.log) == maxRev <= s.reported
    requires AreMarked(e.marked, s.baseline, if maxRev <= s.phase.cursor then s.phase.cursor else maxRev)
    requires e.phase == AfterChunk(s.phase) && e.baseline == s.baseline
    ensures IsPastChunk(s, e)
  {}

  lemma MarkedGrow(marked: set<nat>, more: set<nat>, baseline: nat, r: nat)
    requires AreMarked(marked, baseline, r)
    ensures AreMarked(marked + more, baseline, r)
  {}

  lemma MarkKeepsInv(s: State)
    requires Inv(s) && IsEnabled(s, MarkChanged)
    ensures Inv(Next(s, MarkChanged))
  {
    var Stamped(last, cursor, head, log) := s.phase;
    ChunkIsMarked(s.repo, s.marked, s.baseline, cursor, ChunkEnd(cursor, head), log);
    ChunkIsCovered(s, Next(s, MarkChanged), MaxRev(log));
    MarkedGrow(s.marked, RevisionsOf(log), s.baseline, s.watermark);
    MarkKeepsRun(s);
  }

  lemma MarkKeepsRun(s: State)
    requires s.phase.Stamped? && IsInRun(s) && IsPastChunk(s, Next(s, MarkChanged)) && RevisionsOf(s.phase.log) <= s.stamped
    requires IsWorldSound(s) && AreMarked(s.marked + RevisionsOf(s.phase.log), s.baseline, s.watermark)
    ensures IsPhaseSound(Next(s, MarkChanged)) && IsWorldSound(Next(s, MarkChanged)) && IsWatermarkSound(Next(s, MarkChanged))
  {
    var p := AfterChunk(s.phase);
    assert p.cursor >= s.phase.cursor && (p.Scanning? || p.Leaving?) && p.last == s.phase.last;
    assert p.Scanning? ==> p.head == s.phase.head;
  }

  lemma StartKeepsInv(s: State, head: nat)
    requires Inv(s) && IsEnabled(s, StartDiscover(head))
    ensures Inv(Next(s, StartDiscover(head)))
  {
    SameWorld(s, Next(s, StartDiscover(head)));
    if s.watermark == 0 { FirstStart(s, head); } else { LaterStart(s, head); }
  }

  lemma FirstStart(s: State, head: nat)
    requires IsWatermarkSound(s) && s.phase == Idle && s.watermark == 0 && head > 0
    ensures IsWatermarkSound(s.(watermark := head, baseline := head))
  {}

  lemma LaterStart(s: State, head: nat)
    requires IsWatermarkSound(s) && s.watermark > 0 && head <= |s.repo|
    ensures IsWatermarkSound(s.(phase := Scanning(s.watermark, s.watermark, head)))
    ensures IsPhaseSound(s.(phase := Scanning(s.watermark, s.watermark, head)))
  {}

  /** A run may end anywhere up to which all is covered. */
  lemma EndsAt(s: State, w: nat)
    requires IsWorldSound(s) && IsSafe(s) && w > 0 && IsCovered(s, w) && w <= Bound(s)
    ensures Inv(s.(watermark := w, phase := Idle))
  {
    var e := s.(watermark := w, phase := Idle);
    SameWorld(s, e);
    assert IsWatermarkSound(e) && IsPhaseSound(e);
  }

  lemma CrashKeepsInv(s: State)
    requires Inv(s)
    ensures Inv(s.(phase := Idle))
  {
    var e := s.(phase := Idle);
    SameWorld(s, e);
    SameWatermark(s, e);
  }

  /** Other writers of rows: they touch nothing else, and only need to leave the rows safe. */
  lemma RowsOnly(s: State, rows: map<string, Row>)
    requires Inv(s) && AreSafe(s.t, rows, CommitsAt(s.repo, s.stamped))
    ensures Inv(s.(rows := rows))
  {}

  lemma SafeWith(t: PackageType, rows: map<string, Row>, slug: string, row: Row, seen: set<Commit>)
    requires AreSafe(t, rows, seen) && IsSafeRow(t, slug, row, seen)
    ensures AreSafe(t, rows[slug := row], seen)
  {}

  /** One row is replaced by a safe one. */
  lemma RowKeepsInv(s: State, slug: string, row: Row)
    requires Inv(s) && IsSafeRow(s.t, slug, row, CommitsAt(s.repo, s.stamped))
    ensures Inv(s.(rows := s.rows[slug := row]))
  {
    SafeWith(s.t, s.rows, slug, row, CommitsAt(s.repo, s.stamped));
    RowsOnly(s, s.rows[slug := row]);
  }

  lemma TickKeepsInv(s: State, now: Instant)
    requires Inv(s) && s.clock <= now
    ensures Inv(s.(clock := now))
  {
    LaterClock(s.repo, s.clock, now);
    SameWatermark(s, s.(clock := now));
  }

  lemma LaterClock(repo: seq<Commit>, clock: Instant, now: Instant)
    requires AreDatedBy(repo, clock) && clock <= now
    ensures AreDatedBy(repo, now)
  {}

  lemma StepKeepsInv(s: State, step: Step)
    requires Inv(s) && IsEnabled(s, step)
    ensures Inv(Next(s, step))
  {
    match step
    case CommitToSvn(c) => CommitKeepsInv(s, c);
    case UpdatePackage(slug, versions, now) => UpdateKeepsInv(s, slug, versions, now);
    case Backfill(head, since, changes) => BackfillKeepsInv(s, head, since, changes);
    case Fetch(replica, log) => FetchKeepsInv(s, replica, log);
    case Reset(changes, now) => ResetKeepsInv(s, changes, now);
    case MarkChanged => MarkKeepsInv(s);
    case Tick(now) => TickKeepsInv(s, now);
    case StartDiscover(head) => StartKeepsInv(s, head);
    case AddShell(slug) => RowKeepsInv(s, slug, Row(map[], Null, false));
    case Tombstone(slug) => RowKeepsInv(s, slug, s.rows[slug].(closed := true));
    case Corrupt(slug) => RowKeepsInv(s, slug, s.rows[slug].(times := Unreadable));
    case FetchFails => EndsAt(s, s.phase.cursor);
    case StoreWatermark => EndsAt(s, s.phase.cursor);
    case Crash => CrashKeepsInv(s);
  }

  lemma InitialInv(s: State)
    requires IsInitial(s)
    ensures Inv(s)
  {}

  lemma {:induction false} RunKeepsInv(s: State, steps: seq<Step>)
    requires Inv(s) && IsRun(s, steps)
    ensures Inv(Run(s, steps))
    decreases |steps|
  {
    if steps != [] {
      StepKeepsInv(s, steps[0]);
      RunKeepsInv(Next(s, steps[0]), steps[1..]);
    }
  }
}
