/**
 What the pipeline's invariants give over whole runs: safe published times, the
 watermark protocol, and published times that are always there and never decrease.
 */
module CooldownSafety {
  import opened Text
  import opened Version
  import opened SvnLog
  import opened PublishedTimes
  import opened BackfillScan
  import opened Serialize
  import opened Cooldown

  /**
   Whatever the replica lag, failed fetches, retries and crashes: no time stored for an
   open package is earlier, to the second, than a change discover has processed.
   */
  lemma StoredTimesAreSafe(s: State, steps: seq<Step>)
    requires IsInitial(s) && IsRun(s, steps)
    ensures IsSafe(Run(s, steps))
  {
    InitialInv(s);
    RunKeepsInv(s, steps);
  }

  /** The commit changes the version itself, or every tag of the package. */
  ghost predicate ChangesVersion(t: PackageType, c: Commit, slug: string, version: string) {
    || TouchesAll(t, c, slug)
    || exists tag :: TouchesTag(t, c, slug, tag) && Normalize(tag) == version && version != TRUNK
  }

  /** The stored key whose time is served for a version. */
  lemma ServedKey(times: map<string, Stamp>, served: map<string, Stamp>, version: string) returns (k: string)
    requires AreServedTimes(times, served) && version in served
    ensures k in times && Normalize(k) == version && version != "" && times[k] == served[version]
  {
    assert IsMaxOrNone(TimesFor(times, version), Lookup(served, version));
    k :| k in times && Normalize(k) == version && version != "" && times[k] == served[version];
  }

  /** What a state serves for a package with readable times. */
  ghost predicate AreServed(e: State, slug: string, served: map<string, Stamp>) {
    slug in e.rows && e.rows[slug].times.Readable? && AreServedTimes(e.rows[slug].times.times, served)
  }

  /** A revision between the first watermark and the current one changes the version. */
  ghost predicate IsProcessedChange(e: State, slug: string, version: string, r: nat) {
    e.baseline < r <= e.watermark && r <= |e.repo| && ChangesVersion(e.t, e.repo[r - 1], slug, version)
  }

  /**
   The served form of the claim: every revision between the first watermark and the
   current one has been processed, so no published time a client sees is earlier than
   a change to that version in any of them.
   */
  lemma ServedTimesAreSafe(
    s: State, steps: seq<Step>, slug: string, served: map<string, Stamp>, version: string, r: nat)
    requires IsInitial(s) && IsRun(s, steps) && AreServed(Run(s, steps), slug, served) && version in served
    requires !Run(s, steps).rows[slug].closed && IsProcessedChange(Run(s, steps), slug, version, r)
    ensures StampOf(Run(s, steps).repo[r - 1].date) <= served[version]
  {
    var e := Run(s, steps);
    InitialInv(s);
    RunKeepsInv(s, steps);
    var c := e.repo[r - 1];
    assert r in e.marked && c in CommitsAt(e.repo, e.stamped);
    var k := ServedKey(e.rows[slug].times.times, served, version);
    assert Changes(e.t, c, slug, k) by {
      if !TouchesAll(e.t, c, slug) {
        var tag :| TouchesTag(e.t, c, slug, tag) && Normalize(tag) == version && version != TRUNK;
        assert GivesVersion(tag, k);
      }
    }
    assert IsSafeRow(e.t, slug, e.rows[slug], CommitsAt(e.repo, e.stamped));
  }

  /** One step never moves the watermark back, nor past the first baseline and what a REPORT returned. */
  lemma StepMovesWatermarkForward(s: State, step: Step)
    requires Inv(s) && IsEnabled(s, step)
    ensures s.watermark <= Next(s, step).watermark <= Bound(Next(s, step))
  {
    StepKeepsInv(s, step);
  }

  /**
   The watermark protocol over whole runs: it never decreases, never passes what a
   REPORT returned, and every revision below it and above the first one has been reset
   and marked.
   */
  lemma {:induction false} WatermarkProtocol(s: State, steps: seq<Step>)
    requires Inv(s) && IsRun(s, steps)
    ensures var e := Run(s, steps);
            && s.watermark <= e.watermark <= Bound(e)
            && (e.watermark > 0 ==> IsCovered(e, e.watermark) && e.marked <= e.stamped)
    decreases |steps|
  {
    if steps != [] {
      StepKeepsInv(s, steps[0]);
      StepMovesWatermarkForward(s, steps[0]);
      WatermarkProtocol(Next(s, steps[0]), steps[1..]);
    }
  }

  // ----- Keys and monotone served times -----

  /** Every tagged version key of a package with times has a time. */
  ghost predicate HasAllKeys(s: State) {
    HaveKeys(s.rows)
  }

  ghost predicate HaveKeys(rows: map<string, Row>) {
    forall slug :: slug in rows ==> HasKeys(rows[slug])
  }

  predicate HasKeys(row: Row) {
    row.times.Readable? ==> row.versions.Keys - {TRUNK} <= row.times.times.Keys
  }

  lemma ResetKeepsKeys(rows: map<string, Row>, changes: TagChangeSet, stamp: Stamp)
    requires HaveKeys(rows)
    ensures HaveKeys(ResetRows(rows, changes, stamp))
  {
    forall slug | slug in rows ensures HasKeys(ResetRows(rows, changes, stamp)[slug]) {
      assert HasKeys(rows[slug]);
    }
  }

  lemma BackfillKeepsKeys(rows: map<string, Row>, changes: TagChangeSet, since: Instant)
    requires HaveKeys(rows)
    ensures HaveKeys(BackfilledRows(rows, changes, since))
  {
    forall slug | slug in rows ensures HasKeys(BackfilledRows(rows, changes, since)[slug]) {
      assert HasKeys(rows[slug]);
    }
  }

  lemma RowKeepsKeys(rows: map<string, Row>, slug: string, row: Row)
    requires HaveKeys(rows) && HasKeys(row)
    ensures HaveKeys(rows[slug := row])
  {}

  lemma StepKeepsKeys(s: State, step: Step)
    requires HasAllKeys(s)
    ensures HasAllKeys(Next(s, step))
  {
    match step
    case AddShell(slug) => RowKeepsKeys(s.rows, slug, Row(map[], Null, false));
    case Tombstone(slug) => if slug in s.rows { RowKeepsKeys(s.rows, slug, s.rows[slug].(closed := true)); }
    case Corrupt(slug) => if slug in s.rows { RowKeepsKeys(s.rows, slug, s.rows[slug].(times := Unreadable)); }
    case UpdatePackage(slug, versions, now) =>
      if slug in s.rows { RowKeepsKeys(s.rows, slug, UpdatedRow(s.rows[slug], versions, now)); }
    case Backfill(_, since, changes) => BackfillKeepsKeys(s.rows, changes, since);
    case Reset(changes, now) => ResetKeepsKeys(s.rows, changes, StampOf(now));
    case _ => RowsStay(s, step);
  }

  lemma {:induction false} RunKeepsKeys(s: State, steps: seq<Step>)
    requires HasAllKeys(s)
    ensures HasAllKeys(Run(s, steps))
    decreases |steps|
  {
    if steps != [] {
      StepKeepsKeys(s, steps[0]);
      RunKeepsKeys(Next(s, steps[0]), steps[1..]);
    }
  }

  lemma NormalKeysHaveTimes(
    versions: map<string, string>, times: map<string, Stamp>, served: map<string, Stamp>, version: string)
    requires versions.Keys - {TRUNK} <= times.Keys && AreServedTimes(times, served)
    requires version in NormalForm(versions) && version != TRUNK
    ensures version in served
  {
    var r := RawTag(versions, version);
    KeyHasTime(versions.Keys, times.Keys, r);
    ServedFromKey(times, served, r, version);
  }

  /** The raw version behind a version other than the trunk is not the trunk either. */
  lemma RawTag(versions: map<string, string>, version: string) returns (r: string)
    requires version in NormalForm(versions) && version != TRUNK
    ensures r in versions && r != TRUNK && Normalize(r) == version != ""
  {
    r := RawVersion(versions, version);
    NormalizeFixed(TRUNK);
  }

  lemma KeyHasTime(versions: set<string>, times: set<string>, r: string)
    requires versions - {TRUNK} <= times && r in versions && r != TRUNK
    ensures r in times
  {
    assert r in versions - {TRUNK};
  }

  lemma ServedFromKey(times: map<string, Stamp>, served: map<string, Stamp>, r: string, version: string)
    requires AreServedTimes(times, served) && r in times && Normalize(r) == version && version != ""
    ensures version in served
  {
    assert times[r] in TimesFor(times, version);
    assert IsMaxOrNone(TimesFor(times, version), Lookup(served, version));
  }

  lemma TaggedIsNotTrunk(version: string)
    requires IsTagged(version)
    ensures version != TRUNK
  {
    assert TRUNK[..4] == "dev-";
  }

  /** An entry whose version has a served time carries it in both time fields. */
  lemma EntryShowsServedTime(
    t: PackageType, slug: string, versions: map<string, string>, meta: PackageMeta, version: string)
    requires version in TaggedEntries(t, slug, versions, meta)
    requires meta.publishedTimes.Some? && version in meta.publishedTimes.value
    ensures var entry := TaggedEntries(t, slug, versions, meta)[version];
            entry.publishedTime == entry.time == Some(Published(meta.publishedTimes.value[version]))
  {
    TaggedIsNotTrunk(version);
  }

  /** The entries serialized for a package in a state. */
  ghost function EntriesOf(s: State, slug: string, meta: PackageMeta): map<string, Entry>
    requires slug in s.rows
  {
    TaggedEntries(s.t, slug, NormalForm(s.rows[slug].versions), meta)
  }

  /** Every tagged entry serialized for a package with times carries a published-time. */
  lemma TaggedEntriesHavePublishedTime(
    s: State, steps: seq<Step>, slug: string, meta: PackageMeta, version: string)
    requires IsInitial(s) && slug in Run(s, steps).rows && Run(s, steps).rows[slug].times.Readable?
    requires meta.publishedTimes.Some?
    requires AreServedTimes(Run(s, steps).rows[slug].times.times, meta.publishedTimes.value)
    requires version in EntriesOf(Run(s, steps), slug, meta)
    ensures version in meta.publishedTimes.value
    ensures var entry := EntriesOf(Run(s, steps), slug, meta)[version];
            entry.publishedTime == entry.time == Some(Published(meta.publishedTimes.value[version]))
  {
    var row := Run(s, steps).rows[slug];
    RunKeepsKeys(s, steps);
    TaggedIsNotTrunk(version);
    NormalKeysHaveTimes(row.versions, row.times.times, meta.publishedTimes.value, version);
    EntryShowsServedTime(Run(s, steps).t, slug, NormalForm(row.versions), meta, version);
  }

  /** The times of a row did not go down, and none was dropped. */
  ghost predicate DidNotDecrease(before: StoredTimes, after: StoredTimes) {
    before.Readable? ==>
      after.Readable? && forall k :: k in before.times ==> k in after.times && before.times[k] <= after.times[k]
  }

  lemma StepRaisesTimes(s: State, step: Step, slug: string)
    requires slug in s.rows && step != Corrupt(slug) && IsEnabled(s, step)
    ensures slug in Next(s, step).rows && DidNotDecrease(s.rows[slug].times, Next(s, step).rows[slug].times)
  {
    match step
    case UpdatePackage(other, versions, now) =>
      if other == slug { UpdateRaisesTimes(s.rows[slug], versions, now); }
    case Backfill(_, since, changes) => BackfillRaisesTimes(s.rows, changes, since, slug);
    case Reset(changes, now) => ResetRaisesTimes(s.rows, changes, StampOf(now), slug);
    case _ => OtherStepKeepsTimes(s, step, slug);
  }

  lemma UpdateRaisesTimes(row: Row, versions: map<string, string>, now: Instant)
    ensures DidNotDecrease(row.times, UpdatedRow(row, versions, now).times)
  {}

  lemma BackfillRaisesTimes(rows: map<string, Row>, changes: TagChangeSet, since: Instant, slug: string)
    requires slug in rows
    ensures slug in BackfilledRows(rows, changes, since)
    ensures DidNotDecrease(rows[slug].times, BackfilledRows(rows, changes, since)[slug].times)
  {}

  lemma ResetRaisesTimes(rows: map<string, Row>, changes: TagChangeSet, stamp: Stamp, slug: string)
    requires slug in rows
    ensures slug in ResetRows(rows, changes, stamp)
    ensures DidNotDecrease(rows[slug].times, ResetRows(rows, changes, stamp)[slug].times)
  {}

  lemma OtherStepKeepsTimes(s: State, step: Step, slug: string)
    requires slug in s.rows && step != Corrupt(slug) && step != AddShell(slug)
    requires !step.UpdatePackage? && !step.Backfill? && !step.Reset?
    ensures slug in Next(s, step).rows && s.rows[slug].times == Next(s, step).rows[slug].times
  {
    match step
    case AddShell(other) => ShellKeepsTimes(s, other, slug);
    case Tombstone(other) => TombstoneKeepsTimes(s, other, slug);
    case Corrupt(other) => CorruptKeepsTimes(s, other, slug);
    case _ => RowsStay(s, step);
  }

  lemma ShellKeepsTimes(s: State, other: string, slug: string)
    requires slug in s.rows && other != slug
    ensures slug in Next(s, AddShell(other)).rows && s.rows[slug].times == Next(s, AddShell(other)).rows[slug].times
  {}

  lemma TombstoneKeepsTimes(s: State, other: string, slug: string)
    requires slug in s.rows
    ensures slug in Next(s, Tombstone(other)).rows && s.rows[slug].times == Next(s, Tombstone(other)).rows[slug].times
  {}

  lemma CorruptKeepsTimes(s: State, other: string, slug: string)
    requires slug in s.rows && other != slug
    ensures slug in Next(s, Corrupt(other)).rows && s.rows[slug].times == Next(s, Corrupt(other)).rows[slug].times
  {}

  /** Steps that touch no row. */
  lemma RowsStay(s: State, step: Step)
    requires !step.UpdatePackage? && !step.Backfill? && !step.Reset?
    requires !step.AddShell? && !step.Tombstone? && !step.Corrupt?
    ensures Next(s, step).rows == s.rows
  {
    match step
    case Tick(_) =>
    case CommitToSvn(_) =>
    case StartDiscover(_) =>
    case Fetch(_, _) =>
    case FetchFails =>
    case MarkChanged =>
    case StoreWatermark =>
    case Crash =>
  }

  lemma {:induction false} RunRaisesTimes(s: State, steps: seq<Step>, slug: string)
    requires slug in s.rows && Corrupt(slug) !in steps && IsRun(s, steps)
    ensures slug in Run(s, steps).rows && DidNotDecrease(s.rows[slug].times, Run(s, steps).rows[slug].times)
    decreases |steps|
  {
    if steps != [] {
      StepRaisesTimes(s, steps[0], slug);
      assert steps[0] in steps;
      RunRaisesTimes(Next(s, steps[0]), steps[1..], slug);
    }
  }

  /** The row's time for the key. */
  function TimeAt(s: State, slug: string, k: string): Option<Stamp> {
    if slug in s.rows && s.rows[slug].times.Readable? then Lookup(s.rows[slug].times.times, k) else None
  }

  /** A reset step that finds a change of the key's version in its answer, and an earlier time in an open row. */
  ghost predicate Restamps(s: State, step: Step, slug: string, k: string) {
    && step.Reset? && s.phase.Answered? && slug in s.rows && !s.rows[slug].closed
    && TimeAt(s, slug, k).Some? && TimeAt(s, slug, k).value < StampOf(step.now)
    && IsChanged(s.t, s.phase.log, slug, k)
  }

  /** A stored time changes exactly in such steps, and then to their time. */
  lemma TimeChangesIff(s: State, step: Step, slug: string, k: string)
    requires IsEnabled(s, step) && step != Corrupt(slug) && TimeAt(s, slug, k).Some?
    ensures TimeAt(Next(s, step), slug, k) ==
            if Restamps(s, step, slug, k) then Some(StampOf(step.now)) else TimeAt(s, slug, k)
  {
    match step
    case Reset(changes, now) => ResetMeans(s.t, slug, s.rows[slug], s.phase.log, changes, StampOf(now));
    case UpdatePackage(other, versions, now) =>
    case Backfill(_, since, changes) => assert BackfilledRows(s.rows, changes, since)[slug] == s.rows[slug];
    case _ => OtherStepKeepsTimes(s, step, slug);
  }

  /** The i-th step of a run re-stamps the key. */
  ghost predicate RestampsAt(s: State, steps: seq<Step>, i: int, slug: string, k: string) {
    0 <= i < |steps| && Restamps(Run(s, steps[..i]), steps[i], slug, k)
  }

  lemma RestampsLater(s: State, steps: seq<Step>, i: int, slug: string, k: string)
    requires steps != [] && RestampsAt(Next(s, steps[0]), steps[1..], i, slug, k)
    ensures RestampsAt(s, steps, i + 1, slug, k) && steps[i + 1] == steps[1..][i]
  {
    assert steps[..i + 1][1..] == steps[1..][..i] && steps[..i + 1][0] == steps[0];
  }

  /** Over runs: a time is what it was, or the time of a reset that found a change of its version. */
  lemma {:induction false} TimeAfterRun(s: State, steps: seq<Step>, slug: string, k: string)
    requires IsRun(s, steps) && Corrupt(slug) !in steps && TimeAt(s, slug, k).Some?
    ensures TimeAt(Run(s, steps), slug, k) == TimeAt(s, slug, k) ||
            exists i :: RestampsAt(s, steps, i, slug, k) && TimeAt(Run(s, steps), slug, k) == Some(StampOf(steps[i].now))
    decreases |steps|
  {
    if steps != [] {
      var e, rest := Next(s, steps[0]), steps[1..];
      assert steps[0] in steps;
      TimeChangesIff(s, steps[0], slug, k);
      TimeAfterRun(e, rest, slug, k);
      if i :| RestampsAt(e, rest, i, slug, k) && TimeAt(Run(e, rest), slug, k) == Some(StampOf(rest[i].now)) {
        RestampsLater(s, steps, i, slug, k);
      } else if Restamps(s, steps[0], slug, k) {
        assert steps[..0] == [];
        assert RestampsAt(s, steps, 0, slug, k);
      }
    }
  }

  /** The published time served for a version never decreases from one serialization to a later one. */
  lemma ServedTimeNeverDecreases(
    s: State, steps: seq<Step>, slug: string, before: map<string, Stamp>, after: map<string, Stamp>, version: string)
    requires slug in s.rows && Corrupt(slug) !in steps && IsRun(s, steps)
    requires s.rows[slug].times.Readable? && AreServedTimes(s.rows[slug].times.times, before) && version in before
    requires AreServed(Run(s, steps), slug, after)
    ensures version in after && before[version] <= after[version]
  {
    RunRaisesTimes(s, steps, slug);
    ServedRises(s.rows[slug].times.times, Run(s, steps).rows[slug].times.times, before, after, version);
  }

  lemma ServedRises(
    times: map<string, Stamp>, later: map<string, Stamp>, before: map<string, Stamp>, after: map<string, Stamp>,
    version: string)
    requires DidNotDecrease(Readable(times), Readable(later))
    requires AreServedTimes(times, before) && AreServedTimes(later, after) && version in before
    ensures version in after && before[version] <= after[version]
  {
    var k := ServedKey(times, before, version);
    assert later[k] in TimesFor(later, version);
    assert IsMaxOrNone(TimesFor(later, version), Lookup(after, version));
  }

  // ----- Backfills from a listing that is behind -----

  /**
   Whatever head a backfill lists, even one behind what discover has processed: it
   leaves every stored time safe exactly if its window shows, for each version it
   stamps, a change at least as late as the processed ones above that head. There are
   none if everything processed is listed.
   */
  lemma BackfillIsSafeFromAnyListing(s: State, steps: seq<Step>, head: nat, since: Instant, changes: TagChangeSet)
    requires IsInitial(s) && IsRun(s, steps) && head <= |Run(s, steps).repo|
    requires IsWindow(s.t, Run(s, steps).repo[..head], since, changes)
    ensures IsSafe(Next(Run(s, steps), Backfill(head, since, changes))) <==> SeesProcessed(Run(s, steps), head, since)
    ensures AreUpTo(Run(s, steps).stamped, head) ==> SeesProcessed(Run(s, steps), head, since)
  {
    InitialInv(s);
    RunKeepsInv(s, steps);
    RunKeepsType(s, steps);
    BackfillKeepsSafeIff(Run(s, steps), head, since, changes);
  }

  lemma KeepsType(s: State, step: Step)
    ensures Next(s, step).t == s.t
  {
    match step
    case Tick(_) =>
    case CommitToSvn(_) =>
    case AddShell(_) =>
    case Tombstone(_) =>
    case Corrupt(_) =>
    case UpdatePackage(_, _, _) =>
    case Backfill(_, _, _) =>
    case StartDiscover(_) =>
    case Fetch(_, _) =>
    case FetchFails =>
    case Reset(_, _) =>
    case MarkChanged =>
    case StoreWatermark =>
    case Crash =>
  }

  lemma {:induction false} RunKeepsType(s: State, steps: seq<Step>)
    ensures Run(s, steps).t == s.t
    decreases |steps|
  {
    if steps != [] {
      KeepsType(s, steps[0]);
      RunKeepsType(Next(s, steps[0]), steps[1..]);
    }
  }

  lemma RunCons(s: State, first: Step, rest: seq<Step>)
    ensures IsRun(s, [first] + rest) <==> IsEnabled(s, first) && IsRun(Next(s, first), rest)
    ensures Run(s, [first] + rest) == Run(Next(s, first), rest)
  {
    assert ([first] + rest)[1..] == rest;
  }

  lemma RunOfOne(s: State, step: Step)
    ensures IsRun(s, [step]) <==> IsEnabled(s, step)
    ensures Run(s, [step]) == Next(s, step) && Run(s, []) == s
  {
    RunCons(s, step, []);
    assert [step] + [] == [step];
  }

  lemma {:induction false} RunAppend(s: State, steps: seq<Step>, step: Step)
    requires IsRun(s, steps) && IsEnabled(Run(s, steps), step)
    ensures IsRun(s, steps + [step]) && Run(s, steps + [step]) == Next(Run(s, steps), step)
    decreases |steps|
  {
    if steps == [] {
      RunOfOne(s, step);
      assert steps + [step] == [step];
    } else {
      var rest := steps[1..];
      RunAppend(Next(s, steps[0]), rest, step);
      RunCons(s, steps[0], rest + [step]);
      assert steps + [step] == [steps[0]] + (rest + [step]);
    }
  }

  const BASELINE := Commit(1, SECOND, [], [], [], [], {})
  const ADDS_PACKAGE := Commit(2, 5 * SECOND, ["/a"], [], [], [], {})

  /** One package with one version and no times yet, and one revision. */
  function Start(t: PackageType): State {
    State(t, map["a" := Row(map["1.0" := "1.0"], Null, false)], 0, Idle, [BASELINE], 5 * SECOND, 0, 0, {}, {})
  }

  const NO_CHANGES := TagChangeSet(map[], map[])
  const WHOLE_PACKAGE := TagChangeSet(map[], map["a" := 5 * SECOND])

  lemma BaselineChangesNothing(t: PackageType, slug: string, tag: string)
    ensures !TouchesAll(t, BASELINE, slug) && !TouchesTag(t, BASELINE, slug, tag)
  {
    assert LoosePaths(BASELINE) == [] && BASELINE.replaced == [] && BASELINE.added + BASELINE.replaced == [];
  }

  lemma AddsWholePackage(t: PackageType, slug: string, tag: string)
    ensures TouchesAll(t, ADDS_PACKAGE, slug) <==> slug == "a"
    ensures !TouchesTag(t, ADDS_PACKAGE, slug, tag)
  {
    RootIsAncestor(t);
    assert LoosePaths(ADDS_PACKAGE) == ["/a"] && ADDS_PACKAGE.added + ADDS_PACKAGE.replaced == ["/a"];
    assert "/a" in ["/a"];
  }

  lemma BaselineWindow(t: PackageType)
    ensures IsWindow(t, [BASELINE], SECOND, NO_CHANGES)
  {
    forall slug, tag ensures TagDates(t, [BASELINE], slug, tag) == {} == AllDates(t, [BASELINE], slug) {
      BaselineChangesNothing(t, slug, tag);
    }
  }

  lemma PackageChanges(t: PackageType)
    ensures AreTagChanges(t, [ADDS_PACKAGE], WHOLE_PACKAGE)
  {
    var c := ADDS_PACKAGE;
    forall slug, tag ensures TagDates(t, [c], slug, tag) == {} {
      AddsWholePackage(t, slug, tag);
      OnlyCommit(t, c, slug, tag);
    }
    forall slug ensures AllDates(t, [c], slug) == if slug == "a" then {5 * SECOND} else {} {
      AddsWholePackage(t, slug, "");
      OnlyCommit(t, c, slug, "");
    }
  }

  /** The run up to the backfill: the first discover stores its baseline, the second processes revision 2. */
  ghost function Processing(c: Commit, changes: TagChangeSet, now: Instant): seq<Step> {
    [StartDiscover(1)] + [CommitToSvn(c)] + [StartDiscover(2)] + [Fetch(2, [c])] + [Reset(changes, now)]
    + [MarkChanged] + [StoreWatermark]
  }

  lemma ReportOfSecond(repo: seq<Commit>)
    requires |repo| == 2 && IsRepository(repo)
    ensures IsReport(repo, 1, 2, 2, [repo[1]]) && MaxRev([repo[1]]) == 2 && RevisionsOf([repo[1]]) == {2}
  {
    var c := repo[1];
    assert forall d :: d in [c] <==> d == c;
    assert Revisions([c]) == {2};
    MaxIs({2}, 2);
  }

  /** A second discover run over revision 2, from a state with the baseline stored and no times. */
  lemma ProcessSecond(s: State, steps: seq<Step>, e: State, changes: TagChangeSet)
    requires IsRun(s, steps) && e == Run(s, steps) && |e.repo| == 2 && IsRepository(e.repo)
    requires e.phase == Idle && e.watermark == 1 && forall slug :: slug in e.rows ==> e.rows[slug].times.Null?
    requires AreTagChanges(e.t, [e.repo[1]], changes)
    ensures var more := steps + [StartDiscover(2)] + [Fetch(2, [e.repo[1]])] + [Reset(changes, e.clock)]
                        + [MarkChanged] + [StoreWatermark];
            && IsRun(s, more) && Run(s, more).rows == e.rows && Run(s, more).repo == e.repo && 2 in Run(s, more).stamped
  {
    var log := [e.repo[1]];
    FetchSecond(s, steps, e);
    var fetched := steps + [StartDiscover(2)] + [Fetch(2, log)];
    RunAppend(s, fetched, Reset(changes, e.clock));
    NullRowsStay(e.rows, changes, StampOf(e.clock));
    ReportOfSecond(e.repo);
    RunAppend(s, fetched + [Reset(changes, e.clock)], MarkChanged);
    RunAppend(s, fetched + [Reset(changes, e.clock)] + [MarkChanged], StoreWatermark);
  }

  lemma FetchSecond(s: State, steps: seq<Step>, e: State)
    requires IsRun(s, steps) && e == Run(s, steps) && |e.repo| == 2 && IsRepository(e.repo)
    requires e.phase == Idle && e.watermark == 1
    ensures var more := steps + [StartDiscover(2)] + [Fetch(2, [e.repo[1]])];
            var f := Run(s, more);
            && IsRun(s, more) && f.phase == Answered(1, 1, 2, [e.repo[1]])
            && f.rows == e.rows && f.repo == e.repo && f.clock == e.clock && f.t == e.t
  {
    ReportOfSecond(e.repo);
    RunAppend(s, steps, StartDiscover(2));
    RunAppend(s, steps + [StartDiscover(2)], Fetch(2, [e.repo[1]]));
  }

  lemma NullRowsStay(rows: map<string, Row>, changes: TagChangeSet, stamp: Stamp)
    requires forall slug :: slug in rows ==> rows[slug].times.Null?
    ensures ResetRows(rows, changes, stamp) == rows
  {
    forall slug | slug in rows ensures ResetRows(rows, changes, stamp)[slug] == rows[slug] {}
  }

  lemma FirstSteps(s: State, c: Commit)
    requires |s.repo| == 1 && s.watermark == 0 && s.phase == Idle && c.revision == 2 && c.date <= s.clock
    ensures var steps := [StartDiscover(1)] + [CommitToSvn(c)];
            IsRun(s, steps) && Run(s, steps) == s.(watermark := 1, baseline := 1, repo := s.repo + [c])
  {
    RunAppend(s, [], StartDiscover(1));
    assert [] + [StartDiscover(1)] == [StartDiscover(1)];
    RunAppend(s, [StartDiscover(1)], CommitToSvn(c));
  }

  lemma ProcessedState(s: State, c: Commit, changes: TagChangeSet) returns (e: State)
    requires |s.repo| == 1 && IsRepository(s.repo) && s.watermark == 0 && s.phase == Idle
    requires forall slug :: slug in s.rows ==> s.rows[slug].times.Null?
    requires c.revision == 2 && c.date <= s.clock && AreTagChanges(s.t, [c], changes)
    ensures IsRun(s, Processing(c, changes, s.clock)) && e == Run(s, Processing(c, changes, s.clock))
    ensures e.rows == s.rows && e.repo == s.repo + [c] && 2 in e.stamped
  {
    FirstSteps(s, c);
    var steps := [StartDiscover(1)] + [CommitToSvn(c)];
    var first := Run(s, steps);
    assert first.repo[1] == c;
    ProcessSecond(s, steps, first, changes);
    e := Run(s, Processing(c, changes, s.clock));
  }

  /**
   A run whose backfill lists revision 1 after discover has processed revision 2, which
   added the package: the backfilled time is earlier than that change.
   */
  lemma StaleListingIsUnsafe(t: PackageType) returns (s: State, steps: seq<Step>)
    ensures IsInitial(s) && s.t == t && IsRun(s, steps) && |Run(s, steps).repo| == 2
    ensures var e := Run(s, steps);
            && IsWindow(t, e.repo[..1], SECOND, NO_CHANGES) && !SeesProcessed(e, 1, SECOND)
            && !IsSafe(Next(e, Backfill(1, SECOND, NO_CHANGES)))
    ensures s == Start(t) && steps == Processing(ADDS_PACKAGE, WHOLE_PACKAGE, 5 * SECOND)
  {
    s := Start(t);
    PackageChanges(t);
    var e := ProcessedState(s, ADDS_PACKAGE, WHOLE_PACKAGE);
    steps := Processing(ADDS_PACKAGE, WHOLE_PACKAGE, 5 * SECOND);
    assert [BASELINE] + [ADDS_PACKAGE] == [BASELINE, ADDS_PACKAGE];
    ListingFirstIsUnsafe(s, steps);
  }

  lemma ListingFirstIsUnsafe(s: State, steps: seq<Step>)
    requires IsInitial(s) && IsRun(s, steps) && Run(s, steps).repo == [BASELINE, ADDS_PACKAGE] && 2 in Run(s, steps).stamped
    requires "a" in Run(s, steps).rows && Run(s, steps).rows["a"] == Row(map["1.0" := "1.0"], Null, false)
    ensures var e := Run(s, steps);
            && IsWindow(s.t, e.repo[..1], SECOND, NO_CHANGES) && !SeesProcessed(e, 1, SECOND)
            && !IsSafe(Next(e, Backfill(1, SECOND, NO_CHANGES)))
  {
    var e := Run(s, steps);
    BaselineWindow(s.t);
    assert e.repo[..1] == [BASELINE];
    IsUnseen(e);
    BackfillIsSafeFromAnyListing(s, steps, 1, SECOND, NO_CHANGES);
  }

  lemma IsUnseen(e: State)
    requires e.repo == [BASELINE, ADDS_PACKAGE] && 2 in e.stamped
    requires "a" in e.rows && e.rows["a"] == Row(map["1.0" := "1.0"], Null, false)
    ensures !SeesProcessed(e, 1, SECOND)
  {
    var seen := CommitsAt(e.repo, Above(e.stamped, 1));
    SecondIsProcessed(e);
    SecondIsUnseen(e.t, ADDS_PACKAGE, e.rows["a"], seen);
    assert e.repo[..1] == [BASELINE];
    assert !SeesProcessedOf(e, 1, SECOND, "a");
  }

  lemma SecondIsProcessed(e: State)
    requires e.repo == [BASELINE, ADDS_PACKAGE] && 2 in e.stamped
    ensures ADDS_PACKAGE in CommitsAt(e.repo, Above(e.stamped, 1))
  {
    assert 2 in Above(e.stamped, 1) && e.repo[1] == ADDS_PACKAGE;
  }

  lemma SecondIsUnseen(t: PackageType, c: Commit, row: Row, seen: set<Commit>)
    requires c == ADDS_PACKAGE && c in seen && "1.0" in row.versions
    ensures !SeesRow(t, [BASELINE], SECOND, "a", row, seen)
  {
    AddsWholePackage(t, "a", "");
    assert Changes(t, c, "a", "1.0") && "1.0" != TRUNK;
    BaselineGivesNothing(t, Normalize("1.0"));
    assert !IsSeen(t, [BASELINE], SECOND, "a", "1.0", c);
  }

  lemma BaselineGivesNothing(t: PackageType, version: string)
    ensures forall d :: d in [BASELINE] ==> !Gives(t, d, "a", version)
  {
    forall tag ensures !TouchesTag(t, BASELINE, "a", tag) { BaselineChangesNothing(t, "a", tag); }
    BaselineChangesNothing(t, "a", "");
  }
}
