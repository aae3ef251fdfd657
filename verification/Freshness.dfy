/**
 When a package is fetched again: marking by discover, the retry decision of update,
 the status check, and the row columns they share.
 */
module Freshness {
  import opened Text
  import opened SvnLog
  import opened PublishedTimes
  import opened Rfc3339

  const HOUR := 3600 * SECOND
  const STALE_RETRY_WINDOW := 24 * HOUR
  const PENDING_STABLE_RETRY_WINDOW := 7 * 24 * HOUR

  datatype Key = Key(kind: PackageType, slug: string)

  /** Stored times are whole seconds; versions is the stored version map, trunk the trunk revision. */
  datatype PackageRow = PackageRow(
    versions: map<string, string>, active: bool, closed: bool,
    committed: Option<Stamp>, synced: Option<Stamp>, trunk: Option<int>)

  /** What the API answers, with the versions already normalized and cut. */
  datatype Response =
    | Unreachable
    | NotFound
    | ClosedForGood
    | Fetched(versions: map<string, string>, pendingStable: bool, updated: Option<Stamp>)

  // ----- Which packages are due -----

  /** Selected by an update without options. */
  predicate IsDue(r: PackageRow) {
    !r.closed && r.active && IsBehind(r)
  }

  predicate IsBehind(r: PackageRow) {
    r.synced.None? || (r.committed.Some? && r.committed.value > r.synced.value)
  }

  /** No kind, no name, no names and a limit of 0 restrict nothing. */
  datatype Options = Options(
    kind: Option<PackageType>, name: string, names: set<string>, force: bool, includeInactive: bool, limit: nat)

  const DEFAULT := Options(None, "", {}, false, false, 0)

  /** Compared as text, an RFC 3339 time is before an SQLite time only if its day is. */
  predicate IsDayBefore(a: Stamp, b: Stamp) {
    a / 86400 < b / 86400
  }

  /**
   The comparison of the stored text with SQLite's text for now less 30 days. It misses
   a package exactly if that was synced more than 30 days ago, but on the same day.
   */
  lemma TextComparesDays(synced: Stamp, now: Stamp)
    requires IsWritable(synced) && IsWritable(now - 30 * 86400)
    ensures var limit := now - 30 * 86400;
            && (Less(StampText(synced), SqliteText(CivilOf(limit))) <==> IsDayBefore(synced, limit))
            && ((IsDayBefore(synced, limit) <==> synced < limit) <==> !(synced < limit && synced / 86400 == limit / 86400))
  {
    SqliteOrderIsDayOrder(CivilOf(synced), CivilOf(now - 30 * 86400));
  }

  predicate IsSelected(k: Key, r: PackageRow, o: Options, now: Stamp) {
    && !r.closed
    && (o.name == "" || k.slug == o.name)
    && (o.names == {} || k.slug in o.names)
    && (o.kind.None? || k.kind == o.kind.value)
    && (if !o.force && o.name == "" then
          if o.includeInactive then IsBehind(r) || (!r.active && IsDayBefore(r.synced.value, now - 30 * 86400))
          else r.active && IsBehind(r)
        else o.includeInactive || o.name != "" || r.active)
  }

  // ----- The retry decision -----

  datatype Decision = Advance | Retry | Expire

  /** Keeps a package dirty while a release may still be on its way. */
  function Decide(
    listed: map<string, string>, stored: map<string, string>, pendingStable: bool, kind: PackageType,
    committed: Option<Stamp>, now: Instant): Decision
  {
    var window := if pendingStable && kind == Theme then PENDING_STABLE_RETRY_WINDOW else STALE_RETRY_WINDOW;
    var within := committed.Some? && now - committed.value * SECOND <= window;
    if pendingStable && within then Retry
    else if listed != stored then Advance
    else if within then Retry
    else Expire
  }

  /** Exactly when a fetched package stays dirty, and how the two other outcomes differ. */
  lemma DecisionMeans(
    listed: map<string, string>, stored: map<string, string>, pendingStable: bool, kind: PackageType,
    committed: Option<Stamp>, now: Instant)
    ensures var d := Decide(listed, stored, pendingStable, kind, committed, now);
            var age := if committed.Some? then now - committed.value * SECOND else PENDING_STABLE_RETRY_WINDOW + 1;
            && (d == Retry <==>
                || (pendingStable && kind == Theme && age <= PENDING_STABLE_RETRY_WINDOW)
                || ((pendingStable || listed == stored) && age <= STALE_RETRY_WINDOW))
            && (d == Expire ==> listed == stored)
            && (d == Advance ==> listed != stored)
  {}

  // ----- What the statements do to a row -----

  const NO_VERSIONS: map<string, string> := map[]

  function Upserted(
    r: PackageRow, versions: map<string, string>, updated: Option<Stamp>, synced: Option<Stamp>): PackageRow {
    PackageRow(versions, true, r.closed, LaterOf(r.committed, updated), if synced.Some? then synced else r.synced, r.trunk)
  }

  function Deactivated(r: PackageRow): PackageRow { r.(active := false) }

  function Tombstoned(r: PackageRow): PackageRow { r.(active := false, closed := true) }

  function Reactivated(r: PackageRow): PackageRow { r.(active := true, synced := None) }

  function Marked(r: PackageRow, revision: int, now: Stamp): PackageRow {
    if r.active then r.(committed := Some(now), trunk := Some(revision)) else r
  }

  /** The sync time an update writes, decided by the row it has listed. */
  function WrittenSync(kind: PackageType, listed: PackageRow, response: Response, now: Instant): Option<Stamp>
    requires response.Fetched?
  {
    if Decide(response.versions, listed.versions, response.pendingStable, kind, listed.committed, now) == Retry
    then listed.synced else Some(StampOf(now))
  }

  /** What an update's write makes of a row that it listed earlier. */
  function UpdatedRow(
    kind: PackageType, r: PackageRow, listed: PackageRow, response: Response, now: Instant): PackageRow {
    match response
    case Unreachable => r
    case NotFound => Deactivated(r)
    case ClosedForGood => Tombstoned(r)
    case Fetched(versions, _, updated) => Upserted(r, versions, updated, WrittenSync(kind, listed, response, now))
  }

  /** A status check decides by whether the package was active when the command listed it. */
  function CheckedRow(r: PackageRow, seenActive: bool, response: Response): PackageRow {
    match response
    case Unreachable => r
    case NotFound => if seenActive then Deactivated(r) else r
    case ClosedForGood => Tombstoned(r)
    case Fetched(_, _, _) => if seenActive then r else Reactivated(r)
  }

  /** A shell record: created if missing, otherwise its commit time moves forward. */
  function Shelled(r: Option<PackageRow>, updated: Option<Stamp>): PackageRow {
    if r.None? then PackageRow(NO_VERSIONS, true, false, updated, None, None)
    else if r.value.closed then r.value
    else r.value.(committed := LaterOf(r.value.committed, updated))
  }

  /**
   Marking makes an open, active package due exactly when its last sync is in an
   earlier second: within the same second the mark is lost.
   */
  lemma MarkMakesDueIff(r: PackageRow, revision: int, now: Stamp)
    requires r.active && !r.closed
    ensures IsDue(Marked(r, revision, now)) <==> r.synced.None? || r.synced.value < now
  {}

  // ----- Runs -----

  /**
   The rows; which packages were marked, created or reactivated since update last let go
   of them; the rows that the update under way has listed and not written yet, if there
   is one; and which of those were reactivated since they were listed.
   */
  datatype State = State(
    rows: map<Key, PackageRow>, dirty: set<Key>, listed: map<Key, PackageRow>, revived: set<Key>)

  const EMPTY := State(map[], {}, map[], {})

  datatype Step =
    | Shell(key: Key, updated: Option<Stamp>)
    | Mark(key: Key, revision: int, now: Stamp)
    | ListRows(keys: set<Key>)
    | UpdateOne(key: Key, response: Response, now: Instant)
    | EndUpdate
    | CheckOne(key: Key, seenActive: bool, response: Response)

  /**
   Discover and update hold the pipeline lock, so neither runs during the other. A
   status check takes no lock: it may act at any time, on a package it listed any time
   before.
   */
  ghost predicate IsEnabled(s: State, step: Step) {
    match step
    case Shell(key, updated) => s.listed == map[]
    case Mark(key, revision, now) => s.listed == map[] && key in s.rows
    case ListRows(keys) => s.listed == map[] && forall k :: k in keys ==> k in s.rows && !s.rows[k].closed
    case UpdateOne(key, response, now) => key in s.listed && key in s.rows
    case EndUpdate => true
    case CheckOne(key, seenActive, response) => key in s.rows
  }

  function Next(s: State, step: Step): State {
    match step
    case Shell(key, updated) =>
      s.(rows := s.rows[key := Shelled(if key in s.rows then Some(s.rows[key]) else None, updated)],
         dirty := if key in s.rows then s.dirty else s.dirty + {key})
    case Mark(key, revision, now) =>
      if key !in s.rows then s
      else s.(rows := s.rows[key := Marked(s.rows[key], revision, now)],
              dirty := if s.rows[key].active then s.dirty + {key} else s.dirty)
    case ListRows(keys) => s.(listed := map k | k in keys && k in s.rows :: s.rows[k], revived := {})
    case UpdateOne(key, response, now) =>
      if key !in s.rows || key !in s.listed then s
      else State(s.rows[key := UpdatedRow(key.kind, s.rows[key], s.listed[key], response, now)],
                 if LetsGo(key.kind, s.listed[key], response, now) && key !in s.revived then s.dirty - {key} else s.dirty,
                 s.listed - {key}, s.revived - {key})
    case EndUpdate => s.(listed := map[], revived := {})
    case CheckOne(key, seenActive, response) =>
      if key !in s.rows then s
      else s.(rows := s.rows[key := CheckedRow(s.rows[key], seenActive, response)],
              dirty := if response.Fetched? && !seenActive then s.dirty + {key} else s.dirty,
              revived := if response.Fetched? && !seenActive && key in s.listed then s.revived + {key} else s.revived)
  }

  /** Update decides to advance or to expire. */
  predicate LetsGo(kind: PackageType, listed: PackageRow, response: Response, now: Instant) {
    response.Fetched? &&
    Decide(response.versions, listed.versions, response.pendingStable, kind, listed.committed, now) != Retry
  }

  ghost predicate IsRun(s: State, steps: seq<Step>)
    decreases |steps|
  {
    steps == [] || (IsEnabled(s, steps[0]) && IsRun(Next(s, steps[0]), steps[1..]))
  }

  function After(s: State, steps: seq<Step>): State
    decreases |steps|
  {
    if steps == [] then s else After(Next(s, steps[0]), steps[1..])
  }

  /** No package with news looks up to date, and no closed one is active. */
  ghost predicate IsGood(s: State) {
    && (forall k :: k in s.dirty && k in s.rows ==> IsBehind(s.rows[k]))
    && forall k :: k in s.rows && s.rows[k].closed ==> !s.rows[k].active
  }

  /** What update has listed is what the rows still hold, except for what status checks change. */
  ghost predicate IsListing(s: State) {
    && s.dirty <= s.rows.Keys && s.revived <= s.dirty && s.revived <= s.listed.Keys <= s.rows.Keys
    && forall k :: k in s.listed ==>
         && (k in s.revived ==> s.rows[k].synced.None?)
         && (k !in s.revived ==> s.rows[k].synced == s.listed[k].synced)
         && s.rows[k].committed == s.listed[k].committed && s.rows[k].versions == s.listed[k].versions
  }

  /** The row still has news after the write: no sync time is written, or an earlier one than its last commit. */
  predicate WriteKeepsNews(kind: PackageType, r: PackageRow, listed: PackageRow, response: Response, now: Instant) {
    response.Fetched? ==>
      var written := WrittenSync(kind, listed, response, now);
      var committed := LaterOf(r.committed, response.updated);
      written.None? || (committed.Some? && committed.value > written.value)
  }

  /**
   A mark is harmless in a later second than the last sync; an update's write, unless
   it finds a package that was closed since it was listed, or settles one that was
   reactivated since; a status check, unless it finds a package it listed as inactive
   that was closed since.
   */
  ghost predicate IsHarmless(s: State, step: Step) {
    match step
    case Mark(key, revision, now) =>
      key in s.rows && s.rows[key].active ==> s.rows[key].synced.None? || s.rows[key].synced.value < now
    case UpdateOne(key, response, now) =>
      key in s.rows && key in s.listed ==>
        && (s.rows[key].closed ==> !response.Fetched?)
        && (key in s.revived ==> WriteKeepsNews(key.kind, s.rows[key], s.listed[key], response, now))
    case CheckOne(key, seenActive, response) => key in s.rows && s.rows[key].closed && response.Fetched? ==> seenActive
    case _ => true
  }

  ghost predicate AreHarmless(s: State, steps: seq<Step>)
    decreases |steps|
  {
    steps == [] || (IsHarmless(s, steps[0]) && AreHarmless(Next(s, steps[0]), steps[1..]))
  }

  /** Whatever commands overlap: the listing invariant holds, and closed rows stay closed. */
  lemma StepKeepsListing(s: State, step: Step)
    requires IsListing(s) && IsEnabled(s, step)
    ensures IsListing(Next(s, step))
    ensures forall k :: k in s.rows && s.rows[k].closed ==>
              k in Next(s, step).rows && Next(s, step).rows[k].closed
  {}

  /** Each step keeps news and tombstones exactly if it is harmless. */
  lemma StepKeepsIff(s: State, step: Step)
    requires IsListing(s) && IsGood(s) && IsEnabled(s, step)
    ensures IsGood(Next(s, step)) <==> IsHarmless(s, step)
  {
    match step
    case UpdateOne(key, response, now) => UpdateKeepsIff(s, key, response, now);
    case Mark(key, revision, now) => MarkKeepsIff(s, key, revision, now);
    case CheckOne(key, seenActive, response) => CheckKeepsIff(s, key, seenActive, response);
    case _ =>
  }

  /** The step changes one row, and adds or removes at most that key from the dirty ones. */
  ghost predicate TouchesOnly(s: State, e: State, key: Key) {
    && key in s.rows && s.rows.Keys == e.rows.Keys
    && forall k :: k != key ==> (k in s.dirty <==> k in e.dirty) && (k in s.rows ==> e.rows[k] == s.rows[k])
  }

  lemma OneRowDecides(s: State, e: State, key: Key)
    requires IsGood(s) && TouchesOnly(s, e, key)
    ensures IsGood(e) <==> (key in e.dirty ==> IsBehind(e.rows[key])) && (e.rows[key].closed ==> !e.rows[key].active)
  {}

  lemma MarkKeepsIff(s: State, key: Key, revision: int, now: Stamp)
    requires IsGood(s) && key in s.rows
    ensures IsGood(Next(s, Mark(key, revision, now))) <==> IsHarmless(s, Mark(key, revision, now))
  {
    OneRowDecides(s, Next(s, Mark(key, revision, now)), key);
  }

  lemma CheckKeepsIff(s: State, key: Key, seenActive: bool, response: Response)
    requires IsGood(s) && key in s.rows
    ensures IsGood(Next(s, CheckOne(key, seenActive, response))) <==> IsHarmless(s, CheckOne(key, seenActive, response))
  {
    OneRowDecides(s, Next(s, CheckOne(key, seenActive, response)), key);
  }

  lemma UpdateKeepsIff(s: State, key: Key, response: Response, now: Instant)
    requires IsListing(s) && IsGood(s) && key in s.rows && key in s.listed
    ensures IsGood(Next(s, UpdateOne(key, response, now))) <==> IsHarmless(s, UpdateOne(key, response, now))
  {
    OneRowDecides(s, Next(s, UpdateOne(key, response, now)), key);
  }

  lemma {:induction false} RunKeepsListing(s: State, steps: seq<Step>)
    requires IsListing(s) && IsRun(s, steps)
    ensures IsListing(After(s, steps))
    ensures forall k :: k in s.rows && s.rows[k].closed ==> k in After(s, steps).rows && After(s, steps).rows[k].closed
    decreases |steps|
  {
    if steps != [] {
      StepKeepsListing(s, steps[0]);
      RunKeepsListing(Next(s, steps[0]), steps[1..]);
    }
  }

  lemma {:induction false} RunKeepsGood(s: State, steps: seq<Step>)
    requires IsListing(s) && IsGood(s) && IsRun(s, steps) && AreHarmless(s, steps)
    ensures IsGood(After(s, steps))
    decreases |steps|
  {
    if steps != [] {
      StepKeepsListing(s, steps[0]);
      StepKeepsIff(s, steps[0]);
      RunKeepsGood(Next(s, steps[0]), steps[1..]);
    }
  }

  /**
   No change is forgotten: after any run of harmless steps, an open and active package
   that was marked, created or reactivated, and that no update has let go of since, is
   selected by a default update.
   */
  lemma DirtyIsSelected(steps: seq<Step>, k: Key, now: Stamp)
    requires IsRun(EMPTY, steps) && AreHarmless(EMPTY, steps)
    ensures var e := After(EMPTY, steps);
            && (k in e.dirty ==> k in e.rows)
            && (k in e.dirty && e.rows[k].active && !e.rows[k].closed ==> IsSelected(k, e.rows[k], DEFAULT, now))
  {
    RunKeepsListing(EMPTY, steps);
    RunKeepsGood(EMPTY, steps);
  }

  /**
   A tombstone is for good: over any run nothing reopens the row and no options select
   it; over harmless steps it stays inactive too.
   */
  lemma TombstoneIsFinal(before: seq<Step>, steps: seq<Step>, k: Key, o: Options, now: Stamp)
    requires IsRun(EMPTY, before) && IsRun(After(EMPTY, before), steps)
    requires k in After(EMPTY, before).rows && After(EMPTY, before).rows[k].closed
    ensures var e := After(After(EMPTY, before), steps);
            && k in e.rows && e.rows[k].closed && !IsSelected(k, e.rows[k], o, now)
            && (AreHarmless(EMPTY, before) && AreHarmless(After(EMPTY, before), steps) ==> !e.rows[k].active)
  {
    RunKeepsListing(EMPTY, before);
    RunKeepsListing(After(EMPTY, before), steps);
    if AreHarmless(EMPTY, before) && AreHarmless(After(EMPTY, before), steps) {
      RunKeepsGood(EMPTY, before);
      RunKeepsGood(After(EMPTY, before), steps);
    }
  }

  /**
   When a tombstone stays inactive: under a status check exactly unless the check
   listed the package as inactive and finds it; under an update's write exactly unless
   the update has fetched it.
   */
  lemma TombstoneSurvivesIff(s: State, k: Key, seenActive: bool, response: Response, now: Instant)
    requires IsGood(s) && k in s.rows && s.rows[k].closed
    ensures var e := Next(s, CheckOne(k, seenActive, response));
            e.rows[k].closed && (!e.rows[k].active <==> seenActive || !response.Fetched?)
    ensures var e := Next(s, UpdateOne(k, response, now));
            k in s.listed ==> e.rows[k].closed && (!e.rows[k].active <==> !response.Fetched?)
  {}

  /**
   When a reactivation that came after update's listing survives its write: exactly if
   nothing was fetched, or the sync time written is NULL or before the last commit known.
   */
  lemma ReactivationSurvivesIff(s: State, k: Key, response: Response, now: Instant)
    requires IsListing(s) && k in s.revived
    ensures var e := Next(s, UpdateOne(k, response, now));
            k in e.dirty && (IsBehind(e.rows[k]) <==> WriteKeepsNews(k.kind, s.rows[k], s.listed[k], response, now))
  {}

  // ----- Runs that lose a change -----

  lemma {:induction false} RunStep(s: State, steps: seq<Step>, step: Step)
    requires IsRun(s, steps) && IsEnabled(After(s, steps), step)
    ensures IsRun(s, steps + [step]) && After(s, steps + [step]) == Next(After(s, steps), step)
    decreases |steps|
  {
    if steps != [] {
      RunStep(Next(s, steps[0]), steps[1..], step);
      assert (steps + [step])[1..] == steps[1..] + [step];
    } else {
      assert [step][1..] == [];
    }
  }

  /** A check that listed a package as inactive reactivates it after an update has closed it for good. */
  lemma StaleCheckReactivates(k: Key, found: Response)
    requires found.Fetched?
    ensures var listed := [Shell(k, None), CheckOne(k, true, NotFound)];
            var steps := listed + [ListRows({k})] + [UpdateOne(k, ClosedForGood, 0)] + [CheckOne(k, false, found)];
            var e := After(EMPTY, steps);
            && IsRun(EMPTY, listed) && k in After(EMPTY, listed).rows && !After(EMPTY, listed).rows[k].active
            && IsRun(EMPTY, steps) && k in e.rows && e.rows[k].closed && e.rows[k].active
  {
    var listed := [Shell(k, None), CheckOne(k, true, NotFound)];
    RunStep(EMPTY, [], Shell(k, None));
    assert [] + [Shell(k, None)] == [Shell(k, None)];
    RunStep(EMPTY, [Shell(k, None)], CheckOne(k, true, NotFound));
    assert [Shell(k, None)] + [CheckOne(k, true, NotFound)] == listed;
    RunStep(EMPTY, listed, ListRows({k}));
    RunStep(EMPTY, listed + [ListRows({k})], UpdateOne(k, ClosedForGood, 0));
    RunStep(EMPTY, listed + [ListRows({k})] + [UpdateOne(k, ClosedForGood, 0)], CheckOne(k, false, found));
  }

  /** An update that listed a package as open writes it after a check has closed it for good. */
  lemma StaleUpdateReactivates(k: Key, found: Response, now: Instant)
    requires found.Fetched?
    ensures var steps := [Shell(k, None)] + [ListRows({k})] + [CheckOne(k, true, ClosedForGood)] + [UpdateOne(k, found, now)];
            var e := After(EMPTY, steps);
            IsRun(EMPTY, steps) && k in e.rows && e.rows[k].closed && e.rows[k].active
  {
    RunStep(EMPTY, [], Shell(k, None));
    assert [] + [Shell(k, None)] == [Shell(k, None)];
    RunStep(EMPTY, [Shell(k, None)], ListRows({k}));
    RunStep(EMPTY, [Shell(k, None)] + [ListRows({k})], CheckOne(k, true, ClosedForGood));
    RunStep(EMPTY, [Shell(k, None)] + [ListRows({k})] + [CheckOne(k, true, ClosedForGood)], UpdateOne(k, found, now));
  }

  const RELEASE: map<string, string> := map["1.0" := "1.0"]

  /** The API's answer after a release that the package has had all along. */
  function SameRelease(): Response {
    Fetched(RELEASE, false, None)
  }

  /** A package synced at 200 seconds, deactivated since, and listed by name in that state. */
  lemma ListedInactive(k: Key) returns (steps: seq<Step>, e: State)
    ensures IsRun(EMPTY, steps) && e == After(EMPTY, steps)
    ensures e == State(map[k := PackageRow(RELEASE, false, false, Some(100), Some(200), None)], {},
                       map[k := PackageRow(RELEASE, false, false, Some(100), Some(200), None)], {})
  {
    steps := [];
    e := EMPTY;
    for i := 0 to 5
      invariant IsRun(EMPTY, steps) && e == After(EMPTY, steps) && e == InactiveStages(k, i)
    {
      var step := InactiveStep(k, i);
      StageFollows(k, i);
      RunStep(EMPTY, steps, step);
      steps := steps + [step];
      e := Next(e, step);
    }
  }

  function InactiveStep(k: Key, i: nat): Step {
    if i == 0 then Shell(k, Some(100))
    else if i == 2 then UpdateOne(k, SameRelease(), 200 * SECOND)
    else if i == 3 then CheckOne(k, true, NotFound)
    else ListRows({k})
  }

  lemma StageFollows(k: Key, i: nat)
    requires i < 5
    ensures IsEnabled(InactiveStages(k, i), InactiveStep(k, i))
    ensures Next(InactiveStages(k, i), InactiveStep(k, i)) == InactiveStages(k, i + 1)
  {
    if i == 2 { assert "1.0" in RELEASE && RELEASE != NO_VERSIONS; }
  }

  function InactiveStages(k: Key, i: nat): State {
    var row := PackageRow(RELEASE, true, false, Some(100), Some(200), None);
    var shell := PackageRow(NO_VERSIONS, true, false, Some(100), None, None);
    var inactive := row.(active := false);
    if i == 0 then EMPTY
    else if i == 1 then State(map[k := shell], {k}, map[], {})
    else if i == 2 then State(map[k := shell], {k}, map[k := shell], {})
    else if i == 3 then State(map[k := row], {}, map[], {})
    else if i == 4 then State(map[k := inactive], {}, map[], {})
    else State(map[k := inactive], {}, map[k := inactive], {})
  }

  /**
   An update that listed an inactive package, by name, writes back its old sync time
   after a check has reactivated it: the package is not due, though no update has let
   go of it.
   */
  lemma StaleUpdateForgets(k: Key) returns (steps: seq<Step>, e: State)
    ensures IsRun(EMPTY, steps) && e == After(EMPTY, steps)
    ensures k in e.dirty && k in e.rows && e.rows[k].active && !e.rows[k].closed && !IsDue(e.rows[k])
  {
    steps, e := ListedInactive(k);
    RunStep(EMPTY, steps, CheckOne(k, false, SameRelease()));
    steps, e := steps + [CheckOne(k, false, SameRelease())], Next(e, CheckOne(k, false, SameRelease()));
    RunStep(EMPTY, steps, UpdateOne(k, SameRelease(), 300 * SECOND));
    steps, e := steps + [UpdateOne(k, SameRelease(), 300 * SECOND)], Next(e, UpdateOne(k, SameRelease(), 300 * SECOND));
  }

  // ----- Retries stop -----

  /** The step does not mark, create or reactivate the package, and the API reports no later commit. */
  ghost predicate IsQuiet(step: Step, k: Key, limit: Stamp) {
    match step
    case Shell(key, updated) => key == k && updated.Some? ==> updated.value <= limit
    case Mark(key, _, _) => key != k
    case UpdateOne(key, response, now) =>
      key == k && response.Fetched? ==>
        StampOf(now) >= limit && (response.updated.Some? ==> response.updated.value <= limit)
    case CheckOne(key, _, response) => key == k ==> !response.Fetched?
    case _ => true
  }

  /** Synced no earlier than any commit known of, in the row and in what an update has listed. */
  ghost predicate IsSettled(s: State, k: Key, limit: Stamp) {
    && k in s.rows && s.rows[k].synced.Some? && s.rows[k].synced.value >= limit
    && (s.rows[k].committed.Some? ==> s.rows[k].committed.value <= limit)
    && (k in s.listed ==> s.listed[k].synced.Some? && s.listed[k].synced.value >= limit)
  }

  lemma {:induction false} StaysSettled(s: State, steps: seq<Step>, k: Key, limit: Stamp)
    requires IsSettled(s, k, limit) && IsRun(s, steps) && forall i :: 0 <= i < |steps| ==> IsQuiet(steps[i], k, limit)
    ensures IsSettled(After(s, steps), k, limit)
    decreases |steps|
  {
    if steps != [] {
      assert IsQuiet(steps[0], k, limit);
      StaysSettled(Next(s, steps[0]), steps[1..], k, limit);
    }
  }

  /**
   Retries stop: once a fetch comes more than seven days after the last commit known,
   the package is not due again until it is marked, reactivated or committed to.
   */
  lemma RetriesStop(
    s: State, k: Key, response: Response, now: Instant, steps: seq<Step>, limit: Stamp)
    requires IsListing(s) && IsEnabled(s, UpdateOne(k, response, now)) && response.Fetched?
    requires IsQuiet(UpdateOne(k, response, now), k, limit)
    requires s.rows[k].committed.Some? ==> s.rows[k].committed.value <= limit
    requires now - limit * SECOND > PENDING_STABLE_RETRY_WINDOW
    requires IsRun(Next(s, UpdateOne(k, response, now)), steps)
    requires forall i :: 0 <= i < |steps| ==> IsQuiet(steps[i], k, limit)
    ensures var e := After(Next(s, UpdateOne(k, response, now)), steps);
            k in e.rows && !IsDue(e.rows[k])
  {
    StaysSettled(Next(s, UpdateOne(k, response, now)), steps, k, limit);
  }

  // ----- The commands -----

  datatype UpdateCounts = UpdateCounts(succeeded: nat, failed: nat, deactivated: nat, tombstoned: nat)

  datatype CheckCounts = CheckCounts(checked: nat, failed: nat, deactivated: nat, tombstoned: nat, reactivated: nat)

  class PackageRows {
    var rows: map<Key, PackageRow>
    ghost var dirty: set<Key>
    ghost var listed: map<Key, PackageRow>
    ghost var revived: set<Key>

    constructor ()
      ensures Abstract() == EMPTY
    {
      rows, dirty, listed, revived := map[], {}, map[], {};
    }

    ghost function Abstract(): State
      reads this
    {
      State(rows, dirty, listed, revived)
    }

    method MarkOne(k: Key, revision: int, now: Instant) returns (affected: nat)
      modifies this`rows, this`dirty
      ensures rows == MarkedAt(old(rows), k, revision, StampOf(now)) && dirty == old(dirty) + ActiveAt(old(rows), k)
      ensures affected == |ActiveAt(old(rows), k)|
    {
      affected := 0;
      if k in rows && rows[k].active {
        rows := rows[k := rows[k].(committed := Some(StampOf(now)), trunk := Some(revision))];
        dirty := dirty + {k};
        affected := 1;
      } else if k in rows {
        assert rows[k := rows[k]] == rows;
      }
    }

    method MarkAll(kind: PackageType, revisions: map<string, int>, now: Instant) returns (affected: nat)
      modifies this`rows, this`dirty
      ensures rows == MarkedRows(old(rows), kind, revisions, StampOf(now))
      ensures dirty == old(dirty) + MarkedKeys(old(rows), kind, revisions.Keys)
      ensures affected == |MarkedKeys(old(rows), kind, revisions.Keys)|
    {
      affected := 0;
      var todo := revisions.Keys;
      ghost var done: map<string, int>, before, marked: set<Key> := map[], rows, {};
      MarkedNone(rows, kind, StampOf(now));
      while todo != {}
        invariant todo <= revisions.Keys && done == revisions - todo
        invariant rows == MarkedRows(before, kind, done, StampOf(now))
        invariant marked == MarkedKeys(before, kind, done.Keys) && dirty == old(dirty) + marked && affected == |marked|
        decreases todo
      {
        var slug :| slug in todo;
        WalkOn(revisions, todo, slug);
        MarkedGrow(before, kind, done, slug, revisions[slug], StampOf(now));
        MarkedKeysGrow(before, kind, done, slug, StampOf(now));
        marked := marked + ActiveAt(rows, Key(kind, slug));
        done := done[slug := revisions[slug]];
        var n := MarkOne(Key(kind, slug), revisions[slug], now);
        affected := affected + n;
        todo := todo - {slug};
      }
      assert done == revisions;
    }

    /**
     Marks the given packages as changed, each with its revision; gives the number of
     rows affected. No mark is lost exactly if each comes in a later second than the
     last sync.
     */
    method MarkPackagesChanged(kind: PackageType, revisions: map<string, int>, now: Instant) returns (affected: nat)
      modifies this`rows, this`dirty
      ensures rows == MarkedRows(old(rows), kind, revisions, StampOf(now))
      ensures dirty == old(dirty) + MarkedKeys(old(rows), kind, revisions.Keys)
      ensures affected == |MarkedKeys(old(rows), kind, revisions.Keys)|
      ensures old(IsGood(Abstract())) ==>
                (IsGood(Abstract()) <==> forall k :: k in MarkedKeys(old(rows), kind, revisions.Keys) ==>
                   old(rows)[k].synced.None? || old(rows)[k].synced.value < StampOf(now))
    {
      if IsGood(Abstract()) { MarkedIsGood(Abstract(), kind, revisions, StampOf(now)); }
      affected := MarkAll(kind, revisions, now);
    }

    /** Creates a shell record for a slug found in the repository, or moves its commit time forward. */
    method UpsertShell(k: Key, updated: Option<Stamp>)
      modifies this`rows, this`dirty
      ensures Abstract() == Next(old(Abstract()), Shell(k, updated))
    {
      if k !in rows {
        rows, dirty := rows[k := PackageRow(NO_VERSIONS, true, false, updated, None, None)], dirty + {k};
      } else if !rows[k].closed {
        rows := rows[k := rows[k].(committed := LaterOf(rows[k].committed, updated))];
      } else {
        assert rows[k := rows[k]] == rows;
      }
    }

    /** Stores what the API answered for one package, given the row as it was listed. */
    method UpdateRow(k: Key, p: PackageRow, response: Response, now: Instant)
      requires k in rows && k in listed && listed[k] == p
      modifies this
      ensures Abstract() == Next(old(Abstract()), UpdateOne(k, response, now))
      ensures old(IsListing(Abstract()) && IsGood(Abstract())) ==>
                (IsGood(Abstract()) <==> old(IsHarmless(Abstract(), UpdateOne(k, response, now))))
    {
      if IsListing(Abstract()) && IsGood(Abstract()) { StepKeepsIff(Abstract(), UpdateOne(k, response, now)); }
      match response {
        case Unreachable =>
          assert rows[k := rows[k]] == rows;
        case NotFound => rows := rows[k := rows[k].(active := false)];
        case ClosedForGood => rows := rows[k := rows[k].(active := false, closed := true)];
        case Fetched(versions, pendingStable, updated) =>
          var decision := Decide(versions, p.versions, pendingStable, k.kind, p.committed, now);
          var synced := if decision == Retry then p.synced else Some(StampOf(now));
          rows := rows[k := Upserted(rows[k], versions, updated, synced)];
          if decision != Retry && k !in revived { dirty := dirty - {k}; }
      }
      listed, revived := listed - {k}, revived - {k};
    }

    /** Acts on the API's answer for a package, given whether it was active when listed. */
    method CheckRow(k: Key, seenActive: bool, response: Response)
      requires k in rows
      modifies this`rows, this`dirty, this`revived
      ensures Abstract() == Next(old(Abstract()), CheckOne(k, seenActive, response))
      ensures old(IsGood(Abstract())) ==>
                (IsGood(Abstract()) <==> old(IsHarmless(Abstract(), CheckOne(k, seenActive, response))))
    {
      if IsGood(Abstract()) { CheckKeepsIff(Abstract(), k, seenActive, response); }
      ghost var goal := Next(Abstract(), CheckOne(k, seenActive, response));
      var p := rows[k];
      if response == ClosedForGood {
        rows := rows[k := p.(active := false, closed := true)];
      } else if response == NotFound {
        if seenActive { rows := rows[k := p.(active := false)]; }
      } else if response.Fetched? && !seenActive {
        rows, dirty := rows[k := p.(active := true, synced := None)], dirty + {k};
        if k in listed { revived := revived + {k}; }
      }
      assert rows == goal.rows;
    }

    function NeedingUpdate(o: Options, now: Stamp): set<Key>
      reads this
    {
      set k | k in rows && IsSelected(k, rows[k], o, now)
    }

    /** The packages due under the options, the longest unsynced first, up to the limit. */
    method GetPackagesNeedingUpdate(o: Options, now: Stamp) returns (selected: set<Key>)
      ensures IsSelection(rows, NeedingUpdate(o, now), o.limit, selected)
    {
      var due := NeedingUpdate(o, now);
      if o.limit == 0 { return due; }
      selected := {};
      while |selected| < o.limit && selected != due
        invariant selected <= due && |selected| <= o.limit && IsEarliest(rows, due, selected)
        decreases |due - selected|
      {
        ghost var first := EarliestExists(rows, due - selected);
        var k :| k in due - selected && forall j :: j in due - selected ==> !IsEarlier(rows[j].synced, rows[k].synced);
        assert due - (selected + {k}) < due - selected;
        ProperSubsetIsSmaller(due - (selected + {k}), due - selected);
        selected := selected + {k};
      }
      if selected != due { ProperSubsetIsSmaller(selected, due); }
    }

    /** The whole command without a status check in between: every selected package once, in any order. */
    method RunUpdate(o: Options, started: Instant, responses: Key -> Response, now: Key -> Instant)
      requires IsListing(Abstract()) && IsGood(Abstract()) && listed == map[]
      modifies this
      ensures IsListing(Abstract()) && IsGood(Abstract()) && listed == map[]
      ensures exists selected ::
                && IsSelection(old(rows), old(NeedingUpdate(o, StampOf(started))), o.limit, selected)
                && rows == Applied(old(rows), selected, (k: Key, r) => UpdatedRow(k.kind, r, r, responses(k), now(k)))
    {
      var selected := GetPackagesNeedingUpdate(o, StampOf(started));
      UpdateRows(selected, responses, now);
    }

    method UpdateRows(selected: set<Key>, responses: Key -> Response, now: Key -> Instant)
      requires IsListing(Abstract()) && IsGood(Abstract()) && listed == map[]
      requires selected <= rows.Keys && forall k :: k in selected ==> !rows[k].closed
      modifies this
      ensures IsListing(Abstract()) && IsGood(Abstract()) && listed == map[]
      ensures rows == Applied(old(rows), selected, (k: Key, r) => UpdatedRow(k.kind, r, r, responses(k), now(k)))
    {
      var todo := selected;
      ghost var done, before: map<Key, PackageRow> := {}, rows;
      ghost var f := (k: Key, r) => UpdatedRow(k.kind, r, r, responses(k), now(k));
      AppliedNone(rows, f);
      var packages := ListThem(selected);
      while todo != {}
        invariant IsListing(Abstract()) && IsGood(Abstract()) && revived == {}
        invariant todo == listed.Keys && forall k :: k in todo ==> listed[k] == packages[k]
        invariant done !! todo && done + todo == selected && rows == Applied(before, done, f)
        decreases todo
      {
        var k :| k in todo;
        AppliedGrow(before, done, k, f);
        UpdateListed(k, packages[k], responses(k), now(k));
        todo, done := todo - {k}, done + {k};
      }
      assert done == selected;
    }

    /** The rows as the query returns them. */
    method ListThem(selected: set<Key>) returns (packages: map<Key, PackageRow>)
      requires IsListing(Abstract()) && IsGood(Abstract()) && listed == map[]
      requires selected <= rows.Keys && forall k :: k in selected ==> !rows[k].closed
      modifies this`listed, this`revived
      ensures Abstract() == Next(old(Abstract()), ListRows(selected)) && packages == listed && packages.Keys == selected
      ensures IsListing(Abstract()) && IsGood(Abstract())
    {
      StepKeepsListing(Abstract(), ListRows(selected));
      packages := map k | k in selected :: rows[k];
      listed, revived := packages, {};
    }

    /** A write that no status check came before. */
    method UpdateListed(k: Key, p: PackageRow, response: Response, now: Instant)
      requires IsListing(Abstract()) && IsGood(Abstract()) && revived == {}
      requires k in listed && listed[k] == p && !rows[k].closed
      modifies this
      ensures IsListing(Abstract()) && IsGood(Abstract()) && revived == {} && listed == old(listed) - {k}
      ensures rows == old(rows)[k := UpdatedRow(k.kind, old(rows)[k], old(rows)[k], response, now)]
    {
      StepKeepsListing(Abstract(), UpdateOne(k, response, now));
      UpdateRow(k, p, response, now);
    }

    /** Every package that is not tombstoned is checked once, in any order. */
    method RunCheckStatus(kind: Option<PackageType>, responses: Key -> Response)
      requires IsGood(Abstract())
      modifies this`rows, this`dirty, this`revived
      ensures IsGood(Abstract())
      ensures rows == Applied(old(rows), CheckedKeys(old(rows), kind),
                              (k: Key, r: PackageRow) => CheckedRow(r, r.active, responses(k)))
    {
      var selected := CheckedKeys(rows, kind);
      var todo := selected;
      ghost var done, before: map<Key, PackageRow> := {}, rows;
      ghost var f := (k: Key, r: PackageRow) => CheckedRow(r, r.active, responses(k));
      AppliedNone(rows, f);
      while todo != {}
        invariant IsGood(Abstract()) && done !! todo && done + todo == selected && rows == Applied(before, done, f)
        decreases todo
      {
        var k :| k in todo;
        AppliedGrow(before, done, k, f);
        CheckRow(k, rows[k].active, responses(k));
        todo, done := todo - {k}, done + {k};
      }
      assert done == selected;
    }
  }

  /** NULL comes first, then earlier times. */
  predicate IsEarlier(a: Option<Stamp>, b: Option<Stamp>) {
    b.Some? && (a.None? || a.value < b.value)
  }

  /** No key left out was synced before one that is selected. */
  ghost predicate IsEarliest(rows: map<Key, PackageRow>, due: set<Key>, selected: set<Key>)
    requires due <= rows.Keys && selected <= due
  {
    forall a, b :: a in selected && b in due && b !in selected ==> !IsEarlier(rows[b].synced, rows[a].synced)
  }

  ghost predicate IsSelection(rows: map<Key, PackageRow>, due: set<Key>, limit: nat, selected: set<Key>)
    requires due <= rows.Keys
  {
    && selected <= due && IsEarliest(rows, due, selected)
    && (if limit == 0 || |due| <= limit then selected == due else |selected| == limit)
  }

  lemma {:induction false} EarliestExists(rows: map<Key, PackageRow>, keys: set<Key>) returns (k: Key)
    requires keys != {} && keys <= rows.Keys
    ensures k in keys && forall j :: j in keys ==> !IsEarlier(rows[j].synced, rows[k].synced)
    decreases |keys|
  {
    k :| k in keys;
    if keys != {k} {
      ProperSubsetIsSmaller(keys - {k}, keys);
      var best := EarliestExists(rows, keys - {k});
      if !IsEarlier(rows[k].synced, rows[best].synced) { k := best; }
    }
  }

  lemma ProperSubsetIsSmaller<T>(a: set<T>, b: set<T>)
    requires a < b
    ensures |a| < |b|
  {
    assert |b - a| + |a| == |b| by { assert (b - a) + a == b; }
    assert b - a != {};
  }

  function CheckedKeys(rows: map<Key, PackageRow>, kind: Option<PackageType>): set<Key> {
    set k | k in rows && !rows[k].closed && (kind.None? || k.kind == kind.value)
  }

  /** The rows with f applied to those of the given keys. */
  function Applied(rows: map<Key, PackageRow>, keys: set<Key>, f: (Key, PackageRow) -> PackageRow)
    : map<Key, PackageRow>
  {
    map k | k in rows :: if k in keys then f(k, rows[k]) else rows[k]
  }

  lemma AppliedNone(rows: map<Key, PackageRow>, f: (Key, PackageRow) -> PackageRow)
    ensures Applied(rows, {}, f) == rows
  {}

  lemma AppliedGrow(rows: map<Key, PackageRow>, keys: set<Key>, k: Key, f: (Key, PackageRow) -> PackageRow)
    requires k in rows && k !in keys
    ensures Applied(rows, keys + {k}, f) == Applied(rows, keys, f)[k := f(k, rows[k])]
    ensures k in Applied(rows, keys, f) && Applied(rows, keys, f)[k] == rows[k]
  {}

  lemma MarkedIsGood(s: State, kind: PackageType, revisions: map<string, int>, now: Stamp)
    requires IsGood(s)
    ensures var marked := MarkedKeys(s.rows, kind, revisions.Keys);
            IsGood(s.(rows := MarkedRows(s.rows, kind, revisions, now), dirty := s.dirty + marked)) <==>
            forall k :: k in marked ==> s.rows[k].synced.None? || s.rows[k].synced.value < now
  {
    var marked := MarkedKeys(s.rows, kind, revisions.Keys);
    var after := MarkedRows(s.rows, kind, revisions, now);
    forall k | k in marked
      ensures IsBehind(after[k]) <==> s.rows[k].synced.None? || s.rows[k].synced.value < now
    {}
    forall k | k in s.dirty && k in s.rows && k !in marked ensures k in after && IsBehind(after[k]) {}
    forall k | k in after && after[k].closed ensures !after[k].active {}
  }

  function MarkedRows(rows: map<Key, PackageRow>, kind: PackageType, revisions: map<string, int>, now: Stamp)
    : map<Key, PackageRow>
  {
    map k | k in rows ::
      if k.kind == kind && k.slug in revisions then Marked(rows[k], revisions[k.slug], now) else rows[k]
  }

  /** The active packages among the slugs of a type. */
  function MarkedKeys(rows: map<Key, PackageRow>, kind: PackageType, slugs: set<string>): set<Key> {
    set k | k in rows && rows[k].active && k.kind == kind && k.slug in slugs
  }

  function MarkedAt(rows: map<Key, PackageRow>, k: Key, revision: int, now: Stamp): map<Key, PackageRow> {
    if k in rows then rows[k := Marked(rows[k], revision, now)] else rows
  }

  function ActiveAt(rows: map<Key, PackageRow>, k: Key): set<Key> {
    if k in rows && rows[k].active then {k} else {}
  }

  lemma MarkedNone(rows: map<Key, PackageRow>, kind: PackageType, now: Stamp)
    ensures MarkedRows(rows, kind, map[], now) == rows && MarkedKeys(rows, kind, {}) == {}
  {}

  lemma MarkedGrow(
    rows: map<Key, PackageRow>, kind: PackageType, revisions: map<string, int>, slug: string, revision: int, now: Stamp)
    requires slug !in revisions
    ensures var before := MarkedRows(rows, kind, revisions, now);
            MarkedRows(rows, kind, revisions[slug := revision], now) == MarkedAt(before, Key(kind, slug), revision, now)
  {}

  lemma MarkedKeysGrow(
    rows: map<Key, PackageRow>, kind: PackageType, revisions: map<string, int>, slug: string, now: Stamp)
    requires slug !in revisions
    ensures var more := ActiveAt(MarkedRows(rows, kind, revisions, now), Key(kind, slug));
            var marked := MarkedKeys(rows, kind, revisions.Keys);
            && MarkedKeys(rows, kind, revisions.Keys + {slug}) == marked + more
            && |MarkedKeys(rows, kind, revisions.Keys + {slug})| == |marked| + |more|
  {
    var k := Key(kind, slug);
    var more := ActiveAt(MarkedRows(rows, kind, revisions, now), k);
    assert k !in MarkedKeys(rows, kind, revisions.Keys);
    assert MarkedKeys(rows, kind, revisions.Keys + {slug}) == MarkedKeys(rows, kind, revisions.Keys) + more;
  }
}
