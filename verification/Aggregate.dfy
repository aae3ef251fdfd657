/**
 Incremental aggregation of install events: a watermark and a running monthly table
 against a recount of every event ever recorded, through inserts, crashes and pruning.
 */
module Aggregate {
  import opened Text

  /** Seconds. The modelled strings are fixed-width, so they order as their times do. */
  type Time = int

  const DAY := 24 * 60 * 60
  const RECENT := 30 * DAY
  const RETENTION := 365 * DAY

  /** A row of install_events; month is what strftime makes of created. */
  datatype Event = Event(pkg: int, month: string, created: Time)

  datatype Key = Key(pkg: int, month: string)

  datatype Counters = Counters(total: nat, recent: nat, lastInstalled: Option<Time>)

  /** The watermark is the id of the last event counted, 0 before the first run. */
  datatype Tables = Tables(
    events: map<nat, Event>, monthly: map<Key, nat>, watermark: nat, packages: map<int, Counters>)

  function KeyOf(e: Event): Key {
    Key(e.pkg, e.month)
  }

  function At(monthly: map<Key, nat>, k: Key): nat {
    if k in monthly then monthly[k] else 0
  }

  // ----- What the statements compute -----

  /** The events of one package and month after an id. */
  function IdsAfter(events: map<nat, Event>, above: nat, k: Key): set<nat> {
    set id | id in events && above < id && KeyOf(events[id]) == k
  }

  function KeysAfter(events: map<nat, Event>, above: nat): set<Key> {
    set id | id in events && above < id :: KeyOf(events[id])
  }

  function TimesAfter(events: map<nat, Event>, above: nat, pkg: int): set<Time> {
    set id | id in events && above < id && events[id].pkg == pkg :: events[id].created
  }

  ghost function Greatest(times: set<Time>): Option<Time> {
    if times == {} then None else Some(Max(times))
  }

  function MonthsOf(monthly: map<Key, nat>, pkg: int): set<Key> {
    set k | k in monthly && k.pkg == pkg
  }

  ghost function SumOver(monthly: map<Key, nat>, keys: set<Key>): nat
    requires keys <= monthly.Keys
    decreases |keys|
  {
    if keys == {} then 0
    else
      var k :| k in keys;
      monthly[k] + SumOver(monthly, keys - {k})
  }

  function RecentIds(events: map<nat, Event>, now: Time, pkg: int): set<nat> {
    set id | id in events && events[id].created >= now - RECENT && events[id].pkg == pkg
  }

  /** COALESCE(MAX(id), 0). */
  ghost predicate IsNewest(events: map<nat, Event>, n: nat) {
    (if events == map[] then n == 0 else n in events) && forall id :: id in events ==> id <= n
  }

  ghost function LastInstalls(packages: map<int, Counters>, events: map<nat, Event>, above: nat): map<int, Counters> {
    map p | p in packages ::
      packages[p].(lastInstalled := LaterOf(packages[p].lastInstalled, Greatest(TimesAfter(events, above, p))))
  }

  /**
   The transaction: monthly counts, last install times and the watermark together. The
   watermark mark and the greatest id found were read before it.
   */
  ghost function CountNew(t: Tables, mark: nat, found: nat): Tables {
    if found <= mark then t
    else Tables(
           t.events,
           map k | k in t.monthly.Keys + KeysAfter(t.events, mark) :: At(t.monthly, k) + |IdsAfter(t.events, mark, k)|,
           found,
           LastInstalls(t.packages, t.events, mark))
  }

  ghost function RefreshTotals(t: Tables): Tables {
    t.(packages := map p | p in t.packages ::
         var months := MonthsOf(t.monthly, p);
         if months == {} then t.packages[p] else t.packages[p].(total := SumOver(t.monthly, months)))
  }

  function ResetTotals(t: Tables): Tables {
    t.(packages := map p | p in t.packages ::
         if MonthsOf(t.monthly, p) == {} then t.packages[p].(total := 0, lastInstalled := None) else t.packages[p])
  }

  function CountRecent(t: Tables, now: Time): Tables {
    t.(packages := map p | p in t.packages ::
         var n := |RecentIds(t.events, now, p)|;
         if n == 0 then t.packages[p] else t.packages[p].(recent := n))
  }

  function ResetRecent(t: Tables, now: Time): Tables {
    t.(packages := map p | p in t.packages ::
         if |RecentIds(t.events, now, p)| == 0 then t.packages[p].(recent := 0) else t.packages[p])
  }

  function Prune(t: Tables, now: Time): Tables {
    t.(events := map id | id in t.events && t.events[id].created >= now - RETENTION :: t.events[id])
  }

  // ----- The recount -----

  function IdsUpTo(ever: map<nat, Event>, watermark: nat, keys: set<Key>): set<nat> {
    set id | id in ever && id <= watermark && KeyOf(ever[id]) in keys
  }

  function PackageIdsUpTo(ever: map<nat, Event>, watermark: nat, pkg: int): set<nat> {
    set id | id in ever && id <= watermark && ever[id].pkg == pkg
  }

  /** How many events of a package and month were ever recorded, up to the watermark. */
  function Recount(ever: map<nat, Event>, watermark: nat, k: Key): nat {
    |IdsUpTo(ever, watermark, {k})|
  }

  function RecountAll(ever: map<nat, Event>, watermark: nat, pkg: int): nat {
    |PackageIdsUpTo(ever, watermark, pkg)|
  }

  function TimesUpTo(ever: map<nat, Event>, watermark: nat, pkg: int): set<Time> {
    set id | id in ever && id <= watermark && ever[id].pkg == pkg :: ever[id].created
  }

  /** What is stored was once recorded, and whatever is gone was counted first. */
  ghost predicate IsHistory(t: Tables, ever: map<nat, Event>) {
    && (forall id :: id in t.events ==> id in ever && ever[id] == t.events[id])
    && (forall id :: id in ever ==> id > 0 && ever[id].pkg in t.packages)
    && forall id :: id in ever && id !in t.events ==> id <= t.watermark
  }

  ghost predicate IsRecount(monthly: map<Key, nat>, watermark: nat, ever: map<nat, Event>) {
    forall k: Key :: IsRecountAt(monthly, watermark, ever, k)
  }

  ghost predicate IsRecountAt(monthly: map<Key, nat>, watermark: nat, ever: map<nat, Event>, k: Key) {
    && At(monthly, k) == Recount(ever, watermark, k)
    && (k in monthly <==> Recount(ever, watermark, k) > 0)
  }

  ghost predicate AreLastInstalls(packages: map<int, Counters>, watermark: nat, ever: map<nat, Event>) {
    forall p :: p in packages ==> packages[p].lastInstalled == Greatest(TimesUpTo(ever, watermark, p))
  }

  ghost predicate AreTotals(packages: map<int, Counters>, watermark: nat, ever: map<nat, Event>) {
    forall p :: p in packages ==> packages[p].total == RecountAll(ever, watermark, p)
  }

  // ----- One transaction -----

  lemma Disjoint<T>(a: set<T>, b: set<T>, c: set<T>)
    requires a !! b && a + b == c
    ensures |c| == |a| + |b|
  {}

  /** The events of one package and month between two ids. */
  function IdsBetween(events: map<nat, Event>, above: nat, upTo: nat, k: Key): set<nat> {
    set id | id in events && above < id <= upTo && KeyOf(events[id]) == k
  }

  /** What the transaction counts beyond the recount up to its new watermark. */
  function Surplus(t: Tables, ever: map<nat, Event>, mark: nat, found: nat, k: Key): nat {
    if t.watermark <= found then |IdsBetween(t.events, mark, t.watermark, k)| + |IdsAfter(t.events, found, k)|
    else |IdsBetween(ever, found, t.watermark, k)| + |IdsAfter(t.events, mark, k)|
  }

  /** What the transaction adds, against what the recount gains. */
  lemma CountedTwice(t: Tables, ever: map<nat, Event>, mark: nat, found: nat, k: Key)
    requires IsHistory(t, ever) && mark <= t.watermark && mark < found
    ensures Recount(ever, t.watermark, k) + |IdsAfter(t.events, mark, k)| ==
            Recount(ever, found, k) + Surplus(t, ever, mark, found, k)
  {
    if t.watermark <= found { CountedAhead(t, ever, mark, found, k); } else { CountedBehind(t, ever, mark, found, k); }
  }

  lemma CountedAhead(t: Tables, ever: map<nat, Event>, mark: nat, found: nat, k: Key)
    requires IsHistory(t, ever) && mark <= t.watermark <= found
    ensures Recount(ever, t.watermark, k) + |IdsAfter(t.events, mark, k)| ==
            Recount(ever, found, k) + |IdsBetween(t.events, mark, t.watermark, k)| + |IdsAfter(t.events, found, k)|
  {
    var gained := IdsBetween(t.events, t.watermark, found, k);
    AfterInParts(t.events, mark, t.watermark, found, k);
    assert IdsUpTo(ever, t.watermark, {k}) + gained == IdsUpTo(ever, found, {k});
    Disjoint(IdsUpTo(ever, t.watermark, {k}), gained, IdsUpTo(ever, found, {k}));
  }

  lemma AfterInParts(events: map<nat, Event>, a: nat, b: nat, c: nat, k: Key)
    requires a <= b <= c
    ensures |IdsAfter(events, a, k)| ==
            |IdsBetween(events, a, b, k)| + |IdsBetween(events, b, c, k)| + |IdsAfter(events, c, k)|
  {
    var first, second, rest := IdsBetween(events, a, b, k), IdsBetween(events, b, c, k), IdsAfter(events, c, k);
    assert first + second + rest == IdsAfter(events, a, k);
    Disjoint(first + second, rest, first + second + rest);
    Disjoint(first, second, first + second);
  }

  lemma CountedBehind(t: Tables, ever: map<nat, Event>, mark: nat, found: nat, k: Key)
    requires found < t.watermark
    ensures Recount(ever, t.watermark, k) == Recount(ever, found, k) + |IdsBetween(ever, found, t.watermark, k)|
  {
    var more := IdsBetween(ever, found, t.watermark, k);
    assert IdsUpTo(ever, found, {k}) + more == IdsUpTo(ever, t.watermark, {k});
    Disjoint(IdsUpTo(ever, found, {k}), more, IdsUpTo(ever, t.watermark, {k}));
  }

  lemma GreatestOfBoth(a: set<Time>, b: set<Time>)
    ensures Greatest(a + b) == LaterOf(Greatest(a), Greatest(b))
  {
    if a == {} {
      assert a + b == b;
    } else if b != {} {
      MaxIs(a + b, if Max(b) > Max(a) then Max(b) else Max(a));
    } else {
      assert a + b == a;
    }
  }

  /** Nothing is counted again now or by a later run, whatever happened since the two reads. */
  ghost predicate IsUndisturbed(t: Tables, ever: map<nat, Event>, mark: nat, found: nat) {
    && (forall id :: id in t.events ==> id <= found && !(mark < id <= t.watermark))
    && forall id :: id in ever ==> !(found < id <= t.watermark)
  }

  /**
   The transaction takes the count to the new watermark exactly when no event was
   inserted after MAX(id) was read, and no other run has counted an event since the
   watermark was read: such an event is counted, but was counted before, or is left
   above the watermark to be counted again.
   */
  lemma CountNewIsExactIff(t: Tables, ever: map<nat, Event>, mark: nat, found: nat)
    requires IsHistory(t, ever) && IsRecount(t.monthly, t.watermark, ever) && mark <= t.watermark && mark < found
    ensures IsRecount(CountNew(t, mark, found).monthly, found, ever) <==> IsUndisturbed(t, ever, mark, found)
  {
    forall k: Key
      ensures IsRecountAt(CountNew(t, mark, found).monthly, found, ever, k) <==> Surplus(t, ever, mark, found, k) == 0
    {
      assert IsRecountAt(t.monthly, t.watermark, ever, k);
      CountNewAt(t, ever, mark, found, k);
    }
    if IsUndisturbed(t, ever, mark, found) {
      forall k: Key ensures Surplus(t, ever, mark, found, k) == 0 { NoSurplus(t, ever, mark, found, k); }
    } else {
      var k := DisturbedKey(t, ever, mark, found);
      assert !IsRecountAt(CountNew(t, mark, found).monthly, found, ever, k);
    }
  }

  lemma NoSurplus(t: Tables, ever: map<nat, Event>, mark: nat, found: nat, k: Key)
    requires IsUndisturbed(t, ever, mark, found)
    ensures Surplus(t, ever, mark, found, k) == 0
  {
    assert IdsBetween(t.events, mark, t.watermark, k) == {} == IdsAfter(t.events, found, k);
    assert IdsBetween(ever, found, t.watermark, k) == {};
    assert t.watermark > found ==> IdsAfter(t.events, mark, k) == {};
  }

  lemma DisturbedKey(t: Tables, ever: map<nat, Event>, mark: nat, found: nat) returns (k: Key)
    requires mark <= t.watermark && mark < found && !IsUndisturbed(t, ever, mark, found)
    ensures Surplus(t, ever, mark, found, k) > 0
  {
    if id :| id in ever && found < id <= t.watermark {
      k := KeyOf(ever[id]);
      assert id in IdsBetween(ever, found, t.watermark, k);
    } else {
      var id :| id in t.events && !(id <= found && !(mark < id <= t.watermark));
      k := KeyOf(t.events[id]);
      if t.watermark > found {
        assert id in IdsAfter(t.events, mark, k);
      } else if id > found {
        assert id in IdsAfter(t.events, found, k);
      } else {
        assert id in IdsBetween(t.events, mark, t.watermark, k);
      }
    }
  }

  lemma CountNewAt(t: Tables, ever: map<nat, Event>, mark: nat, found: nat, k: Key)
    requires IsHistory(t, ever) && IsRecountAt(t.monthly, t.watermark, ever, k) && mark <= t.watermark && mark < found
    ensures IsRecountAt(CountNew(t, mark, found).monthly, found, ever, k) <==> Surplus(t, ever, mark, found, k) == 0
  {
    CountedTwice(t, ever, mark, found, k);
    KeysHaveIds(t.events, mark, k);
  }

  lemma KeysHaveIds(events: map<nat, Event>, above: nat, k: Key)
    ensures k in KeysAfter(events, above) <==> IdsAfter(events, above, k) != {}
  {
    if IdsAfter(events, above, k) != {} {
      var id := Pick(IdsAfter(events, above, k));
    }
    if k in KeysAfter(events, above) {
      var id :| id in events && above < id && KeyOf(events[id]) == k;
      assert id in IdsAfter(events, above, k);
    }
  }

  lemma CountNewKeepsLastInstall(t: Tables, ever: map<nat, Event>, found: nat)
    requires IsHistory(t, ever) && AreLastInstalls(t.packages, t.watermark, ever)
    requires forall id :: id in t.events ==> id <= found
    ensures var next := CountNew(t, t.watermark, found); AreLastInstalls(next.packages, next.watermark, ever)
  {
    if found > t.watermark {
      forall p | p in t.packages
        ensures CountNew(t, t.watermark, found).packages[p].lastInstalled == Greatest(TimesUpTo(ever, found, p))
      {
        GreatestOfBoth(TimesUpTo(ever, t.watermark, p), TimesAfter(t.events, t.watermark, p));
        assert TimesUpTo(ever, found, p) == TimesUpTo(ever, t.watermark, p) + TimesAfter(t.events, t.watermark, p);
      }
    }
  }

  // ----- Totals -----

  lemma {:induction false} SumSplit(monthly: map<Key, nat>, keys: set<Key>, k: Key)
    requires keys <= monthly.Keys && k in keys
    ensures SumOver(monthly, keys) == monthly[k] + SumOver(monthly, keys - {k})
    decreases |keys|
  {
    var c :| c in keys && SumOver(monthly, keys) == monthly[c] + SumOver(monthly, keys - {c});
    if c != k {
      SumSplit(monthly, keys - {c}, k);
      SumSplit(monthly, keys - {k}, c);
      assert keys - {c} - {k} == keys - {k} - {c};
    }
  }

  /** The months of a package partition its counted events. */
  lemma {:induction false} SumIsRecount(t: Tables, ever: map<nat, Event>, keys: set<Key>)
    requires keys <= t.monthly.Keys && IsRecount(t.monthly, t.watermark, ever)
    ensures SumOver(t.monthly, keys) == |IdsUpTo(ever, t.watermark, keys)|
    decreases |keys|
  {
    var all := IdsUpTo(ever, t.watermark, keys);
    if keys == {} {
      assert all == {};
    } else {
      var k := Pick(keys);
      SumSplit(t.monthly, keys, k);
      SumIsRecount(t, ever, keys - {k});
      assert IsRecountAt(t.monthly, t.watermark, ever, k);
      Disjoint(IdsUpTo(ever, t.watermark, {k}), IdsUpTo(ever, t.watermark, keys - {k}), all);
    }
  }

  lemma MonthsCoverPackage(t: Tables, ever: map<nat, Event>, p: int)
    requires IsRecount(t.monthly, t.watermark, ever)
    ensures SumOver(t.monthly, MonthsOf(t.monthly, p)) == RecountAll(ever, t.watermark, p)
  {
    var months := MonthsOf(t.monthly, p);
    SumIsRecount(t, ever, months);
    forall id | id in PackageIdsUpTo(ever, t.watermark, p) ensures KeyOf(ever[id]) in months {
      var k := KeyOf(ever[id]);
      assert IsRecountAt(t.monthly, t.watermark, ever, k);
      assert id in IdsUpTo(ever, t.watermark, {k});
    }
    assert PackageIdsUpTo(ever, t.watermark, p) == IdsUpTo(ever, t.watermark, months);
  }

  /** After both statements on totals, every total is the number of events counted. */
  lemma TotalsAreRecounts(t: Tables, ever: map<nat, Event>)
    requires IsRecount(t.monthly, t.watermark, ever)
    ensures AreTotals(ResetTotals(RefreshTotals(t)).packages, t.watermark, ever)
  {
    forall p | p in t.packages
      ensures ResetTotals(RefreshTotals(t)).packages[p].total == RecountAll(ever, t.watermark, p)
    {
      MonthsCoverPackage(t, ever, p);
    }
  }

  /** A package without months has no last install to lose. */
  lemma ResetTotalsKeepsLastInstall(t: Tables, ever: map<nat, Event>)
    requires IsRecount(t.monthly, t.watermark, ever) && AreLastInstalls(t.packages, t.watermark, ever)
    ensures AreLastInstalls(ResetTotals(t).packages, t.watermark, ever)
  {
    forall p | p in t.packages && MonthsOf(t.monthly, p) == {} ensures TimesUpTo(ever, t.watermark, p) == {} {
      MonthsCoverPackage(t, ever, p);
      NoTimes(ever, t.watermark, p);
    }
  }

  lemma NoTimes(ever: map<nat, Event>, watermark: nat, p: int)
    ensures PackageIdsUpTo(ever, watermark, p) == {} ==> TimesUpTo(ever, watermark, p) == {}
  {
    if TimesUpTo(ever, watermark, p) != {} {
      var time := Pick(TimesUpTo(ever, watermark, p));
      var id :| id in ever && id <= watermark && ever[id].pkg == p && ever[id].created == time;
      assert id in PackageIdsUpTo(ever, watermark, p);
    }
  }

  // ----- Runs -----

  /** How far the current aggregation has come; the statements run one by one. */
  datatype Phase =
    | Idle
    | Read(now: Time, mark: nat, found: nat)
    | Counted(now: Time)
    | Totaled(now: Time)
    | TotalsReset(now: Time)
    | RecentCounted(now: Time)
    | RecentReset(now: Time)

  /**
   The tables, the clock and the progress of the current run. For the statements only:
   every event ever recorded, and the events stored when the 30-day counts were taken.
   */
  datatype State = State(t: Tables, clock: Time, phase: Phase, ever: map<nat, Event>, seen: map<nat, Event>)

  datatype Step =
    | AddPackage(pkg: int)
    | Record(id: nat, event: Event, now: Time)
    | Begin(now: Time, found: nat)
    | Statement
    | Crash

  ghost predicate IsInitial(s: State) {
    s.t == Tables(map[], map[], 0, map[]) && s.phase == Idle && s.ever == map[]
  }

  /**
   When a step may happen: the clock does not run backwards, ids are never reused, an
   event is stored well within the retention period of its time, and none is stored
   between reading MAX(id) and the transaction. Runs of the aggregation do not overlap.
   */
  ghost predicate IsEnabled(s: State, step: Step) {
    match step
    case AddPackage(pkg) => pkg !in s.t.packages
    case Record(id, event, now) =>
      && s.clock <= now && event.created >= now - RETENTION && event.pkg in s.t.packages
      && id > 0 && (forall i :: i in s.ever ==> i < id) && !s.phase.Read?
    case Begin(now, found) => s.clock <= now && s.phase == Idle && IsNewest(s.t.events, found)
    case Statement => s.phase != Idle
    case Crash => true
  }

  ghost function Next(s: State, step: Step): State {
    match step
    case AddPackage(pkg) => s.(t := s.t.(packages := s.t.packages[pkg := Counters(0, 0, None)]))
    case Record(id, event, now) =>
      s.(t := s.t.(events := s.t.events[id := event]), clock := now, ever := s.ever[id := event])
    case Begin(now, found) => s.(clock := now, phase := Read(now, s.t.watermark, found))
    case Statement => AfterStatement(s)
    case Crash => s.(phase := Idle)
  }

  ghost function AfterStatement(s: State): State {
    match s.phase
    case Idle => s
    case Read(now, mark, found) => s.(t := CountNew(s.t, mark, found), phase := Counted(now))
    case Counted(now) => s.(t := RefreshTotals(s.t), phase := Totaled(now))
    case Totaled(now) => s.(t := ResetTotals(s.t), phase := TotalsReset(now))
    case TotalsReset(now) => s.(t := CountRecent(s.t, now), phase := RecentCounted(now), seen := s.t.events)
    case RecentCounted(now) => s.(t := ResetRecent(s.t, now), phase := RecentReset(now))
    case RecentReset(now) => s.(t := Prune(s.t, now), phase := Idle)
  }

  ghost predicate IsRun(s: State, steps: seq<Step>)
    decreases |steps|
  {
    steps == [] || (IsEnabled(s, steps[0]) && IsRun(Next(s, steps[0]), steps[1..]))
  }

  ghost function After(s: State, steps: seq<Step>): State
    decreases |steps|
  {
    if steps == [] then s else After(Next(s, steps[0]), steps[1..])
  }

  // ----- What every step keeps -----

  /** The tables agree with what was ever recorded. */
  ghost predicate IsFaithful(t: Tables, ever: map<nat, Event>) {
    && IsHistory(t, ever)
    && (t.watermark == 0 || t.watermark in ever)
    && IsRecount(t.monthly, t.watermark, ever)
    && AreLastInstalls(t.packages, t.watermark, ever)
  }

  /** Whatever the current run may prune is already counted. */
  ghost predicate IsPrunable(events: map<nat, Event>, watermark: nat, now: Time) {
    forall id :: id in events && events[id].created < now - RETENTION ==> id <= watermark
  }

  /** Between the two 30-day statements: packages with recent events have their count. */
  ghost predicate AreRecent(events: map<nat, Event>, packages: map<int, Counters>, seen: map<nat, Event>, now: Time) {
    && (forall id :: id in seen ==> id in events && events[id] == seen[id] && seen[id].pkg in packages)
    && forall p :: p in packages && RecentIds(seen, now, p) != {} ==> packages[p].recent == |RecentIds(seen, now, p)|
  }

  /** What the current run has established so far. */
  ghost predicate IsPhase(s: State) {
    && (s.phase != Idle ==> s.phase.now <= s.clock)
    && (s.phase.Read? ==> s.phase.mark == s.t.watermark && IsNewest(s.t.events, s.phase.found))
    && (s.phase != Idle && !s.phase.Read? ==> IsPrunable(s.t.events, s.t.watermark, s.phase.now))
    && (s.phase.Totaled? ==> AreTotals(ResetTotals(s.t).packages, s.t.watermark, s.ever))
    && (s.phase.TotalsReset? || s.phase.RecentCounted? || s.phase.RecentReset? ==>
          AreTotals(s.t.packages, s.t.watermark, s.ever))
    && (s.phase.RecentCounted? ==> AreRecent(s.t.events, s.t.packages, s.seen, s.phase.now))
  }

  ghost predicate IsGood(s: State) {
    IsFaithful(s.t, s.ever) && IsPhase(s)
  }

  /** The other statements change counters only. */
  lemma CountersOnly(t: Tables, next: Tables, ever: map<nat, Event>)
    requires IsFaithful(t, ever)
    requires next.events == t.events && next.monthly == t.monthly && next.watermark == t.watermark
    requires next.packages.Keys == t.packages.Keys && AreLastInstalls(next.packages, t.watermark, ever)
    ensures IsFaithful(next, ever)
  {}

  lemma CountNewKeeps(t: Tables, ever: map<nat, Event>, found: nat, now: Time)
    requires IsFaithful(t, ever) && IsNewest(t.events, found)
    ensures var next := CountNew(t, t.watermark, found);
            IsFaithful(next, ever) && IsPrunable(next.events, next.watermark, now)
  {
    if found > t.watermark {
      CountNewIsExactIff(t, ever, t.watermark, found);
      CountNewKeepsLastInstall(t, ever, found);
    }
  }

  /** Pruning drops no event above the watermark. */
  lemma PruneKeeps(t: Tables, ever: map<nat, Event>, now: Time)
    requires IsFaithful(t, ever) && IsPrunable(t.events, t.watermark, now)
    ensures IsFaithful(Prune(t, now), ever)
  {}

  lemma StatementIsFaithful(s: State)
    requires IsGood(s) && s.phase != Idle
    ensures IsFaithful(AfterStatement(s).t, s.ever)
  {
    var t := AfterStatement(s).t;
    match s.phase
    case Read(now, _, found) => CountNewKeeps(s.t, s.ever, found, now);
    case RecentReset(now) => PruneKeeps(s.t, s.ever, now);
    case Totaled(now) =>
      ResetTotalsKeepsLastInstall(s.t, s.ever);
      CountersOnly(s.t, t, s.ever);
    case _ => CountersOnly(s.t, t, s.ever);
  }

  lemma StatementAdvances(s: State)
    requires IsGood(s) && s.phase != Idle
    ensures IsPhase(AfterStatement(s))
  {
    match s.phase
    case Read(now, _, found) => CountNewKeeps(s.t, s.ever, found, now);
    case Counted(now) => TotalsAreRecounts(s.t, s.ever);
    case _ =>
  }

  /** An event recorded above the watermark changes no count up to it. */
  lemma SameRecount(ever: map<nat, Event>, watermark: nat, id: nat, event: Event)
    requires id !in ever && id > watermark
    ensures forall k: Key :: Recount(ever[id := event], watermark, k) == Recount(ever, watermark, k)
    ensures forall p :: RecountAll(ever[id := event], watermark, p) == RecountAll(ever, watermark, p)
    ensures forall p :: TimesUpTo(ever[id := event], watermark, p) == TimesUpTo(ever, watermark, p)
  {
    var more := ever[id := event];
    forall k: Key ensures Recount(more, watermark, k) == Recount(ever, watermark, k) {
      assert IdsUpTo(more, watermark, {k}) == IdsUpTo(ever, watermark, {k});
    }
    forall p ensures RecountAll(more, watermark, p) == RecountAll(ever, watermark, p) {
      assert PackageIdsUpTo(more, watermark, p) == PackageIdsUpTo(ever, watermark, p);
    }
    forall p ensures TimesUpTo(more, watermark, p) == TimesUpTo(ever, watermark, p) {
      forall time | time in TimesUpTo(ever, watermark, p) ensures time in TimesUpTo(more, watermark, p) {
        var i :| i in ever && i <= watermark && ever[i].pkg == p && ever[i].created == time;
        assert i in more && more[i] == ever[i];
      }
    }
  }

  lemma RecordIsFaithful(t: Tables, ever: map<nat, Event>, id: nat, event: Event)
    requires IsFaithful(t, ever) && event.pkg in t.packages && id > t.watermark && id !in ever
    ensures IsFaithful(t.(events := t.events[id := event]), ever[id := event])
  {
    var more := ever[id := event];
    SameRecount(ever, t.watermark, id, event);
    forall k: Key ensures IsRecountAt(t.monthly, t.watermark, more, k) {
      assert IsRecountAt(t.monthly, t.watermark, ever, k);
    }
  }

  lemma RecordKeeps(s: State, id: nat, event: Event, now: Time)
    requires IsGood(s) && IsEnabled(s, Record(id, event, now))
    ensures IsGood(Next(s, Record(id, event, now)))
  {
    RecordIsFaithful(s.t, s.ever, id, event);
    RecordInPhase(s, id, event, now);
  }

  lemma RecordInPhase(s: State, id: nat, event: Event, now: Time)
    requires IsHistory(s.t, s.ever) && IsPhase(s) && IsEnabled(s, Record(id, event, now)) && id > s.t.watermark
    ensures IsPhase(Next(s, Record(id, event, now)))
  {
    if s.phase != Idle {
      RecordKeepsPrunable(s.t.events, s.t.watermark, s.phase.now, id, event);
      RecordKeepsTotals(s.t.packages, s.t.watermark, s.ever, id, event);
      RecordKeepsTotals(ResetTotals(s.t).packages, s.t.watermark, s.ever, id, event);
      if s.phase.RecentCounted? { RecordKeepsRecent(s.t.events, s.t.packages, s.seen, s.phase.now, id, event); }
      assert ResetTotals(Next(s, Record(id, event, now)).t).packages == ResetTotals(s.t).packages;
    }
  }

  lemma RecordKeepsPrunable(events: map<nat, Event>, watermark: nat, now: Time, id: nat, event: Event)
    requires event.created >= now - RETENTION
    ensures IsPrunable(events, watermark, now) ==> IsPrunable(events[id := event], watermark, now)
  {}

  lemma RecordKeepsRecent(
    events: map<nat, Event>, packages: map<int, Counters>, seen: map<nat, Event>, now: Time, id: nat, event: Event)
    requires AreRecent(events, packages, seen, now) && id !in events
    ensures AreRecent(events[id := event], packages, seen, now)
  {}

  lemma RecordKeepsTotals(packages: map<int, Counters>, watermark: nat, ever: map<nat, Event>, id: nat, event: Event)
    requires id !in ever && id > watermark
    ensures AreTotals(packages, watermark, ever) ==> AreTotals(packages, watermark, ever[id := event])
  {
    SameRecount(ever, watermark, id, event);
  }

  lemma AddPackageIsFaithful(t: Tables, ever: map<nat, Event>, pkg: int)
    requires IsFaithful(t, ever) && pkg !in t.packages
    ensures IsFaithful(t.(packages := t.packages[pkg := Counters(0, 0, None)]), ever)
    ensures RecountAll(ever, t.watermark, pkg) == 0
  {
    assert PackageIdsUpTo(ever, t.watermark, pkg) == {};
    NoTimes(ever, t.watermark, pkg);
  }

  lemma StepKeeps(s: State, step: Step)
    requires IsGood(s) && IsEnabled(s, step)
    ensures IsGood(Next(s, step))
  {
    match step
    case AddPackage(pkg) => AddPackageIsFaithful(s.t, s.ever, pkg);
    case Record(id, event, now) => RecordKeeps(s, id, event, now);
    case Statement =>
      StatementIsFaithful(s);
      StatementAdvances(s);
    case _ =>
  }

  lemma {:induction false} RunKeeps(s: State, steps: seq<Step>)
    requires IsGood(s) && IsRun(s, steps)
    ensures IsGood(After(s, steps))
    decreases |steps|
  {
    if steps != [] {
      StepKeeps(s, steps[0]);
      RunKeeps(Next(s, steps[0]), steps[1..]);
    }
  }

  lemma InitiallyGood(s: State)
    requires IsInitial(s)
    ensures IsGood(s)
  {
    forall k: Key ensures IsRecountAt(s.t.monthly, s.t.watermark, s.ever, k) {
      assert IdsUpTo(s.ever, s.t.watermark, {k}) == {};
    }
  }

  /**
   Incremental aggregation refines the recount: after any run, every monthly count is
   the number of events ever recorded for its package and month up to the watermark,
   last installs likewise, and no event has been pruned before it was counted.
   */
  lemma AggregationIsRecount(s: State, steps: seq<Step>, k: Key, p: int, id: nat)
    requires IsInitial(s) && IsRun(s, steps)
    ensures var e := After(s, steps);
            && At(e.t.monthly, k) == Recount(e.ever, e.t.watermark, k)
            && (k in e.t.monthly <==> Recount(e.ever, e.t.watermark, k) > 0)
            && (p in e.t.packages ==>
                  e.t.packages[p].lastInstalled == Greatest(TimesUpTo(e.ever, e.t.watermark, p)))
            && (id in e.ever && id > e.t.watermark ==> id in e.t.events)
  {
    InitiallyGood(s);
    RunKeeps(s, steps);
    var e := After(s, steps);
    assert IsRecountAt(e.t.monthly, e.t.watermark, e.ever, k);
  }

  /** From the reset of the totals to the end of a run, every total is a recount. */
  lemma TotalsAreExact(s: State, steps: seq<Step>, p: int)
    requires IsInitial(s) && IsRun(s, steps) && p in After(s, steps).t.packages
    ensures var e := After(s, steps);
            e.phase.RecentReset? ==>
              && e.t.packages[p].total == RecountAll(e.ever, e.t.watermark, p)
              && AfterStatement(e).t.packages[p].total == RecountAll(e.ever, e.t.watermark, p)
  {
    InitiallyGood(s);
    RunKeeps(s, steps);
  }

  /**
   The second 30-day statement looks at the events again. A package's 30-day count is
   then the number of its recent events when they were counted, unless it had none of
   them, held a count from before, and has had an install since: then it keeps the old
   count.
   */
  lemma RecentIsExactIff(s: State, steps: seq<Step>, p: int)
    requires IsInitial(s) && IsRun(s, steps) && After(s, steps).phase.RecentCounted? && p in After(s, steps).t.packages
    ensures var e := After(s, steps);
            var now := e.phase.now;
            AfterStatement(e).t.packages[p].recent == |RecentIds(e.seen, now, p)| <==>
            !(e.t.packages[p].recent > 0 && RecentIds(e.seen, now, p) == {} && RecentIds(e.t.events, now, p) != {})
  {
    InitiallyGood(s);
    RunKeeps(s, steps);
    var e := After(s, steps);
    var seen := RecentIds(e.seen, e.phase.now, p);
    if seen != {} {
      var id := Pick(seen);
      assert id in RecentIds(e.t.events, e.phase.now, p);
    }
  }

  /**
   Why no install may be recorded between reading MAX(id) and the transaction: the
   second of two events, stored in between, is counted then and by the next run.
   */
  lemma LateEventCountsTwice()
    ensures var e := Event(7, "2025-01", 0);
            var t := Tables(map[1 := e, 2 := e], map[], 0, map[7 := Counters(0, 0, None)]);
            CountNew(CountNew(t, 0, 1), 1, 2).monthly == map[KeyOf(e) := 3]
  {
    var e := Event(7, "2025-01", 0);
    var t := Tables(map[1 := e, 2 := e], map[], 0, map[7 := Counters(0, 0, None)]);
    var once := CountNew(t, 0, 1);
    assert KeysAfter(t.events, 0) == {KeyOf(e)} by {
      assert KeyOf(t.events[1]) in KeysAfter(t.events, 0);
    }
    assert IdsAfter(t.events, 0, KeyOf(e)) == {1, 2};
    assert once.monthly == map[KeyOf(e) := 2];
    assert KeysAfter(t.events, 1) == {KeyOf(e)} by {
      assert KeyOf(t.events[2]) in KeysAfter(t.events, 1);
    }
    assert IdsAfter(t.events, 1, KeyOf(e)) == {2};
  }

  /** Why runs must not overlap: two that read the same watermark count the same event. */
  lemma OverlappingRunsCountTwice()
    ensures var e := Event(7, "2025-01", 0);
            var t := Tables(map[1 := e], map[], 0, map[7 := Counters(0, 0, None)]);
            CountNew(CountNew(t, 0, 1), 0, 1).monthly == map[KeyOf(e) := 2]
  {
    var e := Event(7, "2025-01", 0);
    var events := map[1 := e];
    assert KeysAfter(events, 0) == {KeyOf(e)} by {
      assert KeyOf(events[1]) in KeysAfter(events, 0);
    }
    assert IdsAfter(events, 0, KeyOf(e)) == {1};
  }

  // ----- The command -----

  /** A failed statement ends the run with an error; what was done before stays. */
  datatype Outcome = Failed | Done(updated: nat, reset: nat, pruned: nat)

  const STATEMENTS := 6

  function Recorded(ever: map<nat, Event>, pkg: int): set<nat> {
    set id | id in ever && ever[id].pkg == pkg
  }

  /** The run after its first n statements, the transaction counting as one. */
  ghost function AfterStatements(s: State, n: nat): State {
    if n == 0 then s else AfterStatement(AfterStatements(s, n - 1))
  }

  ghost function Begun(t: Tables, ever: map<nat, Event>, now: Time, found: nat): State {
    State(t, now, Read(now, t.watermark, found), ever, map[])
  }

  /** Every event ever recorded is counted, as of the events stored when the run began. */
  ghost predicate IsUpToDate(t: Tables, ever: map<nat, Event>, events: map<nat, Event>, now: Time) {
    && (forall id :: id in ever ==> id <= t.watermark)
    && (forall id :: id in t.events <==> id in events && events[id].created >= now - RETENTION)
    && forall p :: p in t.packages ==>
        && t.packages[p].total == |Recorded(ever, p)|
        && t.packages[p].recent == |RecentIds(events, now, p)|
  }

  /** Faithful tables, column by column: counts by package and month, and the latest install of each package. */
  lemma FaithfulMeans(t: Tables, ever: map<nat, Event>, pkg: int, month: string)
    requires IsFaithful(t, ever)
    ensures var ids := set id | id in ever && id <= t.watermark && ever[id].pkg == pkg && ever[id].month == month;
            && (Key(pkg, month) in t.monthly <==> ids != {})
            && (Key(pkg, month) in t.monthly ==> t.monthly[Key(pkg, month)] == |ids|)
    ensures pkg in t.packages ==>
              match t.packages[pkg].lastInstalled
              case None => forall id :: id in ever && id <= t.watermark ==> ever[id].pkg != pkg
              case Some(last) =>
                && (exists id :: id in ever && id <= t.watermark && ever[id].pkg == pkg && ever[id].created == last)
                && forall id :: id in ever && id <= t.watermark && ever[id].pkg == pkg ==> ever[id].created <= last
  {
    var k := Key(pkg, month);
    var ids := set id | id in ever && id <= t.watermark && ever[id].pkg == pkg && ever[id].month == month;
    assert IsRecountAt(t.monthly, t.watermark, ever, k);
    assert ids == IdsUpTo(ever, t.watermark, {k});
    if pkg in t.packages { LatestOf(t, ever, pkg); }
  }

  lemma LatestOf(t: Tables, ever: map<nat, Event>, pkg: int)
    requires AreLastInstalls(t.packages, t.watermark, ever) && pkg in t.packages
    ensures match t.packages[pkg].lastInstalled
            case None => forall id :: id in ever && id <= t.watermark ==> ever[id].pkg != pkg
            case Some(last) =>
              && (exists id :: id in ever && id <= t.watermark && ever[id].pkg == pkg && ever[id].created == last)
              && forall id :: id in ever && id <= t.watermark && ever[id].pkg == pkg ==> ever[id].created <= last
  {
    var times := TimesUpTo(ever, t.watermark, pkg);
    forall id | id in ever && id <= t.watermark && ever[id].pkg == pkg ensures ever[id].created in times {}
    if times != {} { assert Max(times) in times; }
  }

  /** Up-to-date tables, column by column: all installs, and those of the last 30 days. */
  lemma UpToDateMeans(t: Tables, ever: map<nat, Event>, events: map<nat, Event>, now: Time, pkg: int)
    requires IsUpToDate(t, ever, events, now) && pkg in t.packages
    ensures t.packages[pkg].total == |set id | id in ever && ever[id].pkg == pkg|
    ensures var recent := set id | id in events && events[id].pkg == pkg && events[id].created >= now - 30 * 86_400;
            t.packages[pkg].recent == |recent|
    ensures forall id :: id in t.events <==> id in events && events[id].created >= now - 365 * 86_400
  {
    assert Recorded(ever, pkg) == set id | id in ever && ever[id].pkg == pkg;
    assert RecentIds(events, now, pkg) ==
           set id | id in events && events[id].pkg == pkg && events[id].created >= now - 30 * 86_400;
  }

  lemma StatementKeepsGood(s: State)
    requires IsGood(s) && s.phase != Idle
    ensures IsGood(AfterStatement(s))
    ensures AfterStatement(s).ever == s.ever && AfterStatement(s).t.packages.Keys == s.t.packages.Keys
  {
    StatementIsFaithful(s);
    StatementAdvances(s);
  }

  lemma {:induction false} StatementsInOrder(s: State, n: nat)
    requires s.phase.Read? && n <= STATEMENTS
    ensures AfterStatements(s, n).phase ==
            (if n == 0 then s.phase
             else if n == 1 then Counted(s.phase.now)
             else if n == 2 then Totaled(s.phase.now)
             else if n == 3 then TotalsReset(s.phase.now)
             else if n == 4 then RecentCounted(s.phase.now)
             else if n == 5 then RecentReset(s.phase.now)
             else Idle)
    decreases n
  {
    if n > 0 { StatementsInOrder(s, n - 1); }
  }

  lemma {:induction false} StatementsKeep(s: State, n: nat)
    requires IsGood(s) && s.phase.Read? && n <= STATEMENTS
    ensures var e := AfterStatements(s, n);
            IsGood(e) && e.ever == s.ever && e.t.packages.Keys == s.t.packages.Keys
    decreases n
  {
    if n > 0 {
      StatementsKeep(s, n - 1);
      StatementsInOrder(s, n - 1);
      StatementKeepsGood(AfterStatements(s, n - 1));
    }
  }

  /** The six statements by name. */
  lemma StatementsByName(s: State)
    requires s.phase.Read?
    ensures AfterStatements(s, 0).t == s.t
    ensures AfterStatements(s, 1).t == CountNew(s.t, s.phase.mark, s.phase.found)
    ensures AfterStatements(s, 2).t == RefreshTotals(AfterStatements(s, 1).t)
    ensures AfterStatements(s, 3).t == ResetTotals(AfterStatements(s, 2).t)
    ensures AfterStatements(s, 4).t == CountRecent(AfterStatements(s, 3).t, s.phase.now)
    ensures AfterStatements(s, 5).t == ResetRecent(AfterStatements(s, 4).t, s.phase.now)
    ensures AfterStatements(s, 6).t == Prune(AfterStatements(s, 5).t, s.phase.now)
  {
    var now := s.phase.now;
    assert AfterStatements(s, 1).phase == Counted(now);
    assert AfterStatements(s, 2).phase == Totaled(now);
    assert AfterStatements(s, 3).phase == TotalsReset(now);
    assert AfterStatements(s, 4).phase == RecentCounted(now);
    assert AfterStatements(s, 5).phase == RecentReset(now);
  }

  predicate SameEvents(t: Tables, u: Tables) {
    t.events == u.events && t.monthly == u.monthly && t.watermark == u.watermark
  }

  /** Between the transaction and the pruning, only counters change. */
  lemma StatementsLeave(s: State)
    requires s.phase.Read?
    ensures SameEvents(AfterStatements(s, 3).t, CountNew(s.t, s.phase.mark, s.phase.found))
    ensures SameEvents(AfterStatements(s, 5).t, CountNew(s.t, s.phase.mark, s.phase.found))
    ensures CountNew(s.t, s.phase.mark, s.phase.found).events == s.t.events
  {
    StatementsByName(s);
    assert SameEvents(AfterStatements(s, 2).t, AfterStatements(s, 1).t);
    assert SameEvents(AfterStatements(s, 3).t, AfterStatements(s, 2).t);
    assert SameEvents(AfterStatements(s, 4).t, AfterStatements(s, 3).t);
    assert SameEvents(AfterStatements(s, 5).t, AfterStatements(s, 4).t);
  }

  /** A run without failures and without interruption brings everything up to date. */
  lemma CompletedRun(t: Tables, ever: map<nat, Event>, now: Time, found: nat)
    requires IsFaithful(t, ever) && IsNewest(t.events, found)
    ensures IsUpToDate(AfterStatements(Begun(t, ever, now, found), STATEMENTS).t, ever, t.events, now)
  {
    var s := Begun(t, ever, now, found);
    var e := AfterStatements(s, 5).t;
    CountedAtTheEnd(s);
    forall p | p in e.packages ensures e.packages[p].recent == |RecentIds(t.events, now, p)| {
      StatementsKeep(s, 5);
      RecentAtTheEnd(s, p);
    }
    StatementsByName(s);
  }

  lemma CountedAtTheEnd(s: State)
    requires IsGood(s) && s.phase.Read?
    ensures var e := AfterStatements(s, 5).t;
            && e.events == s.t.events
            && (forall id :: id in s.ever ==> id <= e.watermark)
            && forall p :: p in e.packages ==> e.packages[p].total == |Recorded(s.ever, p)|
  {
    var e := AfterStatements(s, 5);
    StatementsKeep(s, 5);
    StatementsInOrder(s, 5);
    StatementsLeave(s);
    NothingUncounted(s.t, s.ever, s.phase.found);
    TotalsOfAll(e.t.packages, e.t.watermark, s.ever);
  }

  lemma NothingUncounted(t: Tables, ever: map<nat, Event>, found: nat)
    requires IsHistory(t, ever) && IsNewest(t.events, found)
    ensures forall id :: id in ever ==> id <= CountNew(t, t.watermark, found).watermark
  {}

  lemma TotalsOfAll(packages: map<int, Counters>, watermark: nat, ever: map<nat, Event>)
    requires AreTotals(packages, watermark, ever) && forall id :: id in ever ==> id <= watermark
    ensures forall p :: p in packages ==> packages[p].total == |Recorded(ever, p)|
  {
    forall p | p in packages ensures packages[p].total == |Recorded(ever, p)| {
      assert PackageIdsUpTo(ever, watermark, p) == Recorded(ever, p);
    }
  }

  lemma RecentAtTheEnd(s: State, p: int)
    requires IsGood(s) && s.phase.Read? && p in s.t.packages
    ensures p in AfterStatements(s, 5).t.packages
    ensures AfterStatements(s, 5).t.packages[p].recent == |RecentIds(s.t.events, s.phase.now, p)|
  {
    StatementsKeep(s, 3);
    StatementsLeave(s);
    StatementsByName(s);
  }

  // ----- A count that outlives its events -----

  lemma {:induction false} RunStep(s: State, steps: seq<Step>, step: Step)
    requires IsRun(s, steps) && IsEnabled(After(s, steps), step)
    ensures IsRun(s, steps + [step]) && After(s, steps + [step]) == Next(After(s, steps), step)
    decreases |steps|
  {
    if steps != [] {
      RunStep(Next(s, steps[0]), steps[1..], step);
      assert (steps + [step])[1..] == steps[1..] + [step];
    } else {
      assert [step][1..] == [];
    }
  }

  function Statements(n: nat): seq<Step> {
    if n == 0 then [] else Statements(n - 1) + [Statement]
  }

  lemma {:induction false} RunOfStatements(s: State, steps: seq<Step>, n: nat)
    requires IsRun(s, steps) && After(s, steps).phase.Read? && n <= STATEMENTS
    ensures IsRun(s, steps + Statements(n)) && After(s, steps + Statements(n)) == AfterStatements(After(s, steps), n)
    decreases n
  {
    if n == 0 {
      assert steps + [] == steps;
    } else {
      RunOfStatements(s, steps, n - 1);
      StatementsInOrder(After(s, steps), n - 1);
      RunStep(s, steps + Statements(n - 1), Statement);
      assert steps + Statements(n - 1) + [Statement] == steps + Statements(n);
    }
  }

  const START := State(Tables(map[], map[], 0, map[]), 0, Idle, map[], map[])
  const FIRST := Event(7, "2025-01", 0)
  const SECOND := Event(7, "2025-02", 40 * DAY)

  function FirstRun(): seq<Step> {
    [AddPackage(7)] + [Record(1, FIRST, 0)] + [Begin(0, 1)] + Statements(STATEMENTS)
  }

  /** A whole run, from a state where none was interrupted. */
  lemma WholeRun(s: State, steps: seq<Step>, now: Time, found: nat)
    requires IsRun(s, steps) && IsEnabled(After(s, steps), Begin(now, found)) && After(s, steps).seen == map[]
    requires IsFaithful(After(s, steps).t, After(s, steps).ever)
    ensures var before, more := After(s, steps), steps + [Begin(now, found)] + Statements(STATEMENTS);
            var e := After(s, more);
            && IsRun(s, more) && e.phase == Idle && e.clock == now && e.ever == before.ever && IsFaithful(e.t, e.ever)
            && e.t.packages.Keys == before.t.packages.Keys && IsUpToDate(e.t, before.ever, before.t.events, now)
  {
    var b := After(s, steps);
    RunStep(s, steps, Begin(now, found));
    var begun := steps + [Begin(now, found)];
    var r := Begun(b.t, b.ever, now, found);
    CompletedRun(b.t, b.ever, now, found);
    RunOfStatements(s, begun, STATEMENTS);
    StatementsKeep(r, STATEMENTS);
    StatementsInOrder(r, STATEMENTS);
    StatementsLeaveClock(r, STATEMENTS);
  }

  lemma FirstInstall() returns (r: State)
    ensures var steps := [AddPackage(7)] + [Record(1, FIRST, 0)];
            IsRun(START, steps) && r == After(START, steps) && IsFaithful(r.t, r.ever)
    ensures r.phase == Idle && r.seen == map[] && r.clock == 0 && r.t.events == r.ever == map[1 := FIRST] && 7 in r.t.packages
  {
    RunStep(START, [], AddPackage(7));
    assert [] + [AddPackage(7)] == [AddPackage(7)];
    RunStep(START, [AddPackage(7)], Record(1, FIRST, 0));
    r := After(START, [AddPackage(7)] + [Record(1, FIRST, 0)]);
    InitiallyGood(START);
    RunKeeps(START, [AddPackage(7)] + [Record(1, FIRST, 0)]);
  }

  lemma OneInstallCounted(t: Tables, ever: map<nat, Event>)
    requires ever == map[1 := FIRST] && IsUpToDate(t, ever, ever, 0) && IsHistory(t, ever) && 7 in t.packages
    ensures t.events == ever && t.packages[7].recent == 1
  {
    assert RecentIds(ever, 0, 7) == {1};
    assert forall id :: id in t.events <==> id in ever;
  }

  /** One install, and a whole aggregation in its second. */
  lemma FirstRunCounts() returns (e: State)
    ensures IsRun(START, FirstRun()) && e == After(START, FirstRun())
    ensures e.phase == Idle && e.clock == 0 && e.ever == e.t.events == map[1 := FIRST]
    ensures 7 in e.t.packages && e.t.packages[7].recent == 1
  {
    var r := FirstInstall();
    assert 1 in r.t.events;
    WholeRun(START, [AddPackage(7)] + [Record(1, FIRST, 0)], 0, 1);
    e := After(START, FirstRun());
    OneInstallCounted(e.t, e.ever);
  }

  lemma {:induction false} StatementsLeaveClock(s: State, n: nat)
    ensures AfterStatements(s, n).clock == s.clock
  {
    if n > 0 { StatementsLeaveClock(s, n - 1); }
  }

  /** Four statements of a later run, for a package without recent events. */
  lemma CountAgain(s: State, p: int)
    requires s.phase.Read? && p in s.t.packages && RecentIds(s.t.events, s.phase.now, p) == {}
    ensures var e := AfterStatements(s, 4);
            && e.phase == RecentCounted(s.phase.now) && e.seen == s.t.events == e.t.events
            && p in e.t.packages && e.t.packages[p].recent == s.t.packages[p].recent
  {
    RecentUntilCount(s, p);
    StatementsLeave(s);
    StatementsInOrder(s, 3);
    StatementsInOrder(s, 4);
    NothingToCount(AfterStatements(s, 3), p);
  }

  lemma RecentUntilCount(s: State, p: int)
    requires s.phase.Read? && p in s.t.packages
    ensures var t := AfterStatements(s, 3).t; p in t.packages && t.packages[p].recent == s.t.packages[p].recent
  {
    StatementsByName(s);
    RecentStays(s.t, s.phase.mark, s.phase.found);
    RecentStays(AfterStatements(s, 1).t, 0, 0);
    RecentStays(AfterStatements(s, 2).t, 0, 0);
  }

  lemma NothingToCount(s: State, p: int)
    requires s.phase.TotalsReset? && p in s.t.packages && RecentIds(s.t.events, s.phase.now, p) == {}
    ensures var e := AfterStatement(s);
            && e.seen == s.t.events == e.t.events
            && p in e.t.packages && e.t.packages[p].recent == s.t.packages[p].recent
  {}

  /** The later run up to its fourth statement, the install, and the fifth statement. */
  function SecondRun(now: Time, found: nat, id: nat, event: Event): seq<Step> {
    [Begin(now, found)] + Statements(4) + [Record(id, event, now)] + [Statement]
  }

  /** Any count of a package without recent events survives a run in which an install of it comes in between. */
  lemma CountSurvives(s: State, steps: seq<Step>, now: Time, found: nat, id: nat, event: Event)
    requires IsRun(s, steps) && After(s, steps).phase == Idle && event.pkg in After(s, steps).t.packages
    requires IsEnabled(After(s, steps), Begin(now, found)) && IsEnabled(After(s, steps), Record(id, event, now))
    requires RecentIds(After(s, steps).t.events, now, event.pkg) == {} && event.created >= now - RECENT
    ensures var before, more := After(s, steps), steps + SecondRun(now, found, id, event);
            var e := After(s, more);
            && IsRun(s, more) && e.phase == RecentReset(now) && e.seen == before.t.events && event.pkg in e.t.packages
            && e.t.packages[event.pkg].recent == before.t.packages[event.pkg].recent
  {
    CountThenInstall(s, steps, now, found, id, event);
    var recorded := steps + [Begin(now, found)] + Statements(4) + [Record(id, event, now)];
    RunStep(s, recorded, Statement);
    NotReset(After(s, recorded), event.pkg);
    assert recorded + [Statement] == steps + SecondRun(now, found, id, event);
  }

  lemma CountThenInstall(s: State, steps: seq<Step>, now: Time, found: nat, id: nat, event: Event)
    requires IsRun(s, steps) && After(s, steps).phase == Idle && event.pkg in After(s, steps).t.packages
    requires IsEnabled(After(s, steps), Begin(now, found)) && IsEnabled(After(s, steps), Record(id, event, now))
    requires RecentIds(After(s, steps).t.events, now, event.pkg) == {} && event.created >= now - RECENT
    ensures var before, more := After(s, steps), steps + [Begin(now, found)] + Statements(4) + [Record(id, event, now)];
            var e := After(s, more);
            && IsRun(s, more) && e.phase == RecentCounted(now) && e.seen == before.t.events && event.pkg in e.t.packages
            && RecentIds(e.t.events, now, event.pkg) != {}
            && e.t.packages[event.pkg].recent == before.t.packages[event.pkg].recent
  {
    RunStep(s, steps, Begin(now, found));
    var begun := steps + [Begin(now, found)];
    CountAgain(After(s, begun), event.pkg);
    RunOfStatements(s, begun, 4);
    StatementsLeaveClock(After(s, begun), 4);
    EverStays(After(s, begun), 4);
    RunStep(s, begun + Statements(4), Record(id, event, now));
    assert id in RecentIds(After(s, begun + Statements(4) + [Record(id, event, now)]).t.events, now, event.pkg);
  }

  lemma NotReset(s: State, p: int)
    requires s.phase.RecentCounted? && p in s.t.packages && RecentIds(s.t.events, s.phase.now, p) != {}
    ensures var e := AfterStatement(s);
            && e.phase == RecentReset(s.phase.now) && e.seen == s.seen
            && p in e.t.packages && e.t.packages[p].recent == s.t.packages[p].recent
  {}

  /**
   A run to a count that outlives its events: counted once, 40 days pass, and an
   install comes between the two statements of the next run.
   */
  lemma StaleRecentSurvives() returns (steps: seq<Step>, e: State)
    ensures steps == FirstRun() + SecondRun(40 * DAY, 1, 2, SECOND)
    ensures IsInitial(START) && IsRun(START, steps) && e == After(START, steps) && e.phase == RecentReset(40 * DAY)
    ensures 7 in e.t.packages && e.t.packages[7].recent == 1 && RecentIds(e.seen, 40 * DAY, 7) == {}
  {
    var counted := FirstRunCounts();
    assert 1 in counted.t.events && RecentIds(map[1 := FIRST], 40 * DAY, 7) == {};
    CountSurvives(START, FirstRun(), 40 * DAY, 1, 2, SECOND);
    steps := FirstRun() + SecondRun(40 * DAY, 1, 2, SECOND);
    e := After(START, steps);
  }

  lemma {:induction false} EverStays(s: State, n: nat)
    ensures AfterStatements(s, n).ever == s.ever
  {
    if n > 0 { EverStays(s, n - 1); }
  }

  class Telemetry {
    var events: map<nat, Event>
    var monthly: map<Key, nat>
    var watermark: nat
    var packages: map<int, Counters>
    ghost var ever: map<nat, Event>

    constructor (packageIds: set<int>)
      ensures Valid() && ever == map[] && packages == map p | p in packageIds :: Counters(0, 0, None)
    {
      events, monthly, watermark, ever := map[], map[], 0, map[];
      packages := map p | p in packageIds :: Counters(0, 0, None);
      new;
      var t := Tables(map[], map[], 0, packages);
      forall k: Key ensures IsRecountAt(monthly, 0, ever, k) {
        assert IdsUpTo(ever, 0, {k}) == {};
      }
    }

    ghost function State(): Tables
      reads this
    {
      Tables(events, monthly, watermark, packages)
    }

    ghost predicate Valid()
      reads this
    {
      IsFaithful(State(), ever)
    }

    /** Stores an event; the database picks the id. */
    method RecordInstall(id: nat, event: Event)
      requires Valid() && event.pkg in packages && id > 0 && forall i :: i in ever ==> i < id
      modifies this
      ensures Valid() && ever == old(ever)[id := event]
      ensures State() == old(State()).(events := old(events)[id := event])
    {
      RecordIsFaithful(State(), ever, id, event);
      events, ever := events[id := event], ever[id := event];
    }

    method NewestId() returns (n: nat)
      ensures IsNewest(events, n)
    {
      n := 0;
      var todo := events.Keys;
      while todo != {}
        invariant todo <= events.Keys && (n in events || (n == 0 && todo == events.Keys))
        invariant forall id :: id in events && id !in todo ==> id <= n
      {
        var id :| id in todo;
        todo := todo - {id};
        if id > n { n := id; }
      }
      assert events.Keys == {} ==> events == map[];
    }

    /** The latest of the given times, NULL for none. */
    method Latest(times: set<Time>) returns (r: Option<Time>)
      ensures r == Greatest(times)
    {
      r := None;
      var todo := times;
      while todo != {}
        invariant todo <= times && r == Greatest(times - todo)
      {
        ghost var some := Pick(todo);
        var time :| time in todo;
        GreatestOfBoth(times - todo, {time});
        assert times - (todo - {time}) == (times - todo) + {time};
        MaxIs({time}, time);
        r := LaterOf(r, Some(time));
        todo := todo - {time};
      }
      assert times - todo == times;
    }

    method SumMonths(months: set<Key>) returns (n: nat)
      requires months <= monthly.Keys
      ensures n == SumOver(monthly, months)
    {
      n := 0;
      var todo := months;
      while todo != {}
        invariant todo <= months && n + SumOver(monthly, todo) == SumOver(monthly, months)
      {
        var k :| k in todo;
        SumSplit(monthly, todo, k);
        n := n + monthly[k];
        todo := todo - {k};
      }
    }

    /** Last install times from the events after the watermark that was read. */
    method UpdateLastInstalls(mark: nat)
      modifies this`packages
      ensures packages == LastInstalls(old(packages), events, mark)
    {
      ghost var goal := LastInstalls(packages, events, mark);
      var todo := packages.Keys;
      while todo != {}
        invariant todo <= packages.Keys == old(packages).Keys
        invariant forall p :: p in todo ==> packages[p] == old(packages)[p]
        invariant forall p :: p in packages && p !in todo ==> packages[p] == goal[p]
      {
        ghost var some := Pick(todo);
        var p :| p in todo;
        todo := todo - {p};
        var latest := Latest(TimesAfter(events, mark, p));
        packages := packages[p := packages[p].(lastInstalled := LaterOf(packages[p].lastInstalled, latest))];
      }
    }

    /** The transaction that counts new events and moves the watermark. */
    method CountNewEvents(mark: nat, found: nat)
      modifies this`monthly, this`watermark, this`packages
      ensures State() == CountNew(old(State()), mark, found)
    {
      if found <= mark { return; }
      monthly := map k | k in monthly.Keys + KeysAfter(events, mark) :: At(monthly, k) + |IdsAfter(events, mark, k)|;
      UpdateLastInstalls(mark);
      watermark := found;
    }

    /** Totals from the monthly table; gives the number of packages updated. */
    method UpdateTotals() returns (updated: nat)
      modifies this`packages
      ensures State() == RefreshTotals(old(State()))
      ensures updated == |Totalled(old(State()))|
    {
      updated := |Totalled(Tables(events, monthly, watermark, packages))|;
      ghost var before := State();
      ghost var goal := RefreshTotals(before).packages;
      var todo := packages.Keys;
      while todo != {}
        invariant todo <= packages.Keys == before.packages.Keys
        invariant forall p :: p in todo ==> packages[p] == before.packages[p]
        invariant forall p :: p in packages && p !in todo ==> packages[p] == goal[p]
      {
        ghost var some := Pick(todo);
        var p :| p in todo;
        todo := todo - {p};
        if MonthsOf(monthly, p) != {} {
          var n := SumMonths(MonthsOf(monthly, p));
          packages := packages[p := packages[p].(total := n)];
        }
      }
    }

    /** Packages without monthly data lose their total and their last install time. */
    method ResetStaleTotals()
      modifies this`packages
      ensures State() == ResetTotals(old(State()))
    {
      packages := map p | p in packages ::
        if packages[p].total > 0 || packages[p].lastInstalled.Some? then
          if MonthsOf(monthly, p) == {} then packages[p].(total := 0, lastInstalled := None) else packages[p]
        else packages[p];
    }

    method UpdateRecent(now: Time)
      modifies this`packages
      ensures State() == CountRecent(old(State()), now)
    {
      packages := map p | p in packages ::
        if |RecentIds(events, now, p)| == 0 then packages[p]
        else packages[p].(recent := |RecentIds(events, now, p)|);
    }

    /** Packages with a 30-day count and no recent events; gives their number. */
    method ResetStaleRecent(now: Time) returns (reset: nat)
      modifies this`packages
      ensures State() == ResetRecent(old(State()), now)
      ensures reset == |Stale(old(State()), now)|
    {
      var stale := Stale(Tables(events, monthly, watermark, packages), now);
      reset := |stale|;
      packages := map p | p in packages :: if p in stale then packages[p].(recent := 0) else packages[p];
    }

    /** Deletes events beyond the retention period; gives their number. */
    method PruneEvents(now: Time) returns (pruned: nat)
      modifies this`events
      ensures State() == Prune(old(State()), now)
      ensures pruned == |Expired(old(State()), now)|
    {
      pruned := |Expired(Tables(events, monthly, watermark, packages), now)|;
      events := map id | id in events && events[id].created >= now - RETENTION :: events[id];
    }

    /**
     The whole command, with no install recorded meanwhile. The statement numbered
     failing fails; beyond the last, none does. Whatever fails, the tables stay faithful.
     */
    method AggregateInstalls(now: Time, failing: nat) returns (r: Outcome, ghost found: nat)
      requires Valid()
      modifies this
      ensures Valid() && ever == old(ever) && IsNewest(old(events), found)
      ensures r.Failed? <==> failing < STATEMENTS
      ensures var done := if failing < STATEMENTS then failing else STATEMENTS;
              State() == AfterStatements(Begun(old(State()), ever, now, found), done).t
      ensures r.Done? ==> IsUpToDate(State(), ever, old(events), now)
      ensures r.Done? ==> r == OutcomeOf(old(State()), ever, now)
    {
      var mark := watermark;
      var newest := NewestId();
      found := newest;
      ghost var before := State();
      r := RunStatements(now, mark, newest, failing);
      StatementsKeep(Begun(before, ever, now, found), if failing < STATEMENTS then failing else STATEMENTS);
      CompletedRun(before, ever, now, found);
      OutcomeIsCounted(before, ever, now, found);
    }

    method RunStatements(now: Time, mark: nat, found: nat, failing: nat) returns (r: Outcome)
      requires mark == watermark
      modifies this`events, this`monthly, this`watermark, this`packages
      ensures r.Failed? <==> failing < STATEMENTS
      ensures var done := if failing < STATEMENTS then failing else STATEMENTS;
              State() == AfterStatements(Begun(old(State()), ever, now, found), done).t
      ensures r.Done? ==> r == Reported(Begun(old(State()), ever, now, found))
    {
      r := Failed;
      ghost var s := Begun(State(), ever, now, found);
      StatementsByName(s);
      StatementsLeave(s);
      if failing == 0 { return; }
      CountNewEvents(mark, found);
      assert State() == AfterStatements(s, 1).t;
      if failing == 1 { return; }
      var updated := UpdateTotals();
      assert State() == AfterStatements(s, 2).t;
      if failing == 2 { return; }
      ResetStaleTotals();
      assert State() == AfterStatements(s, 3).t;
      if failing == 3 { return; }
      UpdateRecent(now);
      assert State() == AfterStatements(s, 4).t;
      if failing == 4 { return; }
      var reset := ResetStaleRecent(now);
      assert State() == AfterStatements(s, 5).t;
      if failing == 5 { return; }
      var pruned := PruneEvents(now);
      assert State() == AfterStatements(s, 6).t;
      r := Done(updated, reset, pruned);
    }
  }

  /** The packages whose total the statement sets. */
  function Totalled(t: Tables): set<int> {
    set p | p in t.packages && MonthsOf(t.monthly, p) != {}
  }

  /** The packages whose 30-day count the statement resets. */
  function Stale(t: Tables, now: Time): set<int> {
    set p | p in t.packages && t.packages[p].recent > 0 && |RecentIds(t.events, now, p)| == 0
  }

  /** The events the statement deletes. */
  function Expired(t: Tables, now: Time): set<nat> {
    set id | id in t.events && t.events[id].created < now - RETENTION
  }

  /** What the statements report, each about the tables it finds. */
  ghost function Reported(s: State): Outcome
    requires s.phase.Read?
  {
    Done(|Totalled(AfterStatements(s, 1).t)|, |Stale(AfterStatements(s, 4).t, s.phase.now)|,
         |Expired(AfterStatements(s, 5).t, s.phase.now)|)
  }

  /**
   The counts reported: packages ever installed, packages whose 30-day count ran out,
   and events beyond the retention period.
   */
  ghost function OutcomeOf(t: Tables, ever: map<nat, Event>, now: Time): Outcome {
    Done(|set p | p in t.packages && Recorded(ever, p) != {}|,
         |Stale(t, now)|,
         |Expired(t, now)|)
  }

  lemma OutcomeIsCounted(t: Tables, ever: map<nat, Event>, now: Time, found: nat)
    requires IsFaithful(t, ever) && IsNewest(t.events, found)
    ensures Reported(Begun(t, ever, now, found)) == OutcomeOf(t, ever, now)
  {
    var s := Begun(t, ever, now, found);
    TotalledMeansInstalled(s);
    StaleFromTheStart(s);
    StatementsLeave(s);
  }

  lemma TotalledMeansInstalled(s: State)
    requires IsGood(s) && s.phase.Read?
    ensures Totalled(AfterStatements(s, 1).t) == set p | p in s.t.packages && Recorded(s.ever, p) != {}
  {
    StatementsKeep(s, 1);
    NothingUncounted(s.t, s.ever, s.phase.found);
    StatementsByName(s);
    forall p ensures MonthsOf(AfterStatements(s, 1).t.monthly, p) != {} <==> Recorded(s.ever, p) != {} {
      MonthsMeanInstalls(AfterStatements(s, 1).t, s.ever, p);
    }
  }

  /** Counting and totals leave the 30-day counts alone. */
  lemma RecentStays(t: Tables, mark: nat, found: nat)
    ensures SameRecent(CountNew(t, mark, found).packages, t.packages)
    ensures SameRecent(RefreshTotals(t).packages, t.packages) && SameRecent(ResetTotals(t).packages, t.packages)
  {}

  predicate SameRecent(a: map<int, Counters>, b: map<int, Counters>) {
    a.Keys == b.Keys && forall p :: p in a ==> a[p].recent == b[p].recent
  }

  lemma StaleAfterCount(t: Tables, u: Tables, now: Time)
    requires t.events == u.events && SameRecent(t.packages, u.packages)
    ensures Stale(CountRecent(t, now), now) == Stale(u, now)
  {}

  lemma StaleFromTheStart(s: State)
    requires s.phase.Read?
    ensures Stale(AfterStatements(s, 4).t, s.phase.now) == Stale(s.t, s.phase.now)
  {
    StatementsByName(s);
    StatementsLeave(s);
    RecentStays(s.t, s.phase.mark, s.phase.found);
    RecentStays(AfterStatements(s, 1).t, 0, 0);
    RecentStays(AfterStatements(s, 2).t, 0, 0);
    StaleAfterCount(AfterStatements(s, 3).t, s.t, s.phase.now);
  }

  /** A package has months exactly if it was ever installed. */
  lemma MonthsMeanInstalls(t: Tables, ever: map<nat, Event>, p: int)
    requires IsRecount(t.monthly, t.watermark, ever) && forall id :: id in ever ==> id <= t.watermark
    ensures MonthsOf(t.monthly, p) != {} <==> Recorded(ever, p) != {}
  {
    if MonthsOf(t.monthly, p) != {} {
      var k := Pick(MonthsOf(t.monthly, p));
      assert IsRecountAt(t.monthly, t.watermark, ever, k);
      var id := Pick(IdsUpTo(ever, t.watermark, {k}));
      assert id in Recorded(ever, p);
    }
    if Recorded(ever, p) != {} {
      var id := Pick(Recorded(ever, p));
      var k := KeyOf(ever[id]);
      assert IsRecountAt(t.monthly, t.watermark, ever, k);
      assert id in IdsUpTo(ever, t.watermark, {k});
      assert k in MonthsOf(t.monthly, p);
    }
  }
}
