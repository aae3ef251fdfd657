/**
 The login rate limiter: eight failures within a window block an address, and stale
 entries are swept now and then.
 */
module LoginLimiter {
  import opened Text

  /** Instants and durations in nanoseconds; 0 is Go's zero time. */
  type Time = nat

  const MINUTE := 60_000_000_000
  const MAX_FAILED_ATTEMPTS := 8
  const ATTEMPT_WINDOW := 15 * MINUTE
  const BLOCK_DURATION := 15 * MINUTE
  const SWEEP_EVERY := 5 * MINUTE

  datatype Attempt = Attempt(failed: nat, windowStart: Time, blockedUntil: Time, lastSeen: Time)

  datatype Limiter = Limiter(attempts: map<string, Attempt>, lastCleanup: Time)

  const EMPTY := Limiter(map[], 0)

  // ----- One step -----

  predicate IsStale(a: Attempt, now: Time) {
    now - a.lastSeen > ATTEMPT_WINDOW + BLOCK_DURATION
  }

  function Swept(l: Limiter, now: Time): Limiter {
    if l.lastCleanup != 0 && now - l.lastCleanup < SWEEP_EVERY then l
    else Limiter(map ip | ip in l.attempts && !IsStale(l.attempts[ip], now) :: l.attempts[ip], now)
  }

  /** The entry of an address after a failure. */
  function AfterFailure(a: Option<Attempt>, now: Time): Attempt {
    match a
    case None => Attempt(1, now, 0, now)
    case Some(a) =>
      var restart := now - a.windowStart > ATTEMPT_WINDOW;
      var failed := (if restart then 0 else a.failed) + 1;
      if failed >= MAX_FAILED_ATTEMPTS then Attempt(0, now, now + BLOCK_DURATION, now)
      else Attempt(failed, if restart then now else a.windowStart, a.blockedUntil, now)
  }

  predicate IsBlocked(a: Option<Attempt>, now: Time) {
    a.Some? && now < a.value.blockedUntil
  }

  datatype Op = Allow(ip: string, now: Time) | Fail(ip: string, now: Time) | Succeed(ip: string)

  /** An operation without the sweep. */
  function Plain(attempts: map<string, Attempt>, op: Op): map<string, Attempt> {
    if op.ip == "" then attempts
    else match op
      case Allow(ip, now) => if ip in attempts then attempts[ip := attempts[ip].(lastSeen := now)] else attempts
      case Fail(ip, now) => attempts[ip := AfterFailure(Lookup(attempts, ip), now)]
      case Succeed(ip) => attempts - {ip}
  }

  /** The same operation on the real limiter, which sweeps first. */
  function Step(l: Limiter, op: Op): Limiter {
    if op.ip == "" then l
    else
      var swept := if op.Succeed? then l else Swept(l, op.now);
      Limiter(Plain(swept.attempts, op), swept.lastCleanup)
  }

  /** What allow answers; the other operations answer nothing. */
  predicate Answer(attempts: map<string, Attempt>, op: Op) {
    op.Allow? && op.ip != "" ==> !IsBlocked(Lookup(attempts, op.ip), op.now)
  }

  predicate RealAnswer(l: Limiter, op: Op) {
    op.Allow? && op.ip != "" ==> Answer(Swept(l, op.now).attempts, op)
  }

  // ----- The limiter -----

  class LoginRateLimiter {
    var attempts: map<string, Attempt>
    var lastCleanup: Time

    constructor ()
      ensures State() == EMPTY
    {
      attempts, lastCleanup := map[], 0;
    }

    ghost function State(): Limiter
      reads this
    {
      Limiter(attempts, lastCleanup)
    }

    /** Deletes entries not seen for half an hour, at most every five minutes. */
    method Sweep(now: Time)
      modifies this
      ensures State() == Swept(old(State()), now)
    {
      if lastCleanup != 0 && now - lastCleanup < SWEEP_EVERY { return; }
      var todo := attempts.Keys;
      while todo != {}
        invariant todo <= old(attempts).Keys && lastCleanup == old(lastCleanup)
        invariant attempts == map ip | ip in old(attempts) && (ip in todo || !IsStale(old(attempts)[ip], now)) ::
                                old(attempts)[ip]
      {
        var ip :| ip in todo;
        todo := todo - {ip};
        if now - attempts[ip].lastSeen > ATTEMPT_WINDOW + BLOCK_DURATION { attempts := attempts - {ip}; }
      }
      lastCleanup := now;
    }

    method Allow(ip: string, now: Time) returns (allowed: bool)
      modifies this
      ensures State() == Step(old(State()), Op.Allow(ip, now))
      ensures allowed == RealAnswer(old(State()), Op.Allow(ip, now))
    {
      if ip == "" { return true; }
      Sweep(now);
      if ip !in attempts { return true; }
      attempts := attempts[ip := attempts[ip].(lastSeen := now)];
      return now >= attempts[ip].blockedUntil;
    }

    method RecordFailure(ip: string, now: Time)
      modifies this
      ensures State() == Step(old(State()), Fail(ip, now))
    {
      if ip == "" { return; }
      Sweep(now);
      if ip !in attempts {
        attempts := attempts[ip := Attempt(1, now, 0, now)];
        return;
      }
      var state := attempts[ip].(lastSeen := now);
      if now - state.windowStart > ATTEMPT_WINDOW {
        state := state.(failed := 0, windowStart := now);
      }
      state := state.(failed := state.failed + 1);
      if state.failed >= MAX_FAILED_ATTEMPTS {
        state := state.(blockedUntil := now + BLOCK_DURATION, failed := 0, windowStart := now);
      }
      attempts := attempts[ip := state];
    }

    method RecordSuccess(ip: string)
      modifies this
      ensures State() == Step(old(State()), Succeed(ip))
    {
      if ip != "" { attempts := attempts - {ip}; }
    }
  }

  // ----- Sweeping is unobservable -----

  /** An entry as it is at some time. */
  predicate IsEntry(a: Attempt, now: Time) {
    && a.blockedUntil <= a.lastSeen + BLOCK_DURATION
    && a.windowStart <= a.lastSeen <= now
    && a.failed < MAX_FAILED_ATTEMPTS
  }

  /** Entries that behave alike from now on: they differ only in a block that is over. */
  predicate IsAlike(a: Attempt, b: Attempt, now: Time) {
    && a.failed == b.failed && a.windowStart == b.windowStart && a.lastSeen == b.lastSeen
    && (a.blockedUntil == b.blockedUntil || (a.blockedUntil <= now && b.blockedUntil <= now))
  }

  /** An entry that behaves like none: its block and its window are over. */
  predicate IsDormant(a: Attempt, now: Time) {
    a.blockedUntil <= now && now - a.windowStart > ATTEMPT_WINDOW
  }

  /** The swept entries against those never swept. */
  ghost predicate IsSimulated(swept: map<string, Attempt>, plain: map<string, Attempt>, now: Time) {
    && (forall ip :: ip in swept ==> IsEntry(swept[ip], now) && ip in plain && IsAlike(swept[ip], plain[ip], now))
    && (forall ip :: ip in plain ==> IsEntry(plain[ip], now) && (ip in swept || IsDormant(plain[ip], now)))
  }

  lemma SimulationLater(swept: map<string, Attempt>, plain: map<string, Attempt>, now: Time, later: Time)
    requires IsSimulated(swept, plain, now) && now <= later
    ensures IsSimulated(swept, plain, later)
  {}

  lemma SimulationSwept(l: Limiter, plain: map<string, Attempt>, now: Time)
    requires IsSimulated(l.attempts, plain, now)
    ensures IsSimulated(Swept(l, now).attempts, plain, now)
  {}

  lemma SimulationStep(swept: map<string, Attempt>, plain: map<string, Attempt>, op: Op, now: Time)
    requires IsSimulated(swept, plain, now) && (op.Succeed? || op.now == now)
    ensures Answer(swept, op) == Answer(plain, op)
    ensures IsSimulated(Plain(swept, op), Plain(plain, op), now)
  {}

  /** The operations happen at times that do not decrease. */
  predicate IsTimed(ops: seq<Op>, clock: Time) {
    ops == [] ||
    var next := if ops[0].Succeed? then clock else ops[0].now;
    clock <= next && IsTimed(ops[1..], next)
  }

  function RealAnswers(l: Limiter, ops: seq<Op>): seq<bool>
    decreases |ops|
  {
    if ops == [] then [] else [RealAnswer(l, ops[0])] + RealAnswers(Step(l, ops[0]), ops[1..])
  }

  function PlainAnswers(attempts: map<string, Attempt>, ops: seq<Op>): seq<bool>
    decreases |ops|
  {
    if ops == [] then [] else [Answer(attempts, ops[0])] + PlainAnswers(Plain(attempts, ops[0]), ops[1..])
  }

  lemma {:induction false} SimulationRun(l: Limiter, plain: map<string, Attempt>, ops: seq<Op>, clock: Time)
    requires IsSimulated(l.attempts, plain, clock) && IsTimed(ops, clock)
    ensures RealAnswers(l, ops) == PlainAnswers(plain, ops)
    decreases |ops|
  {
    if ops != [] {
      var op := ops[0];
      var now := if op.Succeed? then clock else op.now;
      SimulationLater(l.attempts, plain, clock, now);
      SimulationSwept(l, plain, now);
      SimulationStep(l.attempts, plain, op, now);
      SimulationStep(Swept(l, now).attempts, plain, op, now);
      SimulationRun(Step(l, op), Plain(plain, op), ops[1..], now);
    }
  }

  /** A limiter that deletes stale entries answers exactly as one that never does. */
  lemma SweepingIsUnobservable(ops: seq<Op>)
    requires IsTimed(ops, 0)
    ensures RealAnswers(EMPTY, ops) == PlainAnswers(map[], ops)
  {
    SimulationRun(EMPTY, map[], ops, 0);
  }

  // ----- How many failures get through -----

  /** A login request: it is checked first, and recorded unless it was turned away. */
  datatype Request = Request(ip: string, now: Time, success: bool)

  predicate IsAllowed(l: Limiter, r: Request) {
    RealAnswer(l, Allow(r.ip, r.now))
  }

  function Handled(l: Limiter, r: Request): Limiter {
    var checked := Step(l, Allow(r.ip, r.now));
    if !IsAllowed(l, r) then checked
    else if r.success then Step(checked, Succeed(r.ip))
    else Step(checked, Fail(r.ip, r.now))
  }

  function HandledAll(l: Limiter, requests: seq<Request>): Limiter
    decreases |requests|
  {
    if requests == [] then l else HandledAll(Handled(l, requests[0]), requests[1..])
  }

  /** The number of failures of one address that get through. */
  function Failures(l: Limiter, requests: seq<Request>, ip: string): nat
    decreases |requests|
  {
    if requests == [] then 0
    else
      var r := requests[0];
      (if r.ip == ip && IsAllowed(l, r) && !r.success then 1 else 0) + Failures(Handled(l, r), requests[1..], ip)
  }

  /** The number of logins of one address that get through. */
  function Successes(l: Limiter, requests: seq<Request>, ip: string): nat
    decreases |requests|
  {
    if requests == [] then 0
    else
      var r := requests[0];
      (if r.ip == ip && IsAllowed(l, r) && r.success then 1 else 0) + Successes(Handled(l, r), requests[1..], ip)
  }

  /** Request times do not decrease. */
  predicate AreRequests(requests: seq<Request>, clock: Time) {
    requests == [] || (clock <= requests[0].now && AreRequests(requests[1..], requests[0].now))
  }

  ghost predicate AreEntries(l: Limiter, now: Time) {
    forall ip :: ip in l.attempts ==> IsEntry(l.attempts[ip], now)
  }

  lemma HandledKeepsEntries(l: Limiter, r: Request, clock: Time)
    requires AreEntries(l, clock) && clock <= r.now
    ensures AreEntries(Handled(l, r), r.now)
  {
    var checked := Step(l, Allow(r.ip, r.now));
    StepKeepsEntries(l, Allow(r.ip, r.now), clock, r.now);
    StepKeepsEntries(checked, if r.success then Succeed(r.ip) else Fail(r.ip, r.now), r.now, r.now);
  }

  lemma StepKeepsEntries(l: Limiter, op: Op, clock: Time, now: Time)
    requires AreEntries(l, clock) && clock <= now && (op.Succeed? || op.now == now)
    ensures AreEntries(Step(l, op), now)
  {}

  lemma {:induction false} RunKeepsEntries(l: Limiter, requests: seq<Request>, clock: Time)
    requires AreEntries(l, clock) && AreRequests(requests, clock)
    ensures AreEntries(HandledAll(l, requests), if requests == [] then clock else requests[|requests| - 1].now)
    decreases |requests|
  {
    if requests != [] {
      HandledKeepsEntries(l, requests[0], clock);
      RunKeepsEntries(Handled(l, requests[0]), requests[1..], requests[0].now);
    }
  }

  /** How many more failures an address can get through before start + 15 minutes. */
  function Allowance(a: Option<Attempt>, start: Time): int {
    match a
    case None => MAX_FAILED_ATTEMPTS
    case Some(a) =>
      if a.blockedUntil >= start + ATTEMPT_WINDOW then 0
      else if a.windowStart >= start then MAX_FAILED_ATTEMPTS - a.failed
      else 2 * MAX_FAILED_ATTEMPTS - 1 - a.failed
  }

  /** Each failure that gets through uses up one unit of the allowance, and a login restores at most eight. */
  lemma AllowanceStep(l: Limiter, r: Request, clock: Time, ip: string, start: Time)
    requires ip != "" && AreEntries(l, clock) && clock <= r.now && start <= r.now < start + ATTEMPT_WINDOW
    ensures Allowance(Lookup(Handled(l, r).attempts, ip), start)
            + (if r.ip == ip && IsAllowed(l, r) && !r.success then 1 else 0)
            <= Allowance(Lookup(l.attempts, ip), start)
               + (if r.ip == ip && IsAllowed(l, r) && r.success then MAX_FAILED_ATTEMPTS else 0)
    ensures Allowance(Lookup(l.attempts, ip), start) >= 0
  {}

  lemma {:induction false} AllowanceRun(l: Limiter, requests: seq<Request>, clock: Time, ip: string, start: Time)
    requires ip != "" && AreEntries(l, clock) && AreRequests(requests, clock)
    requires forall r :: r in requests ==> start <= r.now < start + ATTEMPT_WINDOW
    ensures Failures(l, requests, ip) <=
            Allowance(Lookup(l.attempts, ip), start) + MAX_FAILED_ATTEMPTS * Successes(l, requests, ip)
    decreases |requests|
  {
    if requests != [] {
      var r := requests[0];
      assert r in requests;
      HandledKeepsEntries(l, r, clock);
      AllowanceStep(l, r, clock, ip, start);
      AllowanceRun(Handled(l, r), requests[1..], r.now, ip, start);
    } else if ip in l.attempts {
      assert IsEntry(l.attempts[ip], clock);
    }
  }

  /**
   After any history, at most 15 failures of one address get through in any half-open
   15-minute interval in which none of its logins does, and at most 8 more for each
   login that gets through.
   */
  lemma AtMostFifteenFailures(history: seq<Request>, requests: seq<Request>, ip: string, start: Time)
    requires ip != "" && AreRequests(history + requests, 0)
    requires forall r :: r in requests ==> start <= r.now < start + ATTEMPT_WINDOW
    ensures var l := HandledAll(EMPTY, history);
            Failures(l, requests, ip) <= 2 * MAX_FAILED_ATTEMPTS - 1 + MAX_FAILED_ATTEMPTS * Successes(l, requests, ip)
  {
    var clock := if history == [] then 0 else history[|history| - 1].now;
    SplitRequests(history, requests, 0);
    RunKeepsEntries(EMPTY, history, 0);
    AllowanceRun(HandledAll(EMPTY, history), requests, clock, ip, start);
  }

  lemma {:induction false} SplitRequests(a: seq<Request>, b: seq<Request>, clock: Time)
    requires AreRequests(a + b, clock)
    ensures AreRequests(a, clock) && AreRequests(b, if a == [] then clock else a[|a| - 1].now)
    decreases |a|
  {
    if a == [] {
      assert a + b == b;
    } else {
      assert (a + b)[0] == a[0] && (a + b)[1..] == a[1..] + b;
      SplitRequests(a[1..], b, a[0].now);
    }
  }

  function Repeated(ip: string, now: Time, n: nat): seq<Request>
    decreases n
  {
    if n == 0 then [] else [Request(ip, now, false)] + Repeated(ip, now, n - 1)
  }

  /** The limiter n failures later, short of a block. */
  function AfterFailures(l: Limiter, ip: string, now: Time, n: nat): Limiter
    requires ip in l.attempts
  {
    var a := l.attempts[ip];
    if n == 0 then l else l.(attempts := l.attempts[ip := a.(failed := a.failed + n, lastSeen := now)])
  }

  lemma OneFailure(l: Limiter, ip: string, now: Time, more: nat)
    requires ip != "" && l.lastCleanup != 0 && now - l.lastCleanup < SWEEP_EVERY && ip in l.attempts
    requires l.attempts[ip].failed + 1 < MAX_FAILED_ATTEMPTS && l.attempts[ip].blockedUntil <= now
    requires now <= l.attempts[ip].windowStart + ATTEMPT_WINDOW
    ensures IsAllowed(l, Request(ip, now, false))
    ensures Handled(l, Request(ip, now, false)) == AfterFailures(l, ip, now, 1)
    ensures AfterFailures(AfterFailures(l, ip, now, 1), ip, now, more) == AfterFailures(l, ip, now, 1 + more)
  {}

  /** n failures at one moment, short of a block, all get through and are all counted. */
  lemma {:induction false} RepeatedFailures(l: Limiter, ip: string, now: Time, n: nat, rest: seq<Request>)
    requires ip != "" && l.lastCleanup != 0 && now - l.lastCleanup < SWEEP_EVERY && ip in l.attempts
    requires l.attempts[ip].failed + n < MAX_FAILED_ATTEMPTS && l.attempts[ip].blockedUntil <= now
    requires now <= l.attempts[ip].windowStart + ATTEMPT_WINDOW
    ensures Failures(l, Repeated(ip, now, n) + rest, ip) == n + Failures(AfterFailures(l, ip, now, n), rest, ip)
    ensures HandledAll(l, Repeated(ip, now, n) + rest) == HandledAll(AfterFailures(l, ip, now, n), rest)
    decreases n
  {
    var requests := Repeated(ip, now, n) + rest;
    if n == 0 {
      assert requests == rest;
    } else {
      assert requests[0] == Request(ip, now, false) && requests[1..] == Repeated(ip, now, n - 1) + rest;
      OneFailure(l, ip, now, n - 1);
      RepeatedFailures(AfterFailures(l, ip, now, 1), ip, now, n - 1, rest);
    }
  }

  lemma OneRequest(l: Limiter, r: Request, rest: seq<Request>, ip: string)
    ensures Failures(l, [r] + rest, ip) ==
            (if r.ip == ip && IsAllowed(l, r) && !r.success then 1 else 0) + Failures(Handled(l, r), rest, ip)
    ensures HandledAll(l, [r] + rest) == HandledAll(Handled(l, r), rest)
  {
    assert ([r] + rest)[1..] == rest;
  }

  /** Eight failures in the first minute: the address is blocked for fifteen minutes. */
  lemma EightFailuresBlock(ip: string)
    requires ip != ""
    ensures var fail := Request(ip, MINUTE, false);
            HandledAll(EMPTY, [fail] + (Repeated(ip, MINUTE, 6) + [fail])) ==
            Limiter(map[ip := Attempt(0, MINUTE, 16 * MINUTE, MINUTE)], MINUTE)
  {
    var fail := Request(ip, MINUTE, false);
    var first := Handled(EMPTY, fail);
    assert first == Limiter(map[ip := Attempt(1, MINUTE, 0, MINUTE)], MINUTE);
    OneRequest(EMPTY, fail, Repeated(ip, MINUTE, 6) + [fail], ip);
    RepeatedFailures(first, ip, MINUTE, 6, [fail]);
    var seven := AfterFailures(first, ip, MINUTE, 6);
    OneRequest(seven, fail, [], ip);
    assert [fail] + [] == [fail];
    assert Handled(seven, fail).attempts == map[ip := Attempt(0, MINUTE, 16 * MINUTE, MINUTE)];
  }

  /** The entry of a blocked address, and after seven failures at the exact end of the block. */
  function AtBlockEnd(ip: string, failed: nat): Limiter {
    var end := 16 * MINUTE;
    Limiter(map[ip := Attempt(failed, MINUTE, end, end)], end)
  }

  /** A retry at the exact end of a block does not restart the window: seven failures get through. */
  lemma SevenAtTheEnd(ip: string, rest: seq<Request>)
    requires ip != ""
    ensures var end := 16 * MINUTE;
            var blocked := Limiter(map[ip := Attempt(0, MINUTE, end, MINUTE)], MINUTE);
            Failures(blocked, [Request(ip, end, false)] + (Repeated(ip, end, 6) + rest), ip) ==
            7 + Failures(AtBlockEnd(ip, 7), rest, ip)
  {
    var end := 16 * MINUTE;
    var first := Request(ip, end, false);
    var blocked := Limiter(map[ip := Attempt(0, MINUTE, end, MINUTE)], MINUTE);
    OneRequest(blocked, first, Repeated(ip, end, 6) + rest, ip);
    FirstAtTheEnd(ip);
    RepeatedFailures(AtBlockEnd(ip, 1), ip, end, 6, rest);
    assert AfterFailures(AtBlockEnd(ip, 1), ip, end, 6) == AtBlockEnd(ip, 7);
  }

  lemma FirstAtTheEnd(ip: string)
    requires ip != ""
    ensures var blocked := Limiter(map[ip := Attempt(0, MINUTE, 16 * MINUTE, MINUTE)], MINUTE);
            var first := Request(ip, 16 * MINUTE, false);
            IsAllowed(blocked, first) && Handled(blocked, first) == AtBlockEnd(ip, 1)
  {}

  /** A nanosecond later the window restarts, and eight more get through before the next block. */
  lemma EightAMomentLater(ip: string)
    requires ip != ""
    ensures var now := 16 * MINUTE + 1;
            var fail := Request(ip, now, false);
            Failures(AtBlockEnd(ip, 7), [fail] + (Repeated(ip, now, 6) + [fail]), ip) == 8
  {
    var now := 16 * MINUTE + 1;
    var fail := Request(ip, now, false);
    OneRequest(AtBlockEnd(ip, 7), fail, Repeated(ip, now, 6) + [fail], ip);
    var restarted := Limiter(map[ip := Attempt(1, now, now - 1, now)], now - 1);
    assert Handled(AtBlockEnd(ip, 7), fail) == restarted;
    RepeatedFailures(restarted, ip, now, 6, [fail]);
    OneRequest(AfterFailures(restarted, ip, now, 6), fail, [], ip);
    assert [fail] + [] == [fail];
  }

  /** The bound is reached: fifteen failures get through from the end of a block on. */
  lemma FifteenIsReached(ip: string)
    requires ip != ""
    ensures var end := 16 * MINUTE;
            var fail := Request(ip, end + 1, false);
            var blocked := Limiter(map[ip := Attempt(0, MINUTE, end, MINUTE)], MINUTE);
            Failures(blocked, [Request(ip, end, false)] +
                              (Repeated(ip, end, 6) + ([fail] + (Repeated(ip, end + 1, 6) + [fail]))), ip) == 15
  {
    var now := 16 * MINUTE + 1;
    var fail := Request(ip, now, false);
    SevenAtTheEnd(ip, [fail] + (Repeated(ip, now, 6) + [fail]));
    EightAMomentLater(ip);
  }

  // ----- Who is blocked -----

  /** How many failures of an address the operations record. */
  function FailsIn(ops: seq<Op>, ip: string): nat {
    if ops == [] then 0
    else
      var last := ops[|ops| - 1];
      FailsIn(ops[..|ops| - 1], ip) + if last.Fail? && last.ip == ip then 1 else 0
  }

  /** All failures of the address among the operations are at that time or later. */
  predicate AreFailsFrom(ops: seq<Op>, ip: string, start: int) {
    forall j :: 0 <= j < |ops| && ops[j].Fail? && ops[j].ip == ip ==> start <= ops[j].now
  }

  /** The address has not logged in since the i-th operation. */
  predicate HasNoLogin(ops: seq<Op>, ip: string, i: nat) {
    forall j :: i <= j < |ops| ==> ops[j] != Succeed(ip)
  }

  /** The i-th to k-th operations hold the eight failures, within 15 minutes, that the block comes from. */
  predicate IsBlockFrom(ops: seq<Op>, ip: string, i: nat, k: nat, until: Time) {
    && i <= k < |ops| && ops[k].Fail? && ops[k].ip == ip && until == ops[k].now + 15 * 60_000_000_000
    && FailsIn(ops[i..k + 1], ip) == 8 && AreFailsFrom(ops[i..k + 1], ip, ops[k].now - 15 * 60_000_000_000)
    && HasNoLogin(ops, ip, i)
  }

  /** The failures that an entry counts are those since the i-th operation. */
  predicate IsCountedFrom(ops: seq<Op>, ip: string, a: Attempt, i: nat) {
    && i <= |ops| && FailsIn(ops[i..], ip) == a.failed < 8 && AreFailsFrom(ops[i..], ip, a.windowStart)
    && HasNoLogin(ops, ip, i)
  }

  /** Every entry comes from the operations. */
  ghost predicate IsFounded(ops: seq<Op>, ip: string, a: Attempt, clock: Time) {
    && a.windowStart <= clock
    && (exists i: nat :: IsCountedFrom(ops, ip, a, i))
    && (a.blockedUntil != 0 ==> exists i: nat, k: nat :: IsBlockFrom(ops, ip, i, k, a.blockedUntil))
  }

  ghost predicate AreFounded(ops: seq<Op>, attempts: map<string, Attempt>, clock: Time) {
    forall ip :: ip in attempts ==> ip != "" && IsFounded(ops, ip, attempts[ip], clock)
  }

  lemma OneMoreFail(ops: seq<Op>, op: Op, ip: string, i: nat)
    requires i <= |ops|
    ensures (ops + [op])[i..] == ops[i..] + [op]
    ensures FailsIn(ops[i..] + [op], ip) == FailsIn(ops[i..], ip) + if op.Fail? && op.ip == ip then 1 else 0
  {
    assert (ops[i..] + [op])[..|ops| - i] == ops[i..];
  }

  lemma BlockStays(ops: seq<Op>, op: Op, ip: string, i: nat, k: nat, until: Time)
    requires IsBlockFrom(ops, ip, i, k, until) && op != Succeed(ip)
    ensures IsBlockFrom(ops + [op], ip, i, k, until)
  {
    assert (ops + [op])[i..k + 1] == ops[i..k + 1];
  }

  lemma CountStays(ops: seq<Op>, op: Op, ip: string, a: Attempt, i: nat)
    requires IsCountedFrom(ops, ip, a, i) && op != Succeed(ip) && !(op.Fail? && op.ip == ip)
    ensures IsCountedFrom(ops + [op], ip, a, i)
  {
    OneMoreFail(ops, op, ip, i);
  }

  /** An operation that does not count for the address. */
  lemma StaysFounded(ops: seq<Op>, op: Op, ip: string, a: Attempt, b: Attempt, clock: Time, now: Time)
    requires IsFounded(ops, ip, a, clock) && op != Succeed(ip) && !(op.Fail? && op.ip == ip) && clock <= now
    requires b == a.(lastSeen := b.lastSeen)
    ensures IsFounded(ops + [op], ip, b, now)
  {
    var i: nat :| IsCountedFrom(ops, ip, a, i);
    CountStays(ops, op, ip, a, i);
    assert IsCountedFrom(ops + [op], ip, b, i);
    if a.blockedUntil != 0 {
      var j: nat, k: nat :| IsBlockFrom(ops, ip, j, k, a.blockedUntil);
      BlockStays(ops, op, ip, j, k, a.blockedUntil);
    }
  }

  /** The first failure of a window. */
  lemma FirstIsCounted(ops: seq<Op>, ip: string, now: Time, a: Attempt)
    requires a.failed == 1 && a.windowStart == now
    ensures IsCountedFrom(ops + [Fail(ip, now)], ip, a, |ops|)
  {
    OneMoreFail(ops, Fail(ip, now), ip, |ops|);
    assert ops[|ops|..] == [];
    assert FailsIn([], ip) == 0;
  }

  /** One failure more in a window that is still open. */
  lemma NextIsCounted(ops: seq<Op>, ip: string, now: Time, a: Attempt, i: nat)
    requires IsCountedFrom(ops, ip, a, i) && a.windowStart <= now
    ensures var more := ops + [Fail(ip, now)];
            && FailsIn(more[i..], ip) == a.failed + 1 && AreFailsFrom(more[i..], ip, a.windowStart)
            && HasNoLogin(more, ip, i)
  {
    OneMoreFail(ops, Fail(ip, now), ip, i);
  }

  lemma FailureIsFounded(ops: seq<Op>, ip: string, a: Attempt, clock: Time, now: Time)
    requires IsFounded(ops, ip, a, clock) && clock <= now
    ensures IsFounded(ops + [Fail(ip, now)], ip, AfterFailure(Some(a), now), now)
  {
    var more := ops + [Fail(ip, now)];
    var b := AfterFailure(Some(a), now);
    if a.blockedUntil != 0 {
      var j: nat, k: nat :| IsBlockFrom(ops, ip, j, k, a.blockedUntil);
      BlockStays(ops, Fail(ip, now), ip, j, k, a.blockedUntil);
    }
    if now - a.windowStart > ATTEMPT_WINDOW {
      FirstIsCounted(ops, ip, now, b);
    } else {
      var i: nat :| IsCountedFrom(ops, ip, a, i);
      NextIsCounted(ops, ip, now, a, i);
      if a.failed == 7 {
        assert more[i..|ops| + 1] == more[i..];
        assert IsBlockFrom(more, ip, i, |ops|, b.blockedUntil);
        assert more[|more|..] == [];
        assert IsCountedFrom(more, ip, b, |more|);
      } else {
        assert IsCountedFrom(more, ip, b, i);
      }
    }
  }

  lemma StepKeepsFounded(ops: seq<Op>, attempts: map<string, Attempt>, op: Op, clock: Time, now: Time)
    requires AreFounded(ops, attempts, clock) && clock <= now && (op.Succeed? || op.now == now)
    ensures AreFounded(ops + [op], Plain(attempts, op), now)
  {
    forall ip | ip in Plain(attempts, op) ensures ip != "" && IsFounded(ops + [op], ip, Plain(attempts, op)[ip], now) {
      EntryIsFounded(ops, attempts, op, clock, now, ip);
    }
  }

  lemma EntryIsFounded(ops: seq<Op>, attempts: map<string, Attempt>, op: Op, clock: Time, now: Time, ip: string)
    requires ip in attempts ==> ip != "" && IsFounded(ops, ip, attempts[ip], clock)
    requires clock <= now && (op.Succeed? || op.now == now) && ip in Plain(attempts, op)
    ensures ip != "" && IsFounded(ops + [op], ip, Plain(attempts, op)[ip], now)
  {
    var b := Plain(attempts, op)[ip];
    if op.Fail? && op.ip == ip {
      assert op == Fail(ip, now);
      if ip in attempts {
        FailureIsFounded(ops, ip, attempts[ip], clock, now);
      } else {
        FirstIsCounted(ops, ip, now, b);
      }
    } else {
      assert op != Succeed(ip);
      StaysFounded(ops, op, ip, attempts[ip], b, clock, now);
    }
  }

  /** The address was blocked by eight failures, and the block is not over. */
  ghost predicate IsBlockedBy(ops: seq<Op>, ip: string, now: Time) {
    exists i: nat, k: nat, until: Time :: IsBlockFrom(ops, ip, i, k, until) && now < until
  }

  lemma {:induction false} BlockIsFounded(
    ops: seq<Op>, attempts: map<string, Attempt>, rest: seq<Op>, clock: Time, n: nat)
    requires AreFounded(ops, attempts, clock) && IsTimed(rest, clock)
    requires n < |PlainAnswers(attempts, rest)| && !PlainAnswers(attempts, rest)[n]
    ensures n < |rest| && rest[n].Allow? && IsBlockedBy(ops + rest[..n], rest[n].ip, rest[n].now)
    decreases |rest|
  {
    var op := rest[0];
    if n == 0 {
      assert ops + rest[..0] == ops;
      assert !Answer(attempts, op);
    } else {
      var now := if op.Succeed? then clock else op.now;
      StepKeepsFounded(ops, attempts, op, clock, now);
      BlockIsFounded(ops + [op], Plain(attempts, op), rest[1..], now, n - 1);
      assert (ops + [op]) + rest[1..][..n - 1] == ops + rest[..n];
    }
  }

  /**
   Only who has failed is turned away: an address that is not allowed has had eight
   failures within 15 minutes, the last of them less than 15 minutes ago, and no login
   since the first of them.
   */
  lemma BlockedHasEight(ops: seq<Op>, n: nat)
    requires IsTimed(ops, 0) && n < |RealAnswers(EMPTY, ops)| && !RealAnswers(EMPTY, ops)[n]
    ensures n < |ops| && ops[n].Allow? && IsBlockedBy(ops[..n], ops[n].ip, ops[n].now)
  {
    SweepingIsUnobservable(ops);
    BlockIsFounded([], map[], ops, 0, n);
    assert [] + ops[..n] == ops[..n];
  }

  /**
   What a sweep leaves: everything if the last one was less than five minutes ago, else
   what was seen in the last half hour.
   */
  lemma SweptMeans(l: Limiter, now: Time, ip: string)
    ensures var swept := Swept(l, now);
            if l.lastCleanup != 0 && now - l.lastCleanup < 5 * 60_000_000_000 then swept == l
            else
              && swept.lastCleanup == now
              && (ip in swept.attempts <==> ip in l.attempts && now - l.attempts[ip].lastSeen <= 30 * 60_000_000_000)
              && (ip in swept.attempts ==> swept.attempts[ip] == l.attempts[ip])
  {}
}
