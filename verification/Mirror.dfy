/**
 A client that mirrors the repository through the changes feed, for every interleaving
 of builds, promotions, cleanups and the separate steps of a poll.
 */
module Mirror {
  import opened Text
  import opened Serialize
  import opened Builder
  import opened ChangesFeed

  /** What the served repository holds for each package. */
  type Repo = map<string, View>

  /**
   The changes are the exact difference of two repositories, with one entry for each
   package that differs.
   */
  ghost predicate IsRepoDiff(before: Repo, after: Repo, changes: seq<PackageChange>) {
    && AreDistinct(changes)
    && (forall n :: PackageChange(n, Update) in changes <==> n in after && (n !in before || before[n] != after[n]))
    && forall n :: PackageChange(n, Delete) in changes <==> n in before && n !in after
  }

  /** A recorded build: its changes, the packages it serves, and its timestamp. */
  datatype Batch = Batch(changes: seq<PackageChange>, repo: Repo, timestamp: nat)

  function ApplyChange(repo: Repo, source: Repo, c: PackageChange): Repo {
    if c.action == Update && c.name in source then repo[c.name := source[c.name]] else repo - {c.name}
  }

  /** Replays a list of changes, fetching updated packages from source. */
  function Replay(repo: Repo, source: Repo, changes: seq<PackageChange>): Repo {
    if changes == [] then repo
    else ApplyChange(Replay(repo, source, changes[..|changes| - 1]), source, changes[|changes| - 1])
  }

  /** Replays every recorded change since the first build, each from its own build. */
  function ReplayAll(batches: seq<Batch>): Repo {
    if batches == [] then map[]
    else
      var b := batches[|batches| - 1];
      Replay(ReplayAll(batches[..|batches| - 1]), b.repo, b.changes)
  }

  lemma NameIsNew(changes: seq<PackageChange>)
    requires AreDistinct(changes) && changes != []
    ensures var k := |changes| - 1; forall d :: d in changes[..k] ==> d.name != changes[k].name
  {}

  lemma {:induction false} ReplayAt(repo: Repo, source: Repo, changes: seq<PackageChange>, n: string)
    requires AreDistinct(changes)
    ensures var result := Replay(repo, source, changes);
            if PackageChange(n, Update) in changes && n in source then n in result && result[n] == source[n]
            else if PackageChange(n, Update) in changes || PackageChange(n, Delete) in changes then n !in result
            else (n in result <==> n in repo) && (n in repo ==> result[n] == repo[n])
  {
    if changes != [] {
      var k := |changes| - 1;
      var c := changes[k];
      ReplayAt(repo, source, changes[..k], n);
      assert changes == changes[..k] + [c];
      if c.name == n {
        NameIsNew(changes);
        assert c == PackageChange(n, Update) || c == PackageChange(n, Delete);
      }
    }
  }

  // ----- Runs -----

  datatype Client = Client(view: Repo, since: nat)

  /** Where the client's poll stands: the floor tested, the checkpoint read, or the answer received. */
  datatype Poll =
    | Quiet
    | Asked(now: nat)
    | Checked(now: nat, atMax: seq<ChangeRow>)
    | Answered(response: Response)

  /**
   The server and one client: the promoted repository, the build recorded but not
   promoted yet, the table, the latest time a cleanup or poll has read, and, for the
   statements only, every build and row ever recorded, the latest cutoff of a cleanup,
   and the rows that cleanups removed between the floor test and the row query.
   */
  datatype State = State(
    repo: Repo, pending: Option<Batch>, rows: seq<ChangeRow>, nextId: nat, clock: nat,
    client: Option<Client>, poll: Poll,
    recorded: seq<Batch>, inserted: set<ChangeRow>, cutoff: int, dropped: set<ChangeRow>)

  datatype Step =
    | Record(repo: Repo, changes: seq<PackageChange>, timestamp: nat)
    | Promote
    | Prune(now: nat)
    | Ask(now: nat)
    | Check
    | Read(response: Response)
    | Fetch

  ghost predicate IsInitial(s: State) {
    && s.repo == map[] && s.pending == None && s.rows == [] && s.client == None && s.poll == Quiet
    && s.recorded == [] && s.inserted == {} && s.cutoff <= s.clock - RETENTION && s.dropped == {}
  }

  /**
   When a step may happen. Each build finishes after the builds before it and is compared
   with the promoted one, whether or not the last one recorded is promoted yet; the
   clock that cleanups and polls read does not run backwards.
   */
  ghost predicate IsEnabled(s: State, step: Step) {
    match step
    case Record(repo, changes, timestamp) =>
      IsRepoDiff(s.repo, repo, changes) && forall row :: row in s.inserted ==> row.timestamp < timestamp
    case Promote => s.pending.Some?
    case Prune(now) => s.clock <= now
    case Ask(now) => s.poll == Quiet && s.clock <= now
    case Check => s.poll.Asked?
    case Read(r) => s.poll.Checked? && s.client.Some? && IsDeltaFor(s.poll.atMax, s.rows, s.client.value.since, s.poll.now, r)
    case Fetch => s.poll.Answered? && (s.poll.response.Delta? ==> s.client.Some?)
  }

  function ChangesOf(actions: seq<ChangeAction>): seq<PackageChange> {
    seq(|actions|, i requires 0 <= i < |actions| => PackageChange(actions[i].name, actions[i].action))
  }

  /** What HandleMetadataChanges answers before it reads the table. */
  function Asking(client: Option<Client>, now: nat): Poll {
    if client.None? then Answered(Invalid(now))
    else if client.value.since < now - RETENTION then Answered(Resync(now, now / 1000))
    else Asked(now)
  }

  /** The client follows the actions of a delta, and otherwise downloads everything. */
  function Fetched(client: Option<Client>, repo: Repo, r: Response): Client {
    if r.Delta? && client.Some? then Client(Replay(client.value.view, repo, ChangesOf(r.actions)), r.timestamp)
    else Client(repo, r.timestamp)
  }

  function Next(s: State, step: Step): State {
    match step
    case Record(repo, changes, timestamp) =>
      var added := RowsFor(changes, timestamp, s.nextId);
      s.(pending := Some(Batch(changes, repo, timestamp)), rows := s.rows + added, nextId := s.nextId + |changes|,
         recorded := s.recorded + [Batch(changes, repo, timestamp)], inserted := s.inserted + set row | row in added)
    case Promote => if s.pending.Some? then s.(repo := s.pending.value.repo, pending := None) else s
    case Prune(now) =>
      s.(rows := Kept(s.rows, now - RETENTION), clock := now, cutoff := now - RETENTION,
         dropped := if s.poll.Asked? || s.poll.Checked? then s.dropped + Removed(s.rows, now - RETENTION) else s.dropped)
    case Ask(now) => s.(clock := now, poll := Asking(s.client, now), dropped := {})
    case Check => if s.poll.Asked? then s.(poll := Checked(s.poll.now, s.rows)) else s
    case Read(r) => s.(poll := Answered(r))
    case Fetch =>
      if s.poll.Answered? then s.(client := Some(Fetched(s.client, s.repo, s.poll.response)), poll := Quiet) else s
  }

  function Removed(rows: seq<ChangeRow>, cutoff: int): set<ChangeRow> {
    set row | row in rows && row.timestamp < cutoff
  }

  ghost predicate IsRun(s: State, steps: seq<Step>)
    decreases |steps|
  {
    steps == [] || (IsEnabled(s, steps[0]) && IsRun(Next(s, steps[0]), steps[1..]))
  }

  function Run(s: State, steps: seq<Step>): State
    decreases |steps|
  {
    if steps == [] then s else Run(Next(s, steps[0]), steps[1..])
  }

  // ----- What is lost, and when -----

  /** What replaying every recorded build gives: the pending build, if there is one. */
  function Latest(s: State): Repo {
    if s.pending.Some? then s.pending.value.repo else s.repo
  }

  predicate AgreeOn(a: Repo, b: Repo, n: string) {
    (n in a <==> n in b) && (n in a ==> a[n] == b[n])
  }

  /** Some row of the package is later than since. */
  ghost predicate HasNews(rows: set<ChangeRow>, n: string, since: nat) {
    exists row :: row in rows && row.name == n && row.timestamp > since
  }

  /**
   Nothing is lost: wherever the client differs from the recorded builds, a row later
   than its timestamp was recorded.
   */
  ghost predicate IsMirror(s: State) {
    s.client.Some? ==>
      forall n :: HasNews(s.inserted, n, s.client.value.since) || AgreeOn(s.client.value.view, Latest(s), n)
  }

  /** A cleanup between the floor test and the row query removed a row the delta should have had. */
  ghost predicate SpansDroppedRow(dropped: set<ChangeRow>, since: nat, checkpoint: nat) {
    exists row :: row in dropped && since < row.timestamp <= checkpoint
  }

  /** The delta lists an update whose files are not promoted yet. */
  ghost predicate SpansUnpromoted(pending: Option<Batch>, since: nat, checkpoint: nat) {
    && pending.Some? && since < pending.value.timestamp <= checkpoint
    && exists n :: PackageChange(n, Update) in pending.value.changes
  }

  /** The build leaves out a package that an unpromoted build before it listed, so that change is taken back silently. */
  ghost predicate Undoes(pending: Option<Batch>, changes: seq<PackageChange>) {
    pending.Some? && exists c :: c in pending.value.changes && !Lists(changes, c.name)
  }

  ghost predicate Lists(changes: seq<PackageChange>, n: string) {
    exists c :: c in changes && c.name == n
  }

  /**
   Recording loses nothing if the build takes no unpromoted change back and finished
   after the client's timestamp, a fetch loses nothing if neither cleanup nor promotion
   was in its way, and no other step loses anything.
   */
  ghost predicate IsHarmless(s: State, step: Step) {
    match step
    case Record(_, changes, timestamp) =>
      !Undoes(s.pending, changes) && (changes == [] || IsAfterClient(s.client, s.poll, timestamp))
    case Fetch =>
      s.poll.Answered? ==>
        var c := s.poll.response.timestamp;
        if s.poll.response.Delta? && s.client.Some? then
          !SpansDroppedRow(s.dropped, s.client.value.since, c) && !SpansUnpromoted(s.pending, s.client.value.since, c)
        else s.pending.None? || s.pending.value.changes == [] || c < s.pending.value.timestamp
    case _ => true
  }

  /** Later than the client's timestamp, also the one a delta already under way will give it. */
  ghost predicate IsAfterClient(client: Option<Client>, poll: Poll, timestamp: nat) {
    && (client.Some? ==> client.value.since < timestamp)
    && (poll.Answered? && poll.response.Delta? ==> poll.response.timestamp < timestamp)
  }

  ghost predicate AreHarmless(s: State, steps: seq<Step>)
    decreases |steps|
  {
    steps == [] || (IsHarmless(s, steps[0]) && AreHarmless(Next(s, steps[0]), steps[1..]))
  }

  // ----- What every step keeps -----

  /** The row with the highest id of its package. */
  ghost predicate IsNewest(rows: seq<ChangeRow>, row: ChangeRow) {
    row in rows && forall q :: q in rows && q.name == row.name ==> q.id <= row.id
  }

  /** The newest row of each package tells whether the package is there. */
  ghost predicate AreRowsTruthful(rows: seq<ChangeRow>, repo: Repo) {
    forall row :: IsNewest(rows, row) ==> (row.action == Update <==> row.name in repo)
  }

  /** The table holds what was inserted, except rows before the cutoff, which are the earliest. */
  ghost predicate IsTableSound(rows: seq<ChangeRow>, inserted: set<ChangeRow>, nextId: nat, cutoff: int) {
    && IsOrdered(rows)
    && (forall row :: row in rows ==> row in inserted)
    && (forall row :: row in inserted ==> row.id < nextId && (row in rows || row.timestamp < cutoff))
    && forall q, row :: q in inserted && q !in rows && row in rows ==> q.timestamp <= row.timestamp
  }

  /** The pending build is the difference from the promoted one, and the last that was recorded. */
  ghost predicate IsPendingSound(repo: Repo, b: Batch, inserted: set<ChangeRow>) {
    && IsRepoDiff(repo, b.repo, b.changes)
    && (forall row :: row in inserted ==> row.timestamp <= b.timestamp)
    && forall c :: c in b.changes ==> exists row :: row in inserted && row.name == c.name && row.timestamp == b.timestamp
  }

  /** Only rows that were once inserted and are gone count as dropped. */
  ghost predicate IsDroppedSound(s: State) {
    forall row :: row in s.dropped ==> row in s.inserted && row !in s.rows && row.timestamp < s.cutoff
  }

  /** Between floor test and row query, only dropped rows after the client's timestamp are missing. */
  ghost predicate IsFlightSound(s: State) {
    s.poll.Asked? || s.poll.Checked? ==>
      s.client.Some? &&
      forall row :: row in s.inserted && row.timestamp > s.client.value.since ==> row in s.rows || row in s.dropped
  }

  ghost predicate ListsPackage(actions: seq<ChangeAction>, n: string) {
    exists a :: a in actions && a.name == n
  }

  /**
   A delta under way lists the packages with rows up to its checkpoint, except for
   dropped rows; without later rows of the package, the action is the last word on it.
   */
  ghost predicate IsDeltaSound(inserted: set<ChangeRow>, dropped: set<ChangeRow>, latest: Repo, since: nat, r: Response) {
    && IsSorted(ActionsOf(r))
    && (forall row :: row in inserted && since < row.timestamp <= r.timestamp ==>
          row in dropped || ListsPackage(ActionsOf(r), row.name))
    && forall a :: a in ActionsOf(r) ==>
          (exists row :: row in inserted && row.name == a.name && since < row.timestamp <= r.timestamp) &&
          (HasNews(inserted, a.name, r.timestamp) || (a.action == Update <==> a.name in latest))
  }

  function ActionsOf(r: Response): seq<ChangeAction> {
    if r.Delta? then r.actions else []
  }

  ghost predicate IsAnswerSound(s: State) {
    s.poll.Answered? && s.poll.response.Delta? ==>
      s.client.Some? && IsDeltaSound(s.inserted, s.dropped, Latest(s), s.client.value.since, s.poll.response)
  }

  /** What every step keeps, harmless or not. */
  ghost predicate IsFeedSound(s: State) {
    && IsTableSound(s.rows, s.inserted, s.nextId, s.cutoff) && s.cutoff <= s.clock - RETENTION
    && IsDroppedSound(s) && IsFlightSound(s)
  }

  /** What every harmless step keeps. */
  ghost predicate IsSound(s: State) {
    IsFeedSound(s) && IsBuildSound(s) && AreRowsTruthful(s.rows, Latest(s)) && IsAnswerSound(s)
  }

  ghost predicate IsBuildSound(s: State) {
    Latest(s) == ReplayAll(s.recorded) && (s.pending.Some? ==> IsPendingSound(s.repo, s.pending.value, s.inserted))
  }

  lemma DiffCoversChanges(before: Repo, after: Repo, changes: seq<PackageChange>, n: string)
    requires IsRepoDiff(before, after, changes)
    requires PackageChange(n, Update) !in changes && PackageChange(n, Delete) !in changes
    ensures AgreeOn(before, after, n)
  {}

  lemma RowForChange(changes: seq<PackageChange>, timestamp: nat, id: nat, c: PackageChange) returns (row: ChangeRow)
    requires c in changes
    ensures row in RowsFor(changes, timestamp, id) && row.name == c.name && row.timestamp == timestamp
  {
    RowsForShape(changes, timestamp, id);
    var k :| 0 <= k < |changes| && changes[k] == c;
    row := RowsFor(changes, timestamp, id)[k];
  }

  // ----- Recording a build -----

  lemma UnlistedAgrees(s: State, repo: Repo, changes: seq<PackageChange>, n: string)
    requires IsBuildSound(s) && IsRepoDiff(s.repo, repo, changes) && !Undoes(s.pending, changes) && !Lists(changes, n)
    ensures AgreeOn(Latest(s), repo, n)
  {
    DiffCoversChanges(s.repo, repo, changes, n);
    if s.pending.Some? {
      var b := s.pending.value;
      forall act ensures PackageChange(n, act) !in b.changes {
        assert PackageChange(n, act).name == n;
      }
      DiffCoversChanges(s.repo, b.repo, b.changes, n);
    }
  }

  /** A build recorded before the last one is promoted: the replay still gives it exactly if it takes nothing back. */
  lemma SkippedPromotionIff(s: State, repo: Repo, changes: seq<PackageChange>, timestamp: nat)
    requires IsBuildSound(s) && IsRepoDiff(s.repo, repo, changes)
    ensures ReplayAll(s.recorded + [Batch(changes, repo, timestamp)]) == repo <==> !Undoes(s.pending, changes)
  {
    var recorded := s.recorded + [Batch(changes, repo, timestamp)];
    assert recorded[..|recorded| - 1] == s.recorded;
    var replay := Replay(Latest(s), repo, changes);
    if Undoes(s.pending, changes) {
      var c :| c in s.pending.value.changes && !Lists(changes, c.name);
      ReplayAt(Latest(s), repo, changes, c.name);
      DiffCoversChanges(s.repo, repo, changes, c.name);
      assert PackageChange(c.name, if c.action == Update then Update else Delete) in s.pending.value.changes;
      assert !AgreeOn(replay, repo, c.name);
    } else {
      forall n ensures AgreeOn(replay, repo, n) {
        ReplayAt(Latest(s), repo, changes, n);
        if c :| c in changes && c.name == n {
          assert PackageChange(n, if c.action == Update then Update else Delete) in changes;
        } else {
          UnlistedAgrees(s, repo, changes, n);
        }
      }
      SameRepo(replay, repo);
    }
  }

  lemma RecordKeepsTable(s: State, repo: Repo, changes: seq<PackageChange>, timestamp: nat)
    requires IsTableSound(s.rows, s.inserted, s.nextId, s.cutoff) && IsEnabled(s, Record(repo, changes, timestamp))
    ensures var e := Next(s, Record(repo, changes, timestamp));
            IsTableSound(e.rows, e.inserted, e.nextId, e.cutoff)
  {
    RowsForShape(changes, timestamp, s.nextId);
  }

  lemma RecordKeepsTruth(s: State, repo: Repo, changes: seq<PackageChange>, timestamp: nat)
    requires IsTableSound(s.rows, s.inserted, s.nextId, s.cutoff)
    requires AreRowsTruthful(s.rows, Latest(s)) && IsBuildSound(s)
    requires IsRepoDiff(s.repo, repo, changes) && !Undoes(s.pending, changes)
    ensures AreRowsTruthful(s.rows + RowsFor(changes, timestamp, s.nextId), repo)
  {
    var added := RowsFor(changes, timestamp, s.nextId);
    RowsForShape(changes, timestamp, s.nextId);
    forall row | IsNewest(s.rows + added, row) ensures row.action == Update <==> row.name in repo {
      if row in added {
        AddedIsTruthful(s.repo, repo, changes, added, row);
      } else {
        NewestStays(s.rows, added, changes, row);
        UnlistedAgrees(s, repo, changes, row.name);
      }
    }
  }

  lemma AddedIsTruthful(before: Repo, repo: Repo, changes: seq<PackageChange>, added: seq<ChangeRow>, row: ChangeRow)
    requires IsRepoDiff(before, repo, changes) && row in added && |added| == |changes|
    requires forall k :: 0 <= k < |changes| ==> added[k].name == changes[k].name && added[k].action == changes[k].action
    ensures row.action == Update <==> row.name in repo
  {
    var k :| 0 <= k < |added| && added[k] == row;
    assert PackageChange(row.name, if row.action == Update then Update else Delete) in changes by {
      assert changes[k] in changes;
    }
  }

  lemma NewestStays(rows: seq<ChangeRow>, added: seq<ChangeRow>, changes: seq<PackageChange>, row: ChangeRow)
    requires IsNewest(rows + added, row) && row !in added && |added| == |changes|
    requires forall k :: 0 <= k < |changes| ==> added[k].name == changes[k].name
    requires forall q, r :: q in rows && r in added ==> q.id < r.id
    ensures IsNewest(rows, row) && !Lists(changes, row.name)
  {
    if c :| c in changes && c.name == row.name {
      var k :| 0 <= k < |changes| && changes[k] == c;
      assert added[k] in rows + added && added[k] in added;
    }
  }

  lemma RecordKeepsPending(s: State, repo: Repo, changes: seq<PackageChange>, timestamp: nat)
    requires IsEnabled(s, Record(repo, changes, timestamp))
    ensures IsPendingSound(s.repo, Batch(changes, repo, timestamp), Next(s, Record(repo, changes, timestamp)).inserted)
  {
    RowsForShape(changes, timestamp, s.nextId);
    forall c | c in changes
      ensures exists row :: row in Next(s, Record(repo, changes, timestamp)).inserted && row.name == c.name
                            && row.timestamp == timestamp
    {
      var row := RowForChange(changes, timestamp, s.nextId, c);
    }
  }

  lemma RecordKeepsDelta(s: State, repo: Repo, changes: seq<PackageChange>, timestamp: nat)
    requires IsEnabled(s, Record(repo, changes, timestamp)) && IsHarmless(s, Record(repo, changes, timestamp))
    requires IsAnswerSound(s) && IsBuildSound(s)
    ensures IsAnswerSound(Next(s, Record(repo, changes, timestamp)))
  {
    if s.poll.Answered? && s.poll.response.Delta? {
      var e := Next(s, Record(repo, changes, timestamp));
      var added := RowsFor(changes, timestamp, s.nextId);
      var r := s.poll.response;
      RowsForShape(changes, timestamp, s.nextId);
      assert forall row :: row in e.inserted && row.timestamp <= r.timestamp ==> row in s.inserted;
      forall a | a in ActionsOf(r)
        ensures HasNews(e.inserted, a.name, r.timestamp) || (a.action == Update <==> a.name in repo)
      {
        if c :| c in changes && c.name == a.name {
          var row := RowForChange(changes, timestamp, s.nextId, c);
          assert row in e.inserted;
        } else {
          UnlistedAgrees(s, repo, changes, a.name);
        }
      }
    }
  }

  lemma RecordKeepsFeed(s: State, repo: Repo, changes: seq<PackageChange>, timestamp: nat)
    requires IsFeedSound(s) && IsEnabled(s, Record(repo, changes, timestamp))
    ensures IsFeedSound(Next(s, Record(repo, changes, timestamp)))
  {
    RecordKeepsTable(s, repo, changes, timestamp);
    RowsForShape(changes, timestamp, s.nextId);
  }

  lemma RecordKeepsSound(s: State, repo: Repo, changes: seq<PackageChange>, timestamp: nat)
    requires IsSound(s) && IsEnabled(s, Record(repo, changes, timestamp)) && IsHarmless(s, Record(repo, changes, timestamp))
    ensures IsSound(Next(s, Record(repo, changes, timestamp)))
  {
    RecordKeepsFeed(s, repo, changes, timestamp);
    RecordKeepsTruth(s, repo, changes, timestamp);
    RecordKeepsPending(s, repo, changes, timestamp);
    RecordKeepsDelta(s, repo, changes, timestamp);
    SkippedPromotionIff(s, repo, changes, timestamp);
  }

  /**
   A commit after the poll: a build that takes no unpromoted change back reaches the
   client exactly if it finished after the client's timestamp, or serves what the
   build recorded before it does.
   */
  lemma RecordMirrorsIff(s: State, repo: Repo, changes: seq<PackageChange>, timestamp: nat)
    requires IsBuildSound(s) && IsMirror(s) && s.client.Some?
    requires IsEnabled(s, Record(repo, changes, timestamp)) && !Undoes(s.pending, changes)
    ensures IsMirror(Next(s, Record(repo, changes, timestamp))) <==> s.client.value.since < timestamp || repo == Latest(s)
    ensures changes == [] ==> repo == Latest(s)
  {
    var e := Next(s, Record(repo, changes, timestamp));
    var since := s.client.value.since;
    RowsForShape(changes, timestamp, s.nextId);
    if changes == [] {
      forall n ensures AgreeOn(Latest(s), repo, n) { UnlistedAgrees(s, repo, changes, n); }
      SameRepo(Latest(s), repo);
    }
    if since < timestamp || repo == Latest(s) {
      forall n ensures HasNews(e.inserted, n, since) || AgreeOn(e.client.value.view, repo, n) {
        if HasNews(s.inserted, n, since) {
          var row :| row in s.inserted && row.name == n && row.timestamp > since;
          assert row in e.inserted;
        } else if since < timestamp && Lists(changes, n) {
          var c :| c in changes && c.name == n;
          var row := RowForChange(changes, timestamp, s.nextId, c);
          assert row in e.inserted;
        } else if repo != Latest(s) {
          UnlistedAgrees(s, repo, changes, n);
        }
      }
    } else {
      assert forall row :: row in e.inserted ==> row.timestamp <= timestamp;
      if IsMirror(e) {
        forall n ensures AgreeOn(Latest(s), repo, n) {
          assert !HasNews(e.inserted, n, since) && !HasNews(s.inserted, n, since);
          assert AgreeOn(s.client.value.view, repo, n);
        }
        SameRepo(Latest(s), repo);
      }
    }
  }

  lemma LaterRowIsLater(rows: seq<ChangeRow>, row: ChangeRow, q: ChangeRow)
    requires IsOrdered(rows) && row in rows && q in rows && q.id > row.id
    ensures q.timestamp >= row.timestamp
  {
    var i :| 0 <= i < |rows| && rows[i] == row;
    var j :| 0 <= j < |rows| && rows[j] == q;
    assert j < i ==> rows[j].id < rows[i].id;
  }

  // ----- Cleanups -----

  lemma PruneKeepsTruth(rows: seq<ChangeRow>, repo: Repo, cutoff: int)
    requires IsOrdered(rows) && AreRowsTruthful(rows, repo)
    ensures AreRowsTruthful(Kept(rows, cutoff), repo)
  {
    KeptIsOrdered(rows, cutoff);
    forall row | IsNewest(Kept(rows, cutoff), row) ensures IsNewest(rows, row) {
      forall q | q in rows && q.name == row.name ensures q.id <= row.id {
        if q.id > row.id { LaterRowIsLater(rows, row, q); }
      }
    }
  }

  lemma PruneKeepsTable(s: State, now: nat)
    requires IsTableSound(s.rows, s.inserted, s.nextId, s.cutoff) && s.cutoff <= now - RETENTION
    ensures var e := Next(s, Prune(now)); IsTableSound(e.rows, e.inserted, e.nextId, e.cutoff)
  {
    KeptIsOrdered(s.rows, now - RETENTION);
  }

  lemma PruneKeepsFeed(s: State, now: nat)
    requires IsFeedSound(s) && IsEnabled(s, Prune(now))
    ensures IsFeedSound(Next(s, Prune(now)))
  {
    PruneKeepsTable(s, now);
    KeptIsOrdered(s.rows, now - RETENTION);
  }

  lemma PruneKeepsAnswer(s: State, now: nat)
    requires IsBuildSound(s) && IsAnswerSound(s)
    ensures IsBuildSound(Next(s, Prune(now))) && IsAnswerSound(Next(s, Prune(now)))
  {}

  lemma PruneKeepsSound(s: State, now: nat)
    requires IsSound(s) && IsEnabled(s, Prune(now))
    ensures IsSound(Next(s, Prune(now)))
  {
    PruneKeepsFeed(s, now);
    PruneKeepsTruth(s.rows, Latest(s), now - RETENTION);
    PruneKeepsAnswer(s, now);
  }

  // ----- The steps of a poll -----

  lemma LastIsLater(rows: seq<ChangeRow>)
    requires IsOrdered(rows) && rows != []
    ensures var k := |rows| - 1;
            forall row :: row in rows[..k] ==> row.id < rows[k].id && row.timestamp <= rows[k].timestamp
  {}

  lemma {:induction false} SelectedShape(rows: seq<ChangeRow>, since: nat, checkpoint: nat)
    requires IsOrdered(rows)
    ensures IsOrdered(Selected(rows, since, checkpoint))
    ensures forall row :: row in Selected(rows, since, checkpoint) <==> row in rows && since < row.timestamp <= checkpoint
  {
    SelectedRows(rows, since, checkpoint);
    if rows != [] {
      var k := |rows| - 1;
      var before := Selected(rows[..k], since, checkpoint);
      SelectedShape(rows[..k], since, checkpoint);
      LastIsLater(rows);
    }
  }

  /** The row query gives a sound delta, whatever happened since the floor test. */
  lemma ReadIsSound(s: State, r: Response)
    requires IsSound(s) && IsEnabled(s, Read(r))
    ensures IsDeltaSound(s.inserted, s.dropped, Latest(s), s.client.value.since, r)
  {
    var since, c := s.client.value.since, r.timestamp;
    var selected := Selected(s.rows, since, c);
    ByTimeFixed(s.rows);
    SelectedShape(s.rows, since, c);
    forall row | row in s.inserted && since < row.timestamp <= c && row !in s.dropped
      ensures ListsPackage(r.actions, row.name)
    {
      assert row in selected;
      var i := FindLastRow(selected, row.name);
      LastRowCounts(selected, i);
      assert LastActions(selected)[row.name] in r.actions;
    }
    forall a | a in r.actions
      ensures exists row :: row in s.inserted && row.name == a.name && since < row.timestamp <= c
      ensures HasNews(s.inserted, a.name, c) || (a.action == Update <==> a.name in Latest(s))
    {
      ActionsHaveRows(selected, a.name);
      var i := FindLastRow(selected, a.name);
      LastRowCounts(selected, i);
      assert selected[i] in selected;
      if !HasNews(s.inserted, a.name, c) { LastSelectedIsNewest(s.rows, selected, i, since, c); }
    }
  }

  lemma LastSelectedIsNewest(rows: seq<ChangeRow>, selected: seq<ChangeRow>, i: int, since: nat, checkpoint: nat)
    requires IsOrdered(rows) && selected == Selected(rows, since, checkpoint) && IsLastRow(selected, i)
    requires forall row :: row in rows && row.name == selected[i].name ==> row.timestamp <= checkpoint
    ensures IsNewest(rows, selected[i])
  {
    SelectedShape(rows, since, checkpoint);
    var row := selected[i];
    assert row in selected;
    forall q | q in rows && q.name == row.name ensures q.id <= row.id {
      if q.id > row.id {
        LaterRowIsLater(rows, row, q);
      }
    }
  }

  /** The view after a delta, package by package. */
  lemma FetchedAt(client: Client, repo: Repo, r: Response, n: string)
    requires r.Delta? && IsSorted(r.actions)
    ensures var view := Fetched(Some(client), repo, r).view;
            && (!ListsPackage(r.actions, n) ==> AgreeOn(view, client.view, n))
            && forall a :: a in r.actions && a.name == n ==>
                 if a.action == Update then AgreeOn(view, repo, n) else n !in view
  {
    var changes := ChangesOf(r.actions);
    forall i, j | 0 <= i < j < |changes| ensures changes[i].name != changes[j].name {
      LessTrichotomy(r.actions[i].name, r.actions[j].name);
    }
    ReplayAt(client.view, repo, changes, n);
    NewsIsReplayed(r.actions, n);
    forall a | a in r.actions && a.name == n
      ensures var view := Replay(client.view, repo, changes);
              if a.action == Update then AgreeOn(view, repo, n) else n !in view
    {
      assert PackageChange(n, a.action) in changes;
      if a.action == Delete && PackageChange(n, Update) in changes { DistinctActions(changes, n); }
    }
  }

  lemma DistinctActions(changes: seq<PackageChange>, n: string)
    requires AreDistinct(changes)
    ensures !(PackageChange(n, Update) in changes && PackageChange(n, Delete) in changes)
  {}

  lemma SameRepo(a: Repo, b: Repo)
    requires forall n :: AgreeOn(a, b, n)
    ensures a == b
  {
    forall n ensures n in a <==> n in b { assert AgreeOn(a, b, n); }
    forall n | n in a ensures a[n] == b[n] { assert AgreeOn(a, b, n); }
  }

  lemma NewsIsReplayed(actions: seq<ChangeAction>, n: string)
    ensures forall act :: PackageChange(n, act) in ChangesOf(actions) <==>
              exists a :: a in actions && a.name == n && a.action == act
  {
    forall a | a in actions ensures PackageChange(a.name, a.action) in ChangesOf(actions) {
      var i :| 0 <= i < |actions| && actions[i] == a;
      assert ChangesOf(actions)[i] == PackageChange(a.name, a.action);
    }
    forall act | PackageChange(n, act) in ChangesOf(actions)
      ensures exists a :: a in actions && a.name == n && a.action == act
    {
      var i :| 0 <= i < |actions| && ChangesOf(actions)[i] == PackageChange(n, act);
      assert actions[i] in actions;
    }
  }

  /**
   What a delta does to one package without later rows: a listed package ends as the
   recorded builds have it unless its update waits to be promoted, and any other
   package stays as it was.
   */
  lemma FetchAt(s: State, n: string)
    requires IsSound(s) && IsEnabled(s, Fetch) && s.poll.response.Delta? && !HasNews(s.inserted, n, s.poll.response.timestamp)
    ensures var view := Next(s, Fetch).client.value.view;
            var agrees := AgreeOn(view, Latest(s), n);
            if ListsPackage(s.poll.response.actions, n) then
              agrees <==> !(s.pending.Some? && PackageChange(n, Update) in s.pending.value.changes)
            else agrees <==> AgreeOn(s.client.value.view, Latest(s), n)
  {
    var r := s.poll.response;
    FetchedAt(s.client.value, s.repo, r, n);
    if a :| a in r.actions && a.name == n {
      assert a.action == Update <==> n in Latest(s);
      if s.pending.Some? {
        var b := s.pending.value;
        if PackageChange(n, Update) !in b.changes && PackageChange(n, Delete) !in b.changes {
          DiffCoversChanges(s.repo, b.repo, b.changes, n);
        }
      }
    }
  }

  /**
   If no cleanup removed a row of the delta, fetching it loses nothing exactly if no
   recorded but unpromoted update is in it.
   */
  lemma FetchMirrorsIff(s: State)
    requires IsSound(s) && IsMirror(s) && IsEnabled(s, Fetch) && s.poll.response.Delta?
    requires !SpansDroppedRow(s.dropped, s.client.value.since, s.poll.response.timestamp)
    ensures IsMirror(Next(s, Fetch)) <==> !SpansUnpromoted(s.pending, s.client.value.since, s.poll.response.timestamp)
  {
    var since, c := s.client.value.since, s.poll.response.timestamp;
    var view := Next(s, Fetch).client.value.view;
    if SpansUnpromoted(s.pending, since, c) {
      var n :| PackageChange(n, Update) in s.pending.value.changes;
      UnpromotedIsListed(s, n);
      FetchAt(s, n);
    } else {
      forall n | !HasNews(s.inserted, n, c) ensures AgreeOn(view, Latest(s), n) {
        FetchAt(s, n);
        if ListsPackage(s.poll.response.actions, n) {
          if s.pending.Some? && PackageChange(n, Update) in s.pending.value.changes { UnpromotedIsSpanned(s, n); }
        } else {
          assert !HasNews(s.inserted, n, since);
        }
      }
    }
  }

  lemma UnpromotedIsListed(s: State, n: string)
    requires IsSound(s) && IsEnabled(s, Fetch) && s.poll.response.Delta?
    requires !SpansDroppedRow(s.dropped, s.client.value.since, s.poll.response.timestamp)
    requires s.pending.Some? && PackageChange(n, Update) in s.pending.value.changes
    requires s.client.value.since < s.pending.value.timestamp <= s.poll.response.timestamp
    ensures ListsPackage(s.poll.response.actions, n) && !HasNews(s.inserted, n, s.poll.response.timestamp)
  {
    var c := PackageChange(n, Update);
    assert c in s.pending.value.changes;
    var row :| row in s.inserted && row.name == c.name && row.timestamp == s.pending.value.timestamp;
  }

  lemma UnpromotedIsSpanned(s: State, n: string)
    requires IsSound(s) && IsEnabled(s, Fetch) && s.poll.response.Delta?
    requires s.pending.Some? && PackageChange(n, Update) in s.pending.value.changes
    requires ListsPackage(s.poll.response.actions, n) && !HasNews(s.inserted, n, s.poll.response.timestamp)
    ensures SpansUnpromoted(s.pending, s.client.value.since, s.poll.response.timestamp)
  {
    var c := PackageChange(n, Update);
    assert c in s.pending.value.changes;
    var row :| row in s.inserted && row.name == c.name && row.timestamp == s.pending.value.timestamp;
  }

  ghost predicate ListsUpdate(actions: seq<ChangeAction>, n: string) {
    exists a :: a in actions && a.name == n && a.action == Update
  }

  /** The state when a build is recorded during a delta, and promoted or not before the fetch. */
  function Recorded(s: State, record: Step, promoted: bool): State {
    if promoted then Next(Next(s, record), Promote) else Next(s, record)
  }

  /**
   A build that is recorded while a delta is under way loses nothing exactly if it
   finished after the delta's checkpoint, or each of its packages is listed as updated
   and the build is promoted before the fetch, or is unlisted as such and the build
   recorded before it has the same.
   */
  lemma RecordDuringDeltaIff(
    s: State, repo: Repo, changes: seq<PackageChange>, timestamp: nat, promoted: bool)
    requires IsSound(s) && IsMirror(s) && IsEnabled(s, Fetch) && s.poll.response.Delta?
    requires IsEnabled(s, Record(repo, changes, timestamp)) && !Undoes(s.pending, changes)
    requires !SpansDroppedRow(s.dropped, s.client.value.since, s.poll.response.timestamp)
    ensures IsMirror(Next(Recorded(s, Record(repo, changes, timestamp), promoted), Fetch)) <==>
            s.poll.response.timestamp < timestamp ||
            forall c :: c in changes ==> EndsRight(s, repo, promoted, c.name)
  {
    var e := Next(Recorded(s, Record(repo, changes, timestamp), promoted), Fetch);
    var r := s.poll.response;
    forall n ensures (HasNews(e.inserted, n, r.timestamp) || AgreeOn(e.client.value.view, repo, n)) <==>
                     r.timestamp < timestamp || !Lists(changes, n) || EndsRight(s, repo, promoted, n)
    {
      RecordDuringDeltaAt(s, repo, changes, timestamp, promoted, n);
    }
    if c :| c in changes && !EndsRight(s, repo, promoted, c.name) {
      assert Lists(changes, c.name);
    }
  }

  /** What becomes of a changed package without later rows. */
  ghost predicate EndsRight(s: State, repo: Repo, promoted: bool, n: string) {
    s.poll.Answered? &&
    if ListsUpdate(ActionsOf(s.poll.response), n) then promoted else AgreeOn(Latest(s), repo, n)
  }

  lemma RecordDuringDeltaAt(
    s: State, repo: Repo, changes: seq<PackageChange>, timestamp: nat, promoted: bool, n: string)
    requires IsSound(s) && IsMirror(s) && IsEnabled(s, Fetch) && s.poll.response.Delta?
    requires IsEnabled(s, Record(repo, changes, timestamp)) && !Undoes(s.pending, changes)
    requires !SpansDroppedRow(s.dropped, s.client.value.since, s.poll.response.timestamp)
    ensures var r := s.poll.response;
            (HasNews(Next(s, Record(repo, changes, timestamp)).inserted, n, r.timestamp)
             || AgreeOn(Fetched(s.client, if promoted then repo else s.repo, r).view, repo, n)) <==>
            r.timestamp < timestamp || !Lists(changes, n) || EndsRight(s, repo, promoted, n)
  {
    var r := s.poll.response;
    NewsOfRecord(s, repo, changes, timestamp, n, r.timestamp);
    if !HasNews(s.inserted, n, r.timestamp) {
      WithoutNews(s, n);
      if Lists(changes, n) { ChangedAt(s, repo, changes, promoted, n); } else { UnchangedAt(s, repo, changes, promoted, n); }
    }
  }

  /** An action is the last word on its package, and without one the client holds the latest. */
  ghost predicate IsLastWord(s: State, n: string) {
    && s.poll.Answered? && s.poll.response.Delta? && s.client.Some? && IsSorted(s.poll.response.actions)
    && (forall a :: a in s.poll.response.actions && a.name == n ==> (a.action == Update <==> n in Latest(s)))
    && (!ListsPackage(s.poll.response.actions, n) ==> AgreeOn(s.client.value.view, Latest(s), n))
  }

  lemma ChangedAt(s: State, repo: Repo, changes: seq<PackageChange>, promoted: bool, n: string)
    requires IsLastWord(s, n) && IsRepoDiff(s.repo, repo, changes) && Lists(changes, n)
    ensures AgreeOn(Fetched(s.client, if promoted then repo else s.repo, s.poll.response).view, repo, n)
            <==> EndsRight(s, repo, promoted, n)
  {
    var c :| c in changes && c.name == n;
    assert PackageChange(n, if c.action == Update then Update else Delete) in changes;
    assert !AgreeOn(s.repo, repo, n);
    FetchedAt(s.client.value, if promoted then repo else s.repo, s.poll.response, n);
  }

  lemma UnchangedAt(s: State, repo: Repo, changes: seq<PackageChange>, promoted: bool, n: string)
    requires IsLastWord(s, n) && IsBuildSound(s) && IsRepoDiff(s.repo, repo, changes)
    requires !Lists(changes, n) && !Undoes(s.pending, changes)
    ensures AgreeOn(Fetched(s.client, if promoted then repo else s.repo, s.poll.response).view, repo, n)
  {
    UnlistedAgrees(s, repo, changes, n);
    NotChanged(s.repo, repo, changes, n);
    FetchedAt(s.client.value, if promoted then repo else s.repo, s.poll.response, n);
  }

  lemma NotChanged(before: Repo, after: Repo, changes: seq<PackageChange>, n: string)
    requires IsRepoDiff(before, after, changes) && !Lists(changes, n)
    ensures AgreeOn(before, after, n)
  {
    forall act ensures PackageChange(n, act) !in changes { assert PackageChange(n, act).name == n; }
    DiffCoversChanges(before, after, changes, n);
  }

  lemma WithoutNews(s: State, n: string)
    requires IsSound(s) && IsMirror(s) && IsEnabled(s, Fetch) && s.poll.response.Delta?
    requires !SpansDroppedRow(s.dropped, s.client.value.since, s.poll.response.timestamp)
    requires !HasNews(s.inserted, n, s.poll.response.timestamp)
    ensures IsLastWord(s, n)
  {
    if !ListsPackage(s.poll.response.actions, n) { assert !HasNews(s.inserted, n, s.client.value.since); }
  }

  /** Recording adds news of its packages. */
  lemma NewsOfRecord(s: State, repo: Repo, changes: seq<PackageChange>, timestamp: nat, n: string, since: nat)
    requires IsEnabled(s, Record(repo, changes, timestamp))
    ensures HasNews(Next(s, Record(repo, changes, timestamp)).inserted, n, since) <==>
            HasNews(s.inserted, n, since) || (Lists(changes, n) && since < timestamp)
    ensures HasNews(s.inserted, n, since) ==> since < timestamp
  {
    var e := Next(s, Record(repo, changes, timestamp));
    RowsForShape(changes, timestamp, s.nextId);
    if HasNews(s.inserted, n, since) {
      var row :| row in s.inserted && row.name == n && row.timestamp > since;
      assert row in e.inserted;
    }
    if c :| c in changes && c.name == n {
      var row := RowForChange(changes, timestamp, s.nextId, c);
      assert row in e.inserted;
    }
    if HasNews(e.inserted, n, since) && !HasNews(s.inserted, n, since) {
      var row :| row in e.inserted && row.name == n && row.timestamp > since;
      var k :| 0 <= k < |changes| && RowsFor(changes, timestamp, s.nextId)[k] == row;
      assert changes[k] in changes && changes[k].name == n;
    }
  }

  /**
   With dropped rows too: fetching a delta loses nothing exactly if it lists no
   unpromoted update as the last news of its package, and the client already holds the
   latest of every dropped package it neither lists nor has later news of.
   */
  lemma FetchMirrorsDroppedIff(s: State)
    requires IsSound(s) && IsMirror(s) && IsEnabled(s, Fetch) && s.poll.response.Delta?
    ensures IsMirror(Next(s, Fetch)) <==>
            (forall n :: IsLastListed(s, n) ==> !(s.pending.Some? && PackageChange(n, Update) in s.pending.value.changes)) &&
            (forall row :: IsLostRow(s, row) ==> AgreeOn(s.client.value.view, Latest(s), row.name))
  {
    var c := s.poll.response.timestamp;
    var view := Next(s, Fetch).client.value.view;
    forall n | !HasNews(s.inserted, n, c)
      ensures AgreeOn(view, Latest(s), n) <==>
              if ListsPackage(s.poll.response.actions, n) then
                !(s.pending.Some? && PackageChange(n, Update) in s.pending.value.changes)
              else AgreeOn(s.client.value.view, Latest(s), n)
    {
      FetchAt(s, n);
    }
    if forall row :: IsLostRow(s, row) ==> AgreeOn(s.client.value.view, Latest(s), row.name) {
      forall n | !HasNews(s.inserted, n, c) && !ListsPackage(s.poll.response.actions, n)
        ensures AgreeOn(s.client.value.view, Latest(s), n)
      {
        UnlistedIsLost(s, n);
      }
    }
  }

  /** The delta lists the package and there is no later row of it. */
  ghost predicate IsLastListed(s: State, n: string) {
    && s.poll.Answered? && ListsPackage(ActionsOf(s.poll.response), n)
    && !HasNews(s.inserted, n, s.poll.response.timestamp)
  }

  /** A dropped row that neither the delta nor a later row makes up for. */
  ghost predicate IsLostRow(s: State, row: ChangeRow) {
    && s.poll.Answered? && s.client.Some? && row in s.dropped
    && s.client.value.since < row.timestamp <= s.poll.response.timestamp
    && !ListsPackage(ActionsOf(s.poll.response), row.name) && !HasNews(s.inserted, row.name, s.poll.response.timestamp)
  }

  lemma UnlistedIsLost(s: State, n: string)
    requires IsSound(s) && IsMirror(s) && IsEnabled(s, Fetch) && s.poll.response.Delta?
    requires !HasNews(s.inserted, n, s.poll.response.timestamp) && !ListsPackage(s.poll.response.actions, n)
    requires forall row :: IsLostRow(s, row) ==> AgreeOn(s.client.value.view, Latest(s), row.name)
    ensures AgreeOn(s.client.value.view, Latest(s), n)
  {
    if HasNews(s.inserted, n, s.client.value.since) {
      var row :| row in s.inserted && row.name == n && row.timestamp > s.client.value.since;
      assert IsLostRow(s, row);
    }
  }

  /**
   Downloading everything loses nothing exactly if no recorded but unpromoted changes
   lie before the new timestamp.
   */
  lemma DownloadMirrorsIff(s: State)
    requires IsSound(s) && IsEnabled(s, Fetch) && !s.poll.response.Delta?
    ensures IsMirror(Next(s, Fetch)) <==>
              s.pending.None? || s.pending.value.changes == [] || s.poll.response.timestamp < s.pending.value.timestamp
  {
    var t := s.poll.response.timestamp;
    if s.pending.Some? {
      var b := s.pending.value;
      if t < b.timestamp || b.changes == [] {
        forall n ensures HasNews(s.inserted, n, t) || AgreeOn(s.repo, b.repo, n) {
          if c :| c in b.changes && c.name == n {
            assert exists row :: row in s.inserted && row.name == c.name && row.timestamp == b.timestamp;
          } else {
            DiffCoversChanges(s.repo, b.repo, b.changes, n);
          }
        }
      } else {
        var c := b.changes[0];
        assert PackageChange(c.name, if c.action == Update then Update else Delete) in b.changes;
        assert !AgreeOn(s.repo, b.repo, c.name) && !HasNews(s.inserted, c.name, t);
      }
    } else {
      assert forall n :: AgreeOn(s.repo, s.repo, n);
    }
  }

  // ----- Over runs -----

  lemma StepKeepsFeed(s: State, step: Step)
    requires IsFeedSound(s) && IsEnabled(s, step)
    ensures IsFeedSound(Next(s, step))
  {
    match step
    case Record(repo, changes, timestamp) => RecordKeepsFeed(s, repo, changes, timestamp);
    case Prune(now) => PruneKeepsFeed(s, now);
    case _ =>
  }

  lemma StepKeepsSound(s: State, step: Step)
    requires IsSound(s) && IsEnabled(s, step) && IsHarmless(s, step)
    ensures IsSound(Next(s, step))
  {
    StepKeepsFeed(s, step);
    match step
    case Record(repo, changes, timestamp) => RecordKeepsSound(s, repo, changes, timestamp);
    case Prune(now) => PruneKeepsSound(s, now);
    case Read(r) => ReadIsSound(s, r);
    case _ =>
  }

  lemma StepKeepsMirror(s: State, step: Step)
    requires IsSound(s) && IsMirror(s) && IsEnabled(s, step) && IsHarmless(s, step)
    ensures IsMirror(Next(s, step))
  {
    match step
    case Record(repo, changes, timestamp) => if s.client.Some? { RecordMirrorsIff(s, repo, changes, timestamp); }
    case Fetch => if s.poll.response.Delta? { FetchMirrorsIff(s); } else { DownloadMirrorsIff(s); }
    case _ =>
  }

  lemma {:induction false} RunKeepsFeed(s: State, steps: seq<Step>)
    requires IsFeedSound(s) && IsRun(s, steps)
    ensures IsFeedSound(Run(s, steps))
    decreases |steps|
  {
    if steps != [] {
      StepKeepsFeed(s, steps[0]);
      RunKeepsFeed(Next(s, steps[0]), steps[1..]);
    }
  }

  lemma {:induction false} RunKeepsMirror(s: State, steps: seq<Step>)
    requires IsSound(s) && IsMirror(s) && IsRun(s, steps) && AreHarmless(s, steps)
    ensures IsSound(Run(s, steps)) && IsMirror(Run(s, steps))
    decreases |steps|
  {
    if steps != [] {
      StepKeepsSound(s, steps[0]);
      StepKeepsMirror(s, steps[0]);
      RunKeepsMirror(Next(s, steps[0]), steps[1..]);
    }
  }

  /**
   Over every interleaving of harmless steps: wherever the client differs from what
   replaying every recorded change gives, a row later than its timestamp is recorded;
   with no such row at all, it holds exactly the replay.
   */
  lemma PollEqualsFullReplay(s: State, steps: seq<Step>)
    requires IsInitial(s) && IsRun(s, steps) && AreHarmless(s, steps) && Run(s, steps).client.Some?
    ensures var e := Run(s, steps);
            var client := e.client.value;
            && (forall n :: HasNews(e.inserted, n, client.since) || AgreeOn(client.view, ReplayAll(e.recorded), n))
            && ((forall row :: row in e.inserted ==> row.timestamp <= client.since) ==> client.view == ReplayAll(e.recorded))
  {
    RunKeepsMirror(s, steps);
    var e := Run(s, steps);
    if forall row :: row in e.inserted ==> row.timestamp <= e.client.value.since {
      forall n ensures AgreeOn(e.client.value.view, Latest(e), n) {
        assert !HasNews(e.inserted, n, e.client.value.since);
      }
      SameRepo(e.client.value.view, Latest(e));
    }
  }

  // ----- One whole poll -----

  /** The rows a query has not covered yet are later than the checkpoint it gave. */
  ghost predicate IsCovered(s: State) {
    match s.poll
    case Quiet => s.client.Some? && forall row :: row in s.inserted ==> row.timestamp <= s.client.value.since
    case Asked(_) => false
    case Checked(now, atMax) => forall row :: row in s.inserted ==> row.timestamp <= Checkpoint(atMax, now)
    case Answered(r) => forall row :: row in s.inserted ==> row.timestamp <= r.timestamp
  }

  /** The checkpoint is at or after every row recorded before it was read. */
  lemma CheckpointCoversRows(s: State)
    requires IsFeedSound(s) && s.poll.Asked? && s.cutoff <= s.poll.now
    ensures IsCovered(Next(s, Check))
  {
    MaxTimestampBounds(s.rows);
    if s.rows != [] {
      assert s.rows[0] in s.rows;
    }
  }

  lemma {:induction false} RunKeepsCovered(s: State, steps: seq<Step>)
    requires IsRun(s, steps) && IsCovered(s) && forall step :: step in steps ==> !step.Record? && !step.Ask?
    ensures IsCovered(Run(s, steps))
    decreases |steps|
  {
    if steps != [] {
      assert steps[0] in steps;
      RunKeepsCovered(Next(s, steps[0]), steps[1..]);
    }
  }

  /**
   A poll with no build recorded between its two queries and its end leaves the client
   with exactly the replay of every recorded build.
   */
  lemma PollWithoutBuildIsFullReplay(s: State, before: seq<Step>, after: seq<Step>)
    requires IsInitial(s) && IsRun(s, before) && AreHarmless(s, before)
    requires var asked := Run(s, before);
             && asked.poll.Asked? && asked.cutoff <= asked.poll.now
             && IsRun(Next(asked, Check), after) && AreHarmless(Next(asked, Check), after)
             && Run(Next(asked, Check), after).poll == Quiet
    requires forall step :: step in after ==> !step.Record? && !step.Ask?
    ensures var e := Run(Next(Run(s, before), Check), after);
            e.client.Some? && e.client.value.view == ReplayAll(e.recorded)
  {
    var asked := Run(s, before);
    RunKeepsMirror(s, before);
    CheckpointCoversRows(asked);
    StepKeepsSound(asked, Check);
    RunKeepsMirror(Next(asked, Check), after);
    RunKeepsCovered(Next(asked, Check), after);
    var e := Run(Next(asked, Check), after);
    forall n ensures AgreeOn(e.client.value.view, Latest(e), n) {
      assert !HasNews(e.inserted, n, e.client.value.since);
    }
    SameRepo(e.client.value.view, Latest(e));
  }

  // ----- Cleanups during a poll -----

  /**
   A delta spans no pruned row exactly if no cleanup since the floor test removed a row
   that it should have had; cleanups less than 24 hours after the client's timestamp
   never do. Builds recorded meanwhile make no difference.
   */
  lemma DeltaSpansNoPrunedRow(s: State, steps: seq<Step>, r: Response)
    requires IsInitial(s) && IsRun(s, steps) && IsEnabled(Run(s, steps), Read(r))
    ensures var e := Run(s, steps);
            var since := e.client.value.since;
            && ((forall row :: row in e.inserted && since < row.timestamp <= r.timestamp ==> row in e.rows)
                <==> !SpansDroppedRow(e.dropped, since, r.timestamp))
            && (e.cutoff <= since + 1 ==> !SpansDroppedRow(e.dropped, since, r.timestamp))
  {
    RunKeepsFeed(s, steps);
  }

  /** A checkpoint at or behind the client's own timestamp comes with no actions. */
  lemma BackwardCheckpointIsEmpty(atMax: seq<ChangeRow>, atRead: seq<ChangeRow>, since: nat, now: nat, r: Response)
    requires IsDeltaFor(atMax, atRead, since, now, r) && r.timestamp <= since
    ensures r.actions == []
  {
    var selected := Selected(ByTime(atRead), since, r.timestamp);
    SelectedRows(ByTime(atRead), since, r.timestamp);
    if r.actions != [] {
      assert r.actions[0] in r.actions;
      ActionsHaveRows(selected, r.actions[0].name);
    }
  }

  // ----- Runs that lose a change -----

  function Start(clock: nat): State {
    State(map[], None, [], 1, clock, None, Quiet, [], {}, clock - RETENTION, {})
  }

  lemma {:induction false} RunStep(s: State, steps: seq<Step>, step: Step)
    requires IsRun(s, steps) && IsEnabled(Run(s, steps), step)
    ensures IsRun(s, steps + [step]) && Run(s, steps + [step]) == Next(Run(s, steps), step)
    decreases |steps|
  {
    if steps != [] {
      RunStep(Next(s, steps[0]), steps[1..], step);
      assert (steps + [step])[1..] == steps[1..] + [step];
    } else {
      assert [step][1..] == [];
    }
  }

  /** A client's first poll, and its download of the empty repository. */
  lemma Join(t: nat)
    ensures IsRun(Start(t), [Ask(t), Fetch])
    ensures Run(Start(t), [Ask(t), Fetch]) == Start(t).(client := Some(Client(map[], t)))
  {
    RunStep(Start(t), [], Ask(t));
    RunStep(Start(t), [Ask(t)], Fetch);
    assert [] + [Ask(t)] == [Ask(t)] && [Ask(t)] + [Fetch] == [Ask(t), Fetch];
  }

  const NEW := "wp-plugin/a"

  function NewPackage(v: View, t: nat): Step {
    Record(map[NEW := v], [PackageChange(NEW, Update)], t)
  }

  /** Recording and promoting a package after the client joined. */
  lemma JoinAndRecord(v: View, t: nat, r: nat) returns (e: State)
    ensures var steps := [Ask(t), Fetch, NewPackage(v, r)];
            IsRun(Start(t), steps) && e == Run(Start(t), steps)
    ensures e.nextId == 2 && e.repo == map[]
    ensures e.rows == [ChangeRow(1, NEW, Update, r)] && e.inserted == {ChangeRow(1, NEW, Update, r)}
    ensures e.client == Some(Client(map[], t)) && e.poll == Quiet && e.clock == t && e.dropped == {}
    ensures e.pending == Some(Batch([PackageChange(NEW, Update)], map[NEW := v], r))
  {
    Join(t);
    RunStep(Start(t), [Ask(t), Fetch], NewPackage(v, r));
    assert [Ask(t), Fetch] + [NewPackage(v, r)] == [Ask(t), Fetch, NewPackage(v, r)];
    assert RowsFor([PackageChange(NEW, Update)], r, 1) == [ChangeRow(1, NEW, Update, r)];
    e := Run(Start(t), [Ask(t), Fetch, NewPackage(v, r)]);
  }

  /** A build that finished before the client joined, and records its changes afterwards, is lost. */
  lemma LateCommitIsLost(v: View)
    ensures var steps := [Ask(10), Fetch, NewPackage(v, 5)];
            IsRun(Start(10), steps) && !IsMirror(Run(Start(10), steps))
  {
    var e := JoinAndRecord(v, 10, 5);
    assert !AgreeOn(map[], Latest(e), NEW) && !HasNews(e.inserted, NEW, 10);
  }

  function Listed(): Response {
    Delta(20, [ChangeAction(Update, NEW, 0)])
  }

  /** The delta that lists the package. */
  lemma ListedIsDelta(row: ChangeRow, now: nat)
    requires row == ChangeRow(1, NEW, Update, 20)
    ensures IsDeltaFor([row], [row], 10, now, Listed())
  {
    ReadOneRow(row, 10, 20, now, [row]);
    assert LastActions([row][..0]) == map[];
  }

  /** What it does to a client while the old files are promoted. */
  lemma FetchUnpromoted()
    ensures Fetched(Some(Client(map[], 10)), map[], Listed()) == Client(map[], 20)
  {
    assert ChangesOf(Listed().actions) == [PackageChange(NEW, Update)];
    assert Replay(map[], map[], [PackageChange(NEW, Update)][..0]) == map[];
  }

  lemma PollUnpromoted(s: State, steps: seq<Step>, e: State)
    requires IsRun(s, steps) && e == Run(s, steps) && e.rows == [ChangeRow(1, NEW, Update, 20)] && e.repo == map[]
    requires e.client == Some(Client(map[], 10)) && e.poll == Quiet && e.clock == 10 && e.dropped == {}
    ensures var polled := steps + [Ask(30)] + [Check] + [Read(Listed())] + [Fetch];
            IsRun(s, polled) && Run(s, polled) == e.(clock := 30, client := Some(Client(map[], 20)))
  {
    RunStep(s, steps, Ask(30));
    RunStep(s, steps + [Ask(30)], Check);
    ListedIsDelta(e.rows[0], 30);
    RunStep(s, steps + [Ask(30)] + [Check], Read(Listed()));
    FetchUnpromoted();
    RunStep(s, steps + [Ask(30)] + [Check] + [Read(Listed())], Fetch);
  }

  /** An update polled between its recording and its promotion is lost: the client fetches the old files. */
  lemma UnpromotedPollIsLost(v: View)
    ensures var steps := [Ask(10), Fetch, NewPackage(v, 20), Ask(30), Check, Read(Listed()), Fetch, Promote];
            IsRun(Start(10), steps) && !IsMirror(Run(Start(10), steps))
  {
    var recorded := JoinAndRecord(v, 10, 20);
    var steps := [Ask(10), Fetch, NewPackage(v, 20)];
    PollUnpromoted(Start(10), steps, recorded);
    var polled := steps + [Ask(30)] + [Check] + [Read(Listed())] + [Fetch];
    RunStep(Start(10), polled, Promote);
    assert polled + [Promote] == [Ask(10), Fetch, NewPackage(v, 20), Ask(30), Check, Read(Listed()), Fetch, Promote];
    assert !AgreeOn(map[], map[NEW := v], NEW) && !HasNews(recorded.inserted, NEW, 20);
  }

  // A build recorded before the last one is promoted.

  const DELETED := [PackageChange(NEW, Delete)]

  /** The package is promoted, a build drops it, and before that is promoted another one has it back. */
  lemma RecordTwice(v: View) returns (steps: seq<Step>, e: State)
    ensures steps == [Ask(10), Fetch, NewPackage(v, 20)] + [Promote] + [Record(map[], DELETED, 30)]
                     + [Record(map[NEW := v], [], 40)] + [Promote]
    ensures IsRun(Start(10), steps) && e == Run(Start(10), steps)
    ensures e.repo == map[NEW := v] && e.pending == None && e.client == Some(Client(map[], 10)) && e.poll == Quiet
    ensures e.rows == [ChangeRow(1, NEW, Update, 20), ChangeRow(2, NEW, Delete, 30)] && e.clock == 10
    ensures forall row :: row in e.inserted ==> row.timestamp <= 30
  {
    var r := JoinAndRecord(v, 10, 20);
    steps := [Ask(10), Fetch, NewPackage(v, 20)];
    e := DropAndRestore(Start(10), steps, r, v);
    steps := steps + [Promote] + [Record(map[], DELETED, 30)] + [Record(map[NEW := v], [], 40)] + [Promote];
  }

  lemma DiffsOfDrop(repo: Repo)
    requires repo.Keys == {NEW}
    ensures IsRepoDiff(repo, map[], DELETED) && IsRepoDiff(repo, repo, []) && RowsFor([], 40, 3) == []
    ensures RowsFor(DELETED, 30, 2) == [ChangeRow(2, NEW, Delete, 30)]
  {
    assert DELETED[0] == PackageChange(NEW, Delete);
  }

  lemma DropAndRestore(s: State, steps: seq<Step>, r: State, v: View) returns (e: State)
    requires IsRun(s, steps) && r == Run(s, steps) && r.pending.Some? && r.pending.value.repo == map[NEW := v]
    requires r.nextId == 2 && r.inserted == {ChangeRow(1, NEW, Update, 20)} && r.rows == [ChangeRow(1, NEW, Update, 20)]
    requires r.pending.value.timestamp == 20
    ensures var more := steps + [Promote] + [Record(map[], DELETED, 30)] + [Record(map[NEW := v], [], 40)] + [Promote];
            IsRun(s, more) && e == Run(s, more)
    ensures e.repo == map[NEW := v] && e.pending == None && e.client == r.client && e.poll == r.poll && e.clock == r.clock
    ensures e.rows == [ChangeRow(1, NEW, Update, 20), ChangeRow(2, NEW, Delete, 30)]
    ensures forall row :: row in e.inserted ==> row.timestamp <= 30
  {
    DiffsOfDrop(map[NEW := v]);
    RunStep(s, steps, Promote);
    RunStep(s, steps + [Promote], Record(map[], DELETED, 30));
    RunStep(s, steps + [Promote] + [Record(map[], DELETED, 30)], Record(map[NEW := v], [], 40));
    var more := steps + [Promote] + [Record(map[], DELETED, 30)] + [Record(map[NEW := v], [], 40)];
    RunStep(s, more, Promote);
    e := Run(s, more + [Promote]);
  }

  function Dropping(): Response {
    Delta(30, [ChangeAction(Delete, NEW, 0)])
  }

  lemma DroppingIsDelta(rows: seq<ChangeRow>, now: nat)
    requires rows == [ChangeRow(1, NEW, Update, 20), ChangeRow(2, NEW, Delete, 30)]
    ensures IsDeltaFor(rows, rows, 10, now, Dropping())
  {
    ReadTwoRows(rows[0], rows[1], 10, now);
    OneAction(ActionOf(rows[1]));
    assert rows == [rows[0], rows[1]];
  }

  lemma OneAction(a: ChangeAction)
    ensures AreActionsOf(map[a.name := a], [a])
  {}

  /** What the two queries find of two rows of a package. */
  lemma ReadTwoRows(a: ChangeRow, b: ChangeRow, since: nat, now: nat)
    requires since < a.timestamp < b.timestamp && a.id < b.id && a.name == b.name
    ensures Checkpoint([a, b], now) == b.timestamp && Selected(ByTime([a, b]), since, b.timestamp) == [a, b]
    ensures LastActions([a, b]) == map[a.name := ActionOf(b)]
  {
    ByTimeFixed([a, b]);
    var rows := [a, b];
    assert rows[..1] == [a];
    LaterTimestamp(rows);
    BothSelected(rows, since, b.timestamp);
    LastOfTwo(rows);
  }

  lemma LaterTimestamp(rows: seq<ChangeRow>)
    requires |rows| == 2 && rows[0].timestamp < rows[1].timestamp
    ensures MaxTimestamp(rows) == rows[1].timestamp
  {
    MaxTimestampBounds(rows);
    assert rows[1] in rows;
  }

  lemma BothSelected(rows: seq<ChangeRow>, since: nat, checkpoint: nat)
    requires |rows| == 2 && since < rows[0].timestamp <= checkpoint && since < rows[1].timestamp <= checkpoint
    ensures Selected(rows, since, checkpoint) == rows
  {
    OneSelected(rows[..1], since, checkpoint);
    assert rows == rows[..1] + [rows[1]];
  }

  lemma OneSelected(rows: seq<ChangeRow>, since: nat, checkpoint: nat)
    requires |rows| == 1 && since < rows[0].timestamp <= checkpoint
    ensures Selected(rows, since, checkpoint) == rows
  {
    assert Selected(rows[..0], since, checkpoint) == [];
  }

  lemma LastOfTwo(rows: seq<ChangeRow>)
    requires |rows| == 2 && rows[0].name == rows[1].name
    ensures LastActions(rows) == map[rows[0].name := ActionOf(rows[1])]
  {
    LastOfOne(rows[..1]);
  }

  lemma LastOfOne(rows: seq<ChangeRow>)
    requires |rows| == 1
    ensures LastActions(rows) == map[rows[0].name := ActionOf(rows[0])]
  {
    assert LastActions(rows[..0]) == map[];
  }

  lemma PollDropping(s: State, steps: seq<Step>, e: State)
    requires IsRun(s, steps) && e == Run(s, steps) && e.client == Some(Client(map[], 10)) && e.poll == Quiet && e.clock == 10
    requires e.rows == [ChangeRow(1, NEW, Update, 20), ChangeRow(2, NEW, Delete, 30)] && e.pending == None
    ensures var polled := steps + [Ask(50)] + [Check] + [Read(Dropping())] + [Fetch];
            var f := Run(s, polled);
            && IsRun(s, polled) && f.client == Some(Client(map[], 30)) && Latest(f) == e.repo && f.inserted == e.inserted
  {
    RunStep(s, steps, Ask(50));
    RunStep(s, steps + [Ask(50)], Check);
    DroppingIsDelta(e.rows, 50);
    RunStep(s, steps + [Ask(50)] + [Check], Read(Dropping()));
    assert ChangesOf(Dropping().actions) == DELETED;
    assert Replay(map[], e.repo, DELETED[..0]) == map[];
    assert Replay(map[], e.repo, DELETED) == map[];
    RunStep(s, steps + [Ask(50)] + [Check] + [Read(Dropping())], Fetch);
  }

  /** A package dropped and taken back between two promotions is lost: the delta only says that it is gone. */
  lemma SkippedPromotionIsLost(v: View) returns (steps: seq<Step>)
    ensures steps == [Ask(10), Fetch, NewPackage(v, 20)] + [Promote] + [Record(map[], DELETED, 30)]
                     + [Record(map[NEW := v], [], 40)] + [Promote] + [Ask(50)] + [Check] + [Read(Dropping())] + [Fetch]
    ensures IsRun(Start(10), steps) && !IsMirror(Run(Start(10), steps))
  {
    var e;
    steps, e := RecordTwice(v);
    PollDropping(Start(10), steps, e);
    steps := steps + [Ask(50)] + [Check] + [Read(Dropping())] + [Fetch];
    assert !AgreeOn(map[], map[NEW := v], NEW) && !HasNews(e.inserted, NEW, 30);
  }

  /** The poll up to its second query, with the cleanup. */
  lemma CheckBeforeCleanup(s: State, steps: seq<Step>, e: State, t: nat)
    requires IsRun(s, steps) && e == Run(s, steps) && e.rows == [ChangeRow(1, NEW, Update, t + 1)] && e.pending.Some?
    requires e.client == Some(Client(map[], t)) && e.poll == Quiet && e.clock == t == RETENTION
    ensures var checked := steps + [Promote] + [Ask(2 * t)] + [Check] + [Prune(2 * t + 2)];
            var f := Run(s, checked);
            && IsRun(s, checked) && f.client == e.client && f.rows == [] && f.poll == Checked(2 * t, e.rows)
            && Latest(f) == e.pending.value.repo && f.inserted == e.inserted
  {
    RunStep(s, steps, Promote);
    RunStep(s, steps + [Promote], Ask(2 * t));
    RunStep(s, steps + [Promote] + [Ask(2 * t)], Check);
    RunStep(s, steps + [Promote] + [Ask(2 * t)] + [Check], Prune(2 * t + 2));
    assert Kept(e.rows, t + 2) == [];
  }

  lemma ReadNothing(s: State, steps: seq<Step>, e: State, row: ChangeRow, t: nat)
    requires IsRun(s, steps) && e == Run(s, steps) && row.timestamp == t + 1 && e.rows == []
    requires e.client == Some(Client(map[], t)) && e.poll == Checked(2 * t, [row])
    ensures var polled := steps + [Read(Delta(t + 1, []))] + [Fetch];
            var f := Run(s, polled);
            && IsRun(s, polled) && f.client == Some(Client(map[], t + 1))
            && Latest(f) == Latest(e) && f.inserted == e.inserted
  {
    ReadOneRow(row, t, t + 1, 2 * t, []);
    RunStep(s, steps, Read(Delta(t + 1, [])));
    assert ChangesOf([]) == [];
    RunStep(s, steps + [Read(Delta(t + 1, []))], Fetch);
  }

  /** A cleanup between the two queries takes away a package the client asked for in time. */
  lemma CleanupBetweenQueriesIsLost(v: View)
    ensures var t := RETENTION;
            var steps := [Ask(t), Fetch, NewPackage(v, t + 1), Promote, Ask(2 * t), Check, Prune(2 * t + 2),
                          Read(Delta(t + 1, [])), Fetch];
            IsRun(Start(t), steps) && !IsMirror(Run(Start(t), steps))
  {
    var t := RETENTION;
    var recorded := JoinAndRecord(v, t, t + 1);
    var steps := [Ask(t), Fetch, NewPackage(v, t + 1)];
    CheckBeforeCleanup(Start(t), steps, recorded, t);
    var checked := steps + [Promote] + [Ask(2 * t)] + [Check] + [Prune(2 * t + 2)];
    ReadNothing(Start(t), checked, Run(Start(t), checked), ChangeRow(1, NEW, Update, t + 1), t);
    assert steps + [Promote] + [Ask(2 * t)] + [Check] + [Prune(2 * t + 2)] + [Read(Delta(t + 1, []))] + [Fetch]
        == [Ask(t), Fetch, NewPackage(v, t + 1), Promote, Ask(2 * t), Check, Prune(2 * t + 2), Read(Delta(t + 1, [])), Fetch];
    assert !AgreeOn(map[], map[NEW := v], NEW) && !HasNews(recorded.inserted, NEW, t + 1);
  }

  /** What the two queries find of one row. */
  lemma ReadOneRow(row: ChangeRow, since: nat, checkpoint: nat, now: nat, atRead: seq<ChangeRow>)
    requires since < row.timestamp == checkpoint && atRead in {[], [row]}
    ensures Checkpoint([row], now) == checkpoint && Selected(ByTime(atRead), since, checkpoint) == atRead
  {
    assert MaxTimestamp([row][..0]) == 0;
    ByTimeFixed(atRead);
    assert Selected([row][..0], since, checkpoint) == [];
  }

  // ----- From builds to repositories -----

  /** What a build serves for each package. */
  ghost function Served(files: FileMap): Repo {
    map n | n in NamesIn(files) && ViewOf(files, n) != NOTHING && !HasSuffix(n, DEV) :: ViewOf(files, n)
  }

  lemma ServedHolds(rows: seq<BuildRow>, n: string)
    requires IsRowList(rows)
    ensures n in Served(BuildFiles(rows)) <==> !HasSuffix(n, DEV) && ViewOf(BuildFiles(rows), n) != NOTHING
  {
    NamesOfBuild(BuildFiles(rows), n);
  }

  /** The changes a full build records are the exact difference of what the two builds serve. */
  lemma BuildDiffIsRepoDiff(before: seq<BuildRow>, rows: seq<BuildRow>, changes: seq<PackageChange>)
    requires IsRowList(before) && IsRowList(rows) && IsDiff(BuildFiles(before), BuildFiles(rows), changes)
    ensures IsRepoDiff(Served(BuildFiles(before)), Served(BuildFiles(rows)), changes)
  {
    forall n
      ensures n in Served(BuildFiles(before)) <==> !HasSuffix(n, DEV) && ViewOf(BuildFiles(before), n) != NOTHING
      ensures n in Served(BuildFiles(rows)) <==> !HasSuffix(n, DEV) && ViewOf(BuildFiles(rows), n) != NOTHING
    {
      ServedHolds(before, n);
      ServedHolds(rows, n);
    }
  }
}
