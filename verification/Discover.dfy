/**
 The commands that write published times, as they run against the database. Each one
 is shown to perform a run of the pipeline's steps, so everything proved about runs
 holds for it.
 */
module Discover {
  import opened Text
  import opened SvnLog
  import opened PublishedTimes
  import opened BackfillScan
  import opened Cooldown
  import opened CooldownSafety

  /** Where the process dies, if it does, while it handles a chunk. */
  datatype Death = Lives | BeforeReset | AfterReset | AfterMark

  datatype Outcome = Done | FetchFailed | Died

  /**
   The changelog endpoint as discover sees it: for the revisions after cursor up to
   last, the k-th request of the run gets an answer or fails.
   */
  type LogSource = (nat, nat, nat) -> Option<seq<LogItem>>

  /** Within the log limit, an answer holds every requested revision up to the replica's head. */
  ghost predicate IsLogSource(repo: seq<Commit>, source: LogSource) {
    forall cursor: nat, last: nat, k: nat :: cursor < last <= cursor + SVN_LOG_LIMIT && source(cursor, last, k).Some? ==>
      && (forall item :: item in source(cursor, last, k).value ==> IsLogItem(item))
      && IsSomeReport(repo, cursor, last, CommitsOf(source(cursor, last, k).value))
  }

  /** The replica has caught up with the listed head, and nothing goes wrong. */
  ghost predicate IsCaughtUp(repo: seq<Commit>, source: LogSource, dies: nat -> Death, head: nat) {
    && (forall k: nat :: dies(k) == Lives)
    && forall cursor: nat, last: nat, k: nat :: cursor < last <= head && last <= cursor + SVN_LOG_LIMIT ==>
         source(cursor, last, k).Some? && IsReport(repo, cursor, last, head, CommitsOf(source(cursor, last, k).value))
  }

  /** How a chunk ended: the loop goes on, is left with its cursor, or the process died. */
  datatype ChunkResult = GoOn(cursor: nat) | Leave(cursor: nat) | Dead

  /** The database of one package type, and how the world got to the state it is in. */
  class Site {
    const t: PackageType
    const table: PackageTable
    var watermark: nat
    ghost const origin: State
    ghost var history: seq<Step>
    ghost var world: State

    constructor (t: PackageType, table: PackageTable, ghost origin: State)
      requires IsInitial(origin) && origin.t == t && origin.rows == table.rows
      ensures Valid() && this.origin == origin && history == [] && this.t == t && this.table == table
    {
      this.t, this.table, this.watermark := t, table, 0;
      this.origin, this.history, this.world := origin, [], origin;
    }

    /** The world is in a state the pipeline can reach. */
    ghost predicate IsReached()
      reads this
    {
      IsInitial(origin) && IsRun(origin, history) && world == Run(origin, history) && world.t == t
    }

    /** Between commands the database and the world agree. */
    ghost predicate Valid()
      reads this, table
    {
      IsReached() && world.phase.Idle? && world.rows == table.rows && world.watermark == watermark
    }

    /** Takes one step of the world. */
    ghost method Do(step: Step)
      requires IsReached() && IsEnabled(world, step)
      modifies this`world, this`history
      ensures IsReached() && world == Next(old(world), step) && history == old(history) + [step]
      ensures old(world).watermark <= world.watermark <= Bound(world)
    {
      InitialInv(origin);
      RunKeepsInv(origin, history);
      RunAppend(origin, history, step);
      StepMovesWatermarkForward(world, step);
      KeepsType(world, step);
      history := history + [step];
      world := Next(world, step);
    }

    /** What does not change while a chunk is handled. */
    twostate predicate IsSameRun()
      reads this
    {
      && old(history) <= history
      && world.repo == old(world).repo && world.clock == old(world).clock && world.watermark == old(world).watermark
    }

    /** The process dies: only the database stays. */
    ghost method Die()
      requires IsReached()
      modifies this`world, this`history
      ensures IsReached() && IsSameRun() && world.rows == old(world).rows && world.phase == Idle
    {
      Do(Crash);
    }

    /** Parses the answer to a request. */
    method Receive(lastRev: nat, cursor: nat, head: nat, items: seq<LogItem>) returns (log: Log)
      requires IsReached() && world.phase == Scanning(lastRev, cursor, head) && cursor < head
      requires forall item :: item in items ==> IsLogItem(item)
      requires IsSomeReport(world.repo, cursor, ChunkEnd(cursor, head), CommitsOf(items))
      modifies this`world, this`history
      ensures IsReached() && IsSameRun() && world.rows == old(world).rows
      ensures world.phase == Answered(lastRev, cursor, head, log.commits)
      ensures log.maxRev == MaxRev(log.commits) <= ChunkEnd(cursor, head)
      ensures IsReport(old(world).repo, cursor, ChunkEnd(cursor, head), head, CommitsOf(items)) ==>
                log.maxRev == ChunkEnd(cursor, head)
    {
      log := ParseSvnLog(items);
      MaxRevOfLog(log);
      AnswerBounds(cursor, head, log.commits);
      ghost var replica: nat :| IsReport(world.repo, cursor, ChunkEnd(cursor, head), replica, log.commits);
      Do(Fetch(replica, log.commits));
    }

    lemma AnswerBounds(cursor: nat, head: nat, log: seq<Commit>)
      requires IsReached() && cursor < head
      requires IsSomeReport(world.repo, cursor, ChunkEnd(cursor, head), log)
      ensures MaxRev(log) <= ChunkEnd(cursor, head)
      ensures IsReport(world.repo, cursor, ChunkEnd(cursor, head), head, log) ==> MaxRev(log) == ChunkEnd(cursor, head)
    {
      InitialInv(origin);
      RunKeepsInv(origin, history);
      var replica: nat :| IsReport(world.repo, cursor, ChunkEnd(cursor, head), replica, log);
      ReportMax(world.repo, cursor, ChunkEnd(cursor, head), replica, log);
      if IsReport(world.repo, cursor, ChunkEnd(cursor, head), head, log) {
        ReportMax(world.repo, cursor, ChunkEnd(cursor, head), head, log);
      }
    }

    /** Resets the published times the answer calls for. */
    method ResetChunk(commits: seq<Commit>, now: Instant)
      requires IsReached() && world.phase.Answered? && world.phase.log == commits
      requires world.rows == table.rows && world.clock <= now
      modifies this`world, this`history, table
      ensures IsReached() && IsSameRun() && world.rows == table.rows
      ensures var p := old(world).phase; world.phase == Stamped(p.last, p.cursor, p.head, p.log)
    {
      var changes := TagChanges(t, commits);
      if changes.tags != map[] || changes.all != map[] {
        var reset := table.ResetPublishedTimes(changes, now);
      } else {
        NothingToReset(table.rows, changes, StampOf(now));
      }
      Do(Reset(changes, now));
    }

    /** One turn of the loop, given the answer to its request. */
    method ScanChunk(lastRev: nat, cursor: nat, head: nat, items: seq<LogItem>, now: Instant, dies: Death)
      returns (result: ChunkResult)
      requires IsReached() && world.phase == Scanning(lastRev, cursor, head) && cursor < head
      requires world.rows == table.rows && world.clock <= now
      requires forall item :: item in items ==> IsLogItem(item)
      requires IsSomeReport(world.repo, cursor, ChunkEnd(cursor, head), CommitsOf(items))
      modifies this`world, this`history, table
      ensures IsReached() && IsSameRun() && world.rows == table.rows
      ensures match result
              case GoOn(c) => world.phase == Scanning(lastRev, c, head) && cursor < c <= head
              case Leave(c) => world.phase == Leaving(lastRev, c)
              case Dead => world.phase == Idle
      ensures IsReport(old(world).repo, cursor, ChunkEnd(cursor, head), head, CommitsOf(items)) && dies == Lives ==>
                result == GoOn(ChunkEnd(cursor, head))
    {
      var log := Receive(lastRev, cursor, head, items);
      if dies == BeforeReset {
        Die();
        return Dead;
      }
      ResetChunk(log.commits, now);
      result := LeaveChunk(cursor, head, log.maxRev, dies);
    }

    /** The turn after the reset: marking, and where the loop goes on. */
    method LeaveChunk(cursor: nat, head: nat, maxRev: int, dies: Death) returns (result: ChunkResult)
      requires IsReached() && world.phase.Stamped? && world.phase.cursor == cursor < head == world.phase.head
      requires MaxRev(world.phase.log) == maxRev <= ChunkEnd(cursor, head)
      modifies this`world, this`history
      ensures IsReached() && IsSameRun() && world.rows == old(world).rows
      ensures match result
              case GoOn(c) => world.phase == Scanning(old(world).phase.last, c, head) && cursor < c <= head
              case Leave(c) => world.phase == Leaving(old(world).phase.last, c)
              case Dead => world.phase == Idle
      ensures maxRev == ChunkEnd(cursor, head) && dies != AfterReset && dies != AfterMark ==>
                result == GoOn(ChunkEnd(cursor, head))
    {
      if dies == AfterReset {
        Die();
        return Dead;
      }
      Do(MarkChanged);
      if dies == AfterMark {
        Die();
        return Dead;
      }
      if maxRev <= cursor { return Leave(cursor); }
      if maxRev < ChunkEnd(cursor, head) { return Leave(maxRev); }
      return GoOn(maxRev);
    }

    /** The loop over the chunks; gives how far it got. */
    method ScanForward(lastRev: nat, currentRev: nat, source: LogSource, now: nat -> Instant, dies: nat -> Death)
      returns (outcome: Outcome, cursor: nat)
      requires IsReached() && world.phase == Scanning(lastRev, lastRev, currentRev) && world.rows == table.rows
      requires IsLogSource(world.repo, source) && forall k: nat :: world.clock <= now(k)
      modifies this`world, this`history, table
      ensures IsReached() && old(history) <= history && world.rows == table.rows
      ensures old(world).watermark <= world.watermark <= Bound(world)
      ensures match outcome
              case Done => world.phase == Leaving(lastRev, cursor)
                           || (world.phase == Scanning(lastRev, cursor, currentRev) && cursor >= currentRev)
              case FetchFailed => world.phase == Idle && world.watermark == cursor
              case Died => world.phase == Idle && world.watermark == old(world).watermark
      ensures IsCaughtUp(old(world).repo, source, dies, currentRev) && lastRev <= currentRev ==>
                outcome == Done && cursor == currentRev
    {
      ghost var repo, clock, mark := world.repo, world.clock, world.watermark;
      WatermarkIsBounded();
      cursor := lastRev;
      var k := 0;
      while cursor < currentRev
        invariant IsReached() && old(history) <= history
        invariant world.phase == Scanning(lastRev, cursor, currentRev)
        invariant world.repo == repo && world.clock == clock && world.watermark == mark <= Bound(world)
        invariant world.rows == table.rows && (lastRev <= currentRev ==> cursor <= currentRev)
        decreases currentRev - cursor
      {
        var items := source(cursor, ChunkEnd(cursor, currentRev), k);
        if items.None? {
          Do(FetchFails);
          return FetchFailed, cursor;
        }
        var result := ScanChunk(lastRev, cursor, currentRev, items.value, now(k), dies(k));
        WatermarkIsBounded();
        if result.Dead? { return Died, cursor; }
        cursor := result.cursor;
        if result.Leave? { return Done, cursor; }
        k := k + 1;
      }
      return Done, cursor;
    }

    /**
     Scans forward from the watermark in chunks, resets and marks what changed, and
     stores how far it got. Every way through is a run of the pipeline: the watermark
     never decreases, no chunk exceeds the log limit, and if the replica has caught up
     one run reaches the listed head.
     */
    method MarkChangedFromSvnLog(currentRev: nat, source: LogSource, now: nat -> Instant, dies: nat -> Death)
      returns (outcome: Outcome)
      requires Valid() && 0 < currentRev <= |world.repo|
      requires IsLogSource(world.repo, source) && forall k: nat :: world.clock <= now(k)
      modifies this, table
      ensures Valid() && old(history) <= history
      ensures old(watermark) <= watermark <= Bound(world)
      ensures old(watermark) == 0 ==> watermark == currentRev
      ensures IsCaughtUp(old(world).repo, source, dies, currentRev) && old(watermark) <= currentRev ==>
                outcome == Done && watermark == currentRev
    {
      Do(StartDiscover(currentRev));
      if watermark == 0 {
        watermark := currentRev;
        return Done;
      }
      var cursor;
      outcome, cursor := ScanForward(watermark, currentRev, source, now, dies);
      if outcome == Died { return; }
      if outcome == Done { Do(StoreWatermark); }
      watermark := cursor;
    }

    /** Stores what the API lists for a package, with its published times carried forward. */
    method UpdatePackage(slug: string, versions: map<string, string>, now: Instant)
      requires Valid() && slug in table.rows && world.clock <= now
      modifies this`world, this`history, table
      ensures Valid() && history == old(history) + [Step.UpdatePackage(slug, versions, now)]
      ensures table.rows == old(table.rows)[slug := UpdatedRow(old(table.rows)[slug], versions, now)]
    {
      var row := table.rows[slug];
      var times := MergePublishedTimes(versions, row.versions, row.times, now);
      table.rows := table.rows[slug := Row(versions, times, row.closed)];
      Do(Step.UpdatePackage(slug, versions, now));
    }

    /**
     The one-off backfill: scans back from the listed head and fills in every package
     that has no times yet with those of its window. It fails, and changes nothing,
     exactly if the chunk size is out of range or a chunk it comes to cannot be fetched
     whole. What it stores is safe exactly if its listing shows what discover has
     processed; then it is a step of the pipeline.
     */
    method BackfillPublishedTimes(head: nat, report: Endpoint, chunkSize: int, since: Instant, now: Instant)
      returns (done: bool)
      requires Valid() && head <= |world.repo|
      requires IsEndpoint(world.repo, report) && AreDatesOrdered(world.repo[..head])
      modifies this`world, this`history, table
      ensures !done || SeesProcessed(old(world), head, since) ==> Valid() && old(history) <= history
      ensures done ==> (AreSafe(t, table.rows, CommitsAt(old(world).repo, old(world).stamped))
                        <==> SeesProcessed(old(world), head, since))
      ensures done <==> 1 <= chunkSize <= SVN_LOG_LIMIT && !Breaks(old(world).repo, report, head, chunkSize, since)
      ensures done ==> exists changes :: IsWindow(t, old(world).repo[..head], since, changes) &&
                                         table.rows == BackfilledRows(old(table.rows), changes, since)
      ensures !done ==> table.rows == old(table.rows)
    {
      IsRepositoryNow();
      if chunkSize <= 0 || chunkSize > SVN_LOG_LIMIT { return false; }
      var changes := ScanTagChangesSince(t, world.repo, report, head, chunkSize, since, now);
      if changes.None? { return false; }
      var affected := table.BackfillPublishedTimes(changes.value, since);
      BackfillSafety(head, since, changes.value);
      if SeesProcessed(world, head, since) { Do(Backfill(head, since, changes.value)); }
      return true;
    }

    lemma BackfillSafety(head: nat, since: Instant, changes: TagChangeSet)
      requires IsReached() && head <= |world.repo| && IsWindow(t, world.repo[..head], since, changes)
      ensures AreSafe(t, BackfilledRows(world.rows, changes, since), CommitsAt(world.repo, world.stamped))
              <==> SeesProcessed(world, head, since)
    {
      RunKeepsType(origin, history);
      BackfilledIsSafe(world, head, since, changes);
      BackfillIsSafeFromAnyListing(origin, history, head, since, changes);
    }

    lemma IsRepositoryNow()
      requires IsReached()
      ensures IsRepository(world.repo)
    {
      InitialInv(origin);
      RunKeepsInv(origin, history);
    }

    /** What the database stores is safe, whatever commands ran before. */
    lemma StoredTimesAreNeverEarly(slug: string)
      requires Valid() && slug in table.rows
      ensures IsSafeRow(t, slug, table.rows[slug], CommitsAt(world.repo, world.stamped))
    {
      StoredTimesAreSafe(origin, history);
    }

    lemma WatermarkIsBounded()
      requires IsReached()
      ensures world.watermark <= Bound(world)
    {
      InitialInv(origin);
      WatermarkProtocol(origin, history);
    }
  }

  lemma MaxRevOfLog(log: Log)
    requires IsLogOf(log.commits, log)
    ensures MaxRev(log.commits) == log.maxRev
  {
    if log.maxRev != 0 { MaxIs(Revisions(log.commits), log.maxRev); }
  }

  lemma NothingToReset(rows: map<string, Row>, changes: TagChangeSet, stamp: Stamp)
    requires changes.tags == map[] && changes.all == map[]
    ensures ResetRows(rows, changes, stamp) == rows
  {
    UntouchedRows(rows, changes, stamp);
  }
}
