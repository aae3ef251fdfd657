/**
 What a package's row holds after any run of the commands, read off the answers and
 marks of the run alone; and what one write or check does to each column.
 */
module RowHistory {
  import opened Text
  import opened SvnLog
  import opened PublishedTimes
  import opened Freshness

  // ----- What the steps say about a package -----

  /** The API has answered for the package: update with its row listed, or a status check. */
  predicate IsAnswered(step: Step, k: Key) {
    (step.UpdateOne? || step.CheckOne?) && step.key == k
  }

  predicate Closes(step: Step, k: Key) {
    IsAnswered(step, k) && step.response == ClosedForGood
  }

  /** Update deactivates what is not found; a status check only what it saw active. */
  predicate Deactivates(step: Step, k: Key) {
    Closes(step, k) || (IsAnswered(step, k) && step.response == NotFound && (step.CheckOne? ==> step.seenActive))
  }

  /** Update activates what it finds; a status check only what it saw inactive. */
  predicate Activates(step: Step, k: Key) {
    IsAnswered(step, k) && step.response.Fetched? && (step.CheckOne? ==> !step.seenActive)
  }

  predicate Stores(step: Step, k: Key) {
    step.UpdateOne? && step.key == k && step.response.Fetched?
  }

  /** The i-th step has the property for the package, and no later one. */
  ghost predicate IsLast(steps: seq<Step>, p: Step -> bool, i: int) {
    0 <= i < |steps| && p(steps[i]) && forall j :: i < j < |steps| ==> !p(steps[j])
  }

  /** The package was deactivated and not activated since. */
  ghost predicate IsInactive(steps: seq<Step>, k: Key) {
    exists i :: 0 <= i < |steps| && Deactivates(steps[i], k) && forall j :: i < j < |steps| ==> !Activates(steps[j], k)
  }

  ghost predicate IsClosed(steps: seq<Step>, k: Key) {
    exists i :: 0 <= i < |steps| && Closes(steps[i], k)
  }

  ghost predicate IsKnown(steps: seq<Step>, k: Key) {
    exists i :: 0 <= i < |steps| && steps[i].Shell? && steps[i].key == k
  }

  /** The versions of the last answer stored; none before the first. */
  ghost predicate AreVersions(steps: seq<Step>, k: Key, versions: map<string, string>) {
    || (versions == map[] && forall i :: 0 <= i < |steps| ==> !Stores(steps[i], k))
    || exists i :: IsLast(steps, s => Stores(s, k), i) && steps[i].response.versions == versions
  }

  /** The package is marked while it is active. */
  ghost predicate IsMarkedAt(steps: seq<Step>, k: Key, i: int) {
    0 <= i < |steps| && steps[i].Mark? && steps[i].key == k && !IsInactive(steps[..i], k)
  }

  /** The revision of the last mark that reached the package. */
  ghost predicate IsTrunk(steps: seq<Step>, k: Key, trunk: Option<int>) {
    || (trunk == None && forall i :: !IsMarkedAt(steps, k, i))
    || exists i ::
         IsMarkedAt(steps, k, i) && trunk == Some(steps[i].revision) && forall j :: i < j ==> !IsMarkedAt(steps, k, j)
  }

  // ----- Runs -----

  lemma {:induction false} RunInit(s: State, steps: seq<Step>)
    requires IsRun(s, steps) && steps != []
    ensures var n := |steps| - 1;
            && IsRun(s, steps[..n]) && IsEnabled(After(s, steps[..n]), steps[n])
            && After(s, steps) == Next(After(s, steps[..n]), steps[n])
    decreases |steps|
  {
    var n := |steps| - 1;
    if n > 0 {
      RunInit(Next(s, steps[0]), steps[1..]);
      assert steps[1..][..n - 1] == steps[..n][1..];
    }
  }

  lemma InactiveStepwise(steps: seq<Step>, k: Key)
    requires steps != []
    ensures var n := |steps| - 1;
            IsInactive(steps, k) <==> Deactivates(steps[n], k) || (IsInactive(steps[..n], k) && !Activates(steps[n], k))
  {
    var n := |steps| - 1;
    if i :| 0 <= i < n && Deactivates(steps[..n][i], k) && forall j :: i < j < n ==> !Activates(steps[..n][j], k) {
      assert Deactivates(steps[i], k);
      assert forall j :: i < j < n ==> !Activates(steps[j], k) by {
        forall j | i < j < n ensures !Activates(steps[j], k) { assert steps[..n][j] == steps[j]; }
      }
    }
    if i :| 0 <= i < |steps| && Deactivates(steps[i], k) && forall j :: i < j < |steps| ==> !Activates(steps[j], k) {
      if i < n { assert steps[..n][i] == steps[i]; }
    }
  }

  lemma ClosedStepwise(steps: seq<Step>, k: Key)
    requires steps != []
    ensures IsClosed(steps, k) <==> IsClosed(steps[..|steps| - 1], k) || Closes(steps[|steps| - 1], k)
  {
    var n := |steps| - 1;
    if i :| 0 <= i < |steps| && Closes(steps[i], k) {
      if i < n { assert steps[..n][i] == steps[i]; }
    }
  }

  lemma KnownStepwise(steps: seq<Step>, k: Key)
    requires steps != []
    ensures var last := steps[|steps| - 1];
            IsKnown(steps, k) <==> IsKnown(steps[..|steps| - 1], k) || (last.Shell? && last.key == k)
  {
    var n := |steps| - 1;
    if i :| 0 <= i < |steps| && steps[i].Shell? && steps[i].key == k {
      if i < n { assert steps[..n][i] == steps[i]; }
    }
  }

  lemma VersionsStepwise(steps: seq<Step>, k: Key, versions: map<string, string>)
    requires steps != []
    requires var n := |steps| - 1;
             if Stores(steps[n], k) then versions == steps[n].response.versions else AreVersions(steps[..n], k, versions)
    ensures AreVersions(steps, k, versions)
  {
    var n := |steps| - 1;
    var p := s => Stores(s, k);
    if Stores(steps[n], k) {
      assert IsLast(steps, p, n);
    } else if i :| IsLast(steps[..n], p, i) && steps[..n][i].response.versions == versions {
      forall j | i < j < |steps| ensures !p(steps[j]) {
        if j < n { assert steps[..n][j] == steps[j]; }
      }
      assert IsLast(steps, p, i);
    } else {
      forall i | 0 <= i < |steps| ensures !Stores(steps[i], k) {
        if i < n { assert steps[..n][i] == steps[i]; }
      }
    }
  }

  lemma MarkedBefore(steps: seq<Step>, k: Key, i: int)
    requires steps != [] && i != |steps| - 1
    ensures IsMarkedAt(steps, k, i) <==> IsMarkedAt(steps[..|steps| - 1], k, i)
  {
    if 0 <= i < |steps| { assert steps[..|steps| - 1][..i] == steps[..i]; }
  }

  lemma TrunkStepwise(steps: seq<Step>, k: Key, trunk: Option<int>)
    requires steps != []
    requires var n := |steps| - 1;
             if IsMarkedAt(steps, k, n) then trunk == Some(steps[n].revision) else IsTrunk(steps[..n], k, trunk)
    ensures IsTrunk(steps, k, trunk)
  {
    var n := |steps| - 1;
    forall i | i != n ensures IsMarkedAt(steps, k, i) <==> IsMarkedAt(steps[..n], k, i) { MarkedBefore(steps, k, i); }
    if !IsMarkedAt(steps, k, n) {
      if i :| IsMarkedAt(steps[..n], k, i) && trunk == Some(steps[..n][i].revision)
              && forall j :: i < j ==> !IsMarkedAt(steps[..n], k, j) {
        assert IsMarkedAt(steps, k, i);
      }
    }
  }

  /** What a run leaves in a row. */
  ghost predicate IsRowAfter(steps: seq<Step>, k: Key, r: PackageRow) {
    && (r.active <==> !IsInactive(steps, k))
    && (r.closed <==> IsClosed(steps, k))
    && AreVersions(steps, k, r.versions)
    && IsTrunk(steps, k, r.trunk)
  }

  /** A package that is not known yet has no answers or marks. */
  ghost predicate IsUntouched(steps: seq<Step>, k: Key) {
    forall i :: 0 <= i < |steps| ==> !IsAnswered(steps[i], k) && !(steps[i].Mark? && steps[i].key == k)
  }

  lemma UntouchedRow(steps: seq<Step>, k: Key)
    requires IsUntouched(steps, k)
    ensures !IsInactive(steps, k) && !IsClosed(steps, k) && AreVersions(steps, k, map[]) && IsTrunk(steps, k, None)
  {}

  /** What one step does to one row, in the terms above. */
  lemma StepOnRow(s: State, step: Step, k: Key)
    requires IsEnabled(s, step) && k in s.rows
    ensures k in Next(s, step).rows
    ensures var r, e := s.rows[k], Next(s, step).rows[k];
            && (e.active <==> !Deactivates(step, k) && (r.active || Activates(step, k)))
            && (e.closed <==> r.closed || Closes(step, k))
            && e.versions == (if Stores(step, k) then step.response.versions else r.versions)
            && e.trunk == if step.Mark? && step.key == k && r.active then Some(step.revision) else r.trunk
  {}

  lemma NewRow(s: State, step: Step, k: Key)
    requires IsEnabled(s, step) && k !in s.rows
    ensures k in Next(s, step).rows <==> step.Shell? && step.key == k
    ensures k in Next(s, step).rows ==>
              var e := Next(s, step).rows[k]; e.active && !e.closed && e.versions == map[] && e.trunk == None
    ensures !IsAnswered(step, k) && !(step.Mark? && step.key == k)
  {}

  /**
   Over every run: a package is known exactly if discover has found it; it is inactive
   exactly if it was deactivated and not found again since, and closed exactly if the API
   has said so once; it has the versions of the last answer stored, and the revision of
   the last mark that reached it.
   */
  lemma {:induction false} RowsFollowAnswers(steps: seq<Step>, k: Key)
    requires IsRun(EMPTY, steps)
    ensures k in After(EMPTY, steps).rows <==> IsKnown(steps, k)
    ensures k in After(EMPTY, steps).rows ==> IsRowAfter(steps, k, After(EMPTY, steps).rows[k])
    ensures k !in After(EMPTY, steps).rows ==> IsUntouched(steps, k)
    decreases |steps|
  {
    if steps != [] {
      var n := |steps| - 1;
      RunInit(EMPTY, steps);
      RowsFollowAnswers(steps[..n], k);
      KnownStepwise(steps, k);
      var s := After(EMPTY, steps[..n]);
      if k in s.rows {
        StepOnRow(s, steps[n], k);
        RowAfterStep(steps, k, s.rows[k], Next(s, steps[n]).rows[k]);
      } else {
        NewRow(s, steps[n], k);
        UntouchedAfterStep(steps, k);
        UntouchedRow(steps, k);
      }
    }
  }

  lemma UntouchedAfterStep(steps: seq<Step>, k: Key)
    requires steps != [] && IsUntouched(steps[..|steps| - 1], k)
    requires !IsAnswered(steps[|steps| - 1], k) && !(steps[|steps| - 1].Mark? && steps[|steps| - 1].key == k)
    ensures IsUntouched(steps, k)
  {
    var n := |steps| - 1;
    forall i | 0 <= i < |steps| ensures !IsAnswered(steps[i], k) && !(steps[i].Mark? && steps[i].key == k) {
      if i < n { assert steps[..n][i] == steps[i]; }
    }
  }

  lemma RowAfterStep(steps: seq<Step>, k: Key, r: PackageRow, e: PackageRow)
    requires steps != [] && IsRowAfter(steps[..|steps| - 1], k, r)
    requires var step := steps[|steps| - 1];
             && (e.active <==> !Deactivates(step, k) && (r.active || Activates(step, k)))
             && (e.closed <==> r.closed || Closes(step, k))
             && e.versions == (if Stores(step, k) then step.response.versions else r.versions)
             && e.trunk == if step.Mark? && step.key == k && r.active then Some(step.revision) else r.trunk
    ensures IsRowAfter(steps, k, e)
  {
    InactiveStepwise(steps, k);
    ClosedStepwise(steps, k);
    VersionsStepwise(steps, k, e.versions);
    TrunkStepwise(steps, k, e.trunk);
  }

  // ----- Marking as steps -----

  /** One mark for every known package among the slugs, each with its revision. */
  ghost predicate AreMarksOf(
    rows: map<Key, PackageRow>, kind: PackageType, revisions: map<string, int>, now: Stamp, steps: seq<Step>)
  {
    && (forall i :: 0 <= i < |steps| ==>
          && steps[i].Mark? && steps[i].key.kind == kind && steps[i].key in rows && steps[i].now == now
          && steps[i].key.slug in revisions && steps[i].revision == revisions[steps[i].key.slug])
    && (forall i, j :: 0 <= i < j < |steps| ==> steps[i].key != steps[j].key)
    && forall slug :: slug in revisions && Key(kind, slug) in rows ==>
         Mark(Key(kind, slug), revisions[slug], now) in steps
  }

  /** The state after marking packages together. */
  function MarkedState(s: State, kind: PackageType, revisions: map<string, int>, now: Stamp): State {
    s.(rows := MarkedRows(s.rows, kind, revisions, now), dirty := s.dirty + MarkedKeys(s.rows, kind, revisions.Keys))
  }

  lemma MarkOneMore(
    s: State, kind: PackageType, revisions: map<string, int>, fewer: map<string, int>, slug: string, now: Stamp)
    requires slug in revisions && fewer == revisions - {slug}
    ensures var before, k := MarkedState(s, kind, fewer, now), Key(kind, slug);
            MarkedState(s, kind, revisions, now)
            == if k in s.rows then Next(before, Mark(k, revisions[slug], now)) else before
  {
    RowsOneMore(s.rows, kind, revisions, fewer, slug, now);
    KeysOneMore(s.rows, kind, revisions, fewer, slug, now);
    var before, k := MarkedState(s, kind, fewer, now), Key(kind, slug);
    assert k in before.rows <==> k in s.rows;
  }

  lemma RowsOneMore(
    rows: map<Key, PackageRow>, kind: PackageType, revisions: map<string, int>, fewer: map<string, int>, slug: string,
    now: Stamp)
    requires slug in revisions && fewer == revisions - {slug}
    ensures MarkedRows(rows, kind, revisions, now)
            == MarkedAt(MarkedRows(rows, kind, fewer, now), Key(kind, slug), revisions[slug], now)
  {
    assert fewer[slug := revisions[slug]] == revisions;
    MarkedGrow(rows, kind, fewer, slug, revisions[slug], now);
  }

  lemma KeysOneMore(
    rows: map<Key, PackageRow>, kind: PackageType, revisions: map<string, int>, fewer: map<string, int>, slug: string,
    now: Stamp)
    requires slug in revisions && fewer == revisions - {slug}
    ensures MarkedKeys(rows, kind, revisions.Keys)
            == MarkedKeys(rows, kind, fewer.Keys) + ActiveAt(MarkedRows(rows, kind, fewer, now), Key(kind, slug))
  {
    assert fewer.Keys + {slug} == revisions.Keys;
    MarkedKeysGrow(rows, kind, fewer, slug, now);
  }

  /** Marking packages together is marking them one by one. */
  lemma {:induction false} MarkingIsRun(s: State, kind: PackageType, revisions: map<string, int>, now: Stamp)
    returns (steps: seq<Step>)
    requires s.listed == map[]
    ensures AreMarksOf(s.rows, kind, revisions, now, steps) && IsRun(s, steps)
    ensures After(s, steps) == MarkedState(s, kind, revisions, now)
    decreases |revisions|
  {
    if revisions == map[] {
      steps := [];
      MarkedNone(s.rows, kind, now);
    } else {
      var slug :| slug in revisions;
      var fewer := revisions - {slug};
      assert |fewer.Keys| < |revisions.Keys| by { ProperSubsetIsSmaller(fewer.Keys, revisions.Keys); }
      steps := MarkingIsRun(s, kind, fewer, now);
      MarkOneMore(s, kind, revisions, fewer, slug, now);
      if Key(kind, slug) in s.rows {
        var step := Mark(Key(kind, slug), revisions[slug], now);
        RunStep(s, steps, step);
        OneMoreMark(s.rows, kind, revisions, fewer, slug, now, steps);
        steps := steps + [step];
      } else {
        SameMarks(s.rows, kind, revisions, fewer, slug, now, steps);
      }
    }
  }

  lemma SameMarks(
    rows: map<Key, PackageRow>, kind: PackageType, revisions: map<string, int>, fewer: map<string, int>, slug: string,
    now: Stamp, steps: seq<Step>)
    requires slug in revisions && fewer == revisions - {slug} && Key(kind, slug) !in rows
    requires AreMarksOf(rows, kind, fewer, now, steps)
    ensures AreMarksOf(rows, kind, revisions, now, steps)
  {
    forall other | other in revisions && Key(kind, other) in rows
      ensures Mark(Key(kind, other), revisions[other], now) in steps
    {
      assert other in fewer && Mark(Key(kind, other), fewer[other], now) in steps;
    }
  }

  lemma OneMoreMark(
    rows: map<Key, PackageRow>, kind: PackageType, revisions: map<string, int>, fewer: map<string, int>, slug: string,
    now: Stamp, steps: seq<Step>)
    requires slug in revisions && fewer == revisions - {slug} && Key(kind, slug) in rows
    requires AreMarksOf(rows, kind, fewer, now, steps)
    ensures AreMarksOf(rows, kind, revisions, now, steps + [Mark(Key(kind, slug), revisions[slug], now)])
  {
    var step := Mark(Key(kind, slug), revisions[slug], now);
    forall other | other in revisions && Key(kind, other) in rows
      ensures Mark(Key(kind, other), revisions[other], now) in steps + [step]
    {
      if other != slug { assert other in fewer && Mark(Key(kind, other), fewer[other], now) in steps; }
    }
  }

  // ----- Times -----

  /** The later of two times, either of which may be missing. */
  predicate IsLaterOf(a: Option<int>, b: Option<int>, later: Option<int>) {
    && (later == a || later == b)
    && (a.Some? ==> later.Some? && later.value >= a.value) && (b.Some? ==> later.Some? && later.value >= b.value)
  }

  /** Update is to fetch the package again: a release may still be on its way. */
  predicate IsRetried(kind: PackageType, listed: PackageRow, response: Response, now: Instant)
    requires response.Fetched?
  {
    && listed.committed.Some?
    && var age := now - listed.committed.value * 1_000_000_000;
       || (response.pendingStable && kind == Theme && age <= 7 * 24 * 3600 * 1_000_000_000)
       || ((response.pendingStable || response.versions == listed.versions) && age <= 24 * 3600 * 1_000_000_000)
  }

  /**
   What update does to the times of a row: the commit time never moves back; the sync
   time is now, in whole seconds, unless the package is to be fetched again, which
   leaves it as it was listed. Other answers leave both.
   */
  lemma UpdateTimes(kind: PackageType, r: PackageRow, listed: PackageRow, response: Response, now: Instant)
    ensures var e := UpdatedRow(kind, r, listed, response, now);
            if !response.Fetched? then e.committed == r.committed && e.synced == r.synced
            else
              && IsLaterOf(r.committed, response.updated, e.committed)
              && if IsRetried(kind, listed, response, now) then
                   e.synced == if listed.synced.Some? then listed.synced else r.synced
                 else
                   e.synced.Some? && e.synced.value * 1_000_000_000 <= now < (e.synced.value + 1) * 1_000_000_000
  {
    if response.Fetched? {
      DecisionMeans(response.versions, listed.versions, response.pendingStable, kind, listed.committed, now);
      StampIsSecond(now);
    }
  }

  /** A status check leaves the commit time, and forgets the sync time of what it activates. */
  lemma CheckTimes(r: PackageRow, seenActive: bool, response: Response)
    ensures var e := CheckedRow(r, seenActive, response);
            e.committed == r.committed && e.synced == if response.Fetched? && !seenActive then None else r.synced
  {}

  /** A mark sets the commit time of an active row to now, in whole seconds; discover's answers only move it forward. */
  lemma MarkTimes(r: PackageRow, revision: int, now: Instant, updated: Option<Stamp>)
    ensures var e := Marked(r, revision, StampOf(now));
            && e.synced == r.synced
            && if r.active then
                 e.committed.Some?
                 && e.committed.value * 1_000_000_000 <= now < (e.committed.value + 1) * 1_000_000_000
               else e.committed == r.committed
    ensures var e := Shelled(Some(r), updated);
            && e.synced == r.synced
            && if r.closed then e.committed == r.committed else IsLaterOf(r.committed, updated, e.committed)
    ensures Shelled(None, updated).committed == updated && Shelled(None, updated).synced == None
  {
    StampIsSecond(now);
  }

  // ----- Selection -----

  /**
   What the options select of a row they do not leave out by kind or names: a package
   asked for by name unless it is closed; with force every one that is not closed, the
   inactive ones on request; otherwise those with news since their last sync, and on
   request the inactive ones that were last synced more than 30 days ago by the day.
   */
  lemma SelectionMeans(k: Key, r: PackageRow, o: Options, now: Stamp)
    requires (o.kind.Some? ==> o.kind.value == k.kind) && (o.names != {} ==> k.slug in o.names)
    ensures r.closed || (o.name != "" && o.name != k.slug) ==> !IsSelected(k, r, o, now)
    ensures o.name == k.slug && o.name != "" && !r.closed ==> IsSelected(k, r, o, now)
    ensures o.name == "" && o.force && !r.closed ==> (IsSelected(k, r, o, now) <==> r.active || o.includeInactive)
    ensures o.name == "" && !o.force && !r.closed && (r.active || !o.includeInactive) ==>
              (IsSelected(k, r, o, now) <==>
               r.active && (r.synced.None? || (r.committed.Some? && r.synced.value < r.committed.value)))
    ensures o.name == "" && !o.force && !r.closed && !r.active && o.includeInactive ==>
              (IsSelected(k, r, o, now) <==>
               || r.synced.None? || (r.committed.Some? && r.synced.value < r.committed.value)
               || r.synced.value / 86400 < now / 86400 - 30)
  {}

  /** A kind and names only leave packages out. */
  lemma SelectionNarrows(k: Key, r: PackageRow, o: Options, now: Stamp)
    ensures IsSelected(k, r, o, now)
       <==> && IsSelected(k, r, o.(kind := None, names := {}), now)
            && (o.kind.Some? ==> o.kind.value == k.kind) && (o.names != {} ==> k.slug in o.names)
  {}
}
