/**
 The metadata changes feed: the table of recorded changes, its 24-hour cleanup, the
 answer to a poll, and a client that mirrors the repository from it.
 */
module ChangesFeed {
  import opened Text
  import opened Serialize
  import opened Builder

  /** A row of metadata_changes; timestamps are Unix milliseconds. */
  datatype ChangeRow = ChangeRow(id: nat, name: string, action: Action, timestamp: nat)

  datatype ChangeAction = ChangeAction(action: Action, name: string, time: nat)

  /** Invalid asks for a "since"; Resync tells the client to start over. */
  datatype Response =
    | Invalid(timestamp: nat)
    | Resync(timestamp: nat, time: nat)
    | Delta(timestamp: nat, actions: seq<ChangeAction>)

  const RETENTION := 24 * 60 * 60 * 1000

  /** Rows in insertion order. */
  ghost predicate IsInserted(rows: seq<ChangeRow>) {
    forall i, j :: 0 <= i < j < |rows| ==> rows[i].id < rows[j].id
  }

  /** Later rows do not have earlier timestamps either. */
  ghost predicate IsOrdered(rows: seq<ChangeRow>) {
    forall i, j :: 0 <= i < j < |rows| ==> rows[i].id < rows[j].id && rows[i].timestamp <= rows[j].timestamp
  }

  /** By timestamp, then by id. */
  ghost predicate IsByTime(rows: seq<ChangeRow>) {
    forall i, j :: 0 <= i < j < |rows| ==>
      rows[i].timestamp < rows[j].timestamp || (rows[i].timestamp == rows[j].timestamp && rows[i].id < rows[j].id)
  }

  function InsertByTime(rows: seq<ChangeRow>, row: ChangeRow): seq<ChangeRow> {
    if rows == [] || rows[|rows| - 1].timestamp <= row.timestamp then rows + [row]
    else InsertByTime(rows[..|rows| - 1], row) + [rows[|rows| - 1]]
  }

  /** The rows as a query orders them; ids break ties. */
  function ByTime(rows: seq<ChangeRow>): seq<ChangeRow> {
    if rows == [] then [] else InsertByTime(ByTime(rows[..|rows| - 1]), rows[|rows| - 1])
  }

  lemma EarlierThanLast(rows: seq<ChangeRow>)
    requires IsByTime(rows) && rows != []
    ensures var k := |rows| - 1;
            forall q :: q in rows[..k] ==>
              q.timestamp < rows[k].timestamp || (q.timestamp == rows[k].timestamp && q.id < rows[k].id)
  {}

  lemma AppendByTime(rows: seq<ChangeRow>, row: ChangeRow)
    requires IsByTime(rows)
    requires forall q :: q in rows ==> q.timestamp < row.timestamp || (q.timestamp == row.timestamp && q.id < row.id)
    ensures IsByTime(rows + [row]) && forall q :: q in rows + [row] <==> q in rows || q == row
  {}

  lemma {:induction false} InsertByTimeKeeps(rows: seq<ChangeRow>, row: ChangeRow)
    requires IsByTime(rows) && forall q :: q in rows ==> q.id < row.id
    ensures IsByTime(InsertByTime(rows, row))
    ensures forall q :: q in InsertByTime(rows, row) <==> q in rows || q == row
  {
    if rows == [] {
      assert rows + [row] == [row];
    } else {
      var k := |rows| - 1;
      EarlierThanLast(rows);
      assert rows == rows[..k] + [rows[k]];
      if rows[k].timestamp <= row.timestamp {
        AppendByTime(rows, row);
      } else {
        InsertByTimeKeeps(rows[..k], row);
        AppendByTime(InsertByTime(rows[..k], row), rows[k]);
      }
    }
  }

  /** The order of the query, and nothing lost or added. */
  lemma {:induction false} ByTimeShape(rows: seq<ChangeRow>)
    requires IsInserted(rows)
    ensures IsByTime(ByTime(rows)) && forall q :: q in ByTime(rows) <==> q in rows
  {
    if rows != [] {
      var k := |rows| - 1;
      assert rows == rows[..k] + [rows[k]];
      ByTimeShape(rows[..k]);
      InsertByTimeKeeps(ByTime(rows[..k]), rows[k]);
    }
  }

  lemma {:induction false} ByTimeFixed(rows: seq<ChangeRow>)
    requires IsOrdered(rows)
    ensures ByTime(rows) == rows
  {
    if rows != [] {
      var k := |rows| - 1;
      ByTimeFixed(rows[..k]);
      assert rows == rows[..k] + [rows[k]];
    }
  }

  // ----- Reading the table -----

  /** The greatest timestamp, 0 for an empty table. */
  function MaxTimestamp(rows: seq<ChangeRow>): nat {
    if rows == [] then 0
    else
      var m := MaxTimestamp(rows[..|rows| - 1]);
      if rows[|rows| - 1].timestamp > m then rows[|rows| - 1].timestamp else m
  }

  /** The rows after since, up to the checkpoint. */
  function Selected(rows: seq<ChangeRow>, since: nat, checkpoint: nat): seq<ChangeRow> {
    if rows == [] then []
    else
      var last := rows[|rows| - 1];
      Selected(rows[..|rows| - 1], since, checkpoint) + if since < last.timestamp <= checkpoint then [last] else []
  }

  function ActionOf(row: ChangeRow): ChangeAction {
    ChangeAction(row.action, row.name, row.timestamp / 1000)
  }

  /** The last row per package, as the loop over the rows leaves it. */
  function LastActions(rows: seq<ChangeRow>): map<string, ChangeAction> {
    if rows == [] then map[]
    else
      var last := rows[|rows| - 1];
      LastActions(rows[..|rows| - 1])[last.name := ActionOf(last)]
  }

  /** The i-th row is the last one of its package. */
  ghost predicate IsLastRow(rows: seq<ChangeRow>, i: int) {
    0 <= i < |rows| && forall j :: i < j < |rows| ==> rows[j].name != rows[i].name
  }

  /** The last row of a package decides its action. */
  lemma {:induction false} LastRowCounts(rows: seq<ChangeRow>, i: int)
    requires IsLastRow(rows, i)
    ensures rows[i].name in LastActions(rows) && LastActions(rows)[rows[i].name] == ActionOf(rows[i])
  {
    var k := |rows| - 1;
    if i < k {
      assert IsLastRow(rows[..k], i);
      LastRowCounts(rows[..k], i);
      assert rows[k].name != rows[i].name;
    }
  }

  lemma {:induction false} FindLastRow(rows: seq<ChangeRow>, n: string) returns (i: int)
    requires exists row :: row in rows && row.name == n
    ensures IsLastRow(rows, i) && rows[i].name == n
  {
    var k := |rows| - 1;
    if rows[k].name == n {
      i := k;
    } else {
      var row :| row in rows && row.name == n;
      assert rows == rows[..k] + [rows[k]];
      i := FindLastRow(rows[..k], n);
    }
  }

  lemma {:induction false} ActionsHaveRows(rows: seq<ChangeRow>, n: string)
    requires n in LastActions(rows)
    ensures exists row :: row in rows && row.name == n
  {
    var k := |rows| - 1;
    if rows[k].name != n { ActionsHaveRows(rows[..k], n); }
    assert rows[k] in rows;
  }

  /** Strictly increasing by package name. */
  ghost predicate IsSorted(actions: seq<ChangeAction>) {
    forall i, j :: 0 <= i < j < |actions| ==> Less(actions[i].name, actions[j].name)
  }

  /** The actions of a map, each package once. */
  ghost predicate AreActionsOf(seen: map<string, ChangeAction>, actions: seq<ChangeAction>) {
    && IsSorted(actions)
    && (forall a :: a in actions ==> a.name in seen && seen[a.name] == a)
    && forall n :: n in seen ==> seen[n] in actions
  }

  function Insert(actions: seq<ChangeAction>, a: ChangeAction): seq<ChangeAction> {
    if actions == [] || Less(a.name, actions[0].name) then [a] + actions
    else [actions[0]] + Insert(actions[1..], a)
  }

  lemma {:induction false} InsertKeepsOrder(actions: seq<ChangeAction>, a: ChangeAction)
    requires IsSorted(actions) && forall b :: b in actions ==> b.name != a.name
    ensures IsSorted(Insert(actions, a))
    ensures forall b :: b in Insert(actions, a) <==> b in actions || b == a
  {
    if actions != [] {
      if Less(a.name, actions[0].name) {
        forall j | 0 < j < |actions| ensures Less(a.name, actions[j].name) {
          LessTransitive(a.name, actions[0].name, actions[j].name);
        }
      } else {
        LessTrichotomy(a.name, actions[0].name);
        var rest := actions[1..];
        InsertKeepsOrder(rest, a);
        assert forall b :: b in Insert(rest, a) ==> b == a || b in rest;
        forall b | b in Insert(rest, a) ensures Less(actions[0].name, b.name) {
          if b != a {
            var j :| 0 <= j < |rest| && rest[j] == b;
            assert actions[j + 1] == b;
          }
        }
        assert actions == [actions[0]] + rest;
      }
    }
  }

  /** The table itself. */
  class ChangesTable {
    var rows: seq<ChangeRow>
    var nextId: nat

    constructor ()
      ensures rows == [] && nextId == 1
    {
      rows, nextId := [], 1;
    }

    ghost predicate Valid()
      reads this
    {
      IsInserted(rows) && forall row :: row in rows ==> row.id < nextId
    }

    /** Inserts one row per change of a build, all with the build's timestamp. */
    method PersistMetadataChanges(changes: seq<PackageChange>, timestamp: nat)
      requires Valid()
      modifies this
      ensures Valid()
      ensures rows == old(rows) + RowsFor(changes, timestamp, old(nextId))
    {
      for i := 0 to |changes|
        invariant nextId == old(nextId) + i
        invariant rows == old(rows) + RowsFor(changes[..i], timestamp, old(nextId))
      {
        assert changes[..i + 1][..i] == changes[..i];
        rows := rows + [ChangeRow(nextId, changes[i].name, changes[i].action, timestamp)];
        nextId := nextId + 1;
      }
      TakeAll(changes);
      RowsForShape(changes, timestamp, old(nextId));
    }

    /** Deletes the rows older than 24 hours. */
    method Cleanup(now: int)
      requires Valid()
      modifies this`rows
      ensures Valid() && rows == Kept(old(rows), now - RETENTION)
    {
      var table := rows;
      var kept: seq<ChangeRow> := [];
      for i := 0 to |table|
        invariant kept == Kept(table[..i], now - RETENTION)
      {
        assert table[..i + 1][..i] == table[..i];
        if table[i].timestamp >= now - RETENTION { kept := kept + [table[i]]; }
      }
      TakeAll(table);
      KeptIsInserted(table, now - RETENTION);
      rows := kept;
    }
  }

  /** The checkpoint: the greatest timestamp, or the time of the poll if the table is empty. */
  function Checkpoint(rows: seq<ChangeRow>, now: nat): nat {
    if MaxTimestamp(rows) == 0 then now else MaxTimestamp(rows)
  }

  /**
   The answer to a poll; since is None if the parameter is missing or no number. The two
   queries are separate: each finds the table as it is then.
   */
  method HandleMetadataChanges(since: Option<int>, now: nat, atMax: seq<ChangeRow>, atRead: seq<ChangeRow>)
    returns (r: Response)
    ensures since.None? || since.value < 0 ==> r == Invalid(now)
    ensures since.Some? && 0 <= since.value < now - RETENTION ==> r == Resync(now, now / 1000)
    ensures since.Some? && since.value >= 0 && since.value >= now - RETENTION ==>
              IsDeltaFor(atMax, atRead, since.value, now, r)
  {
    if since.None? || since.value < 0 { return Invalid(now); }
    if since.value < now - RETENTION { return Resync(now, now / 1000); }
    var checkpoint := MaxTimestamp(atMax);
    if checkpoint == 0 { checkpoint := now; }
    var selected := Selected(ByTime(atRead), since.value, checkpoint);
    var seen: map<string, ChangeAction> := map[];
    for i := 0 to |selected|
      invariant seen == LastActions(selected[..i])
    {
      assert selected[..i + 1][..i] == selected[..i];
      seen := seen[selected[i].name := ActionOf(selected[i])];
    }
    TakeAll(selected);
    NamesMatch(selected);
    var actions := SortByName(seen);
    return Delta(checkpoint, actions);
  }

  /** The actions of a map by package, sorted by name. */
  method SortByName(seen: map<string, ChangeAction>) returns (actions: seq<ChangeAction>)
    requires forall n :: n in seen ==> seen[n].name == n
    ensures AreActionsOf(seen, actions)
  {
    actions := [];
    var todo := seen.Keys;
    while todo != {}
      invariant todo <= seen.Keys && AreActionsOf(seen - todo, actions)
    {
      var n :| n in todo;
      WalkOn(seen, todo, n);
      InsertKeepsOrder(actions, seen[n]);
      actions := Insert(actions, seen[n]);
      todo := todo - {n};
    }
    assert seen - todo == seen;
  }

  function RowsFor(changes: seq<PackageChange>, timestamp: nat, id: nat): seq<ChangeRow> {
    if changes == [] then []
    else
      var k := |changes| - 1;
      RowsFor(changes[..k], timestamp, id) + [ChangeRow(id + k, changes[k].name, changes[k].action, timestamp)]
  }

  lemma {:induction false} RowsForShape(changes: seq<PackageChange>, timestamp: nat, id: nat)
    ensures var rows := RowsFor(changes, timestamp, id);
            |rows| == |changes| && forall k :: 0 <= k < |changes| ==>
              rows[k] == ChangeRow(id + k, changes[k].name, changes[k].action, timestamp)
  {
    if changes != [] { RowsForShape(changes[..|changes| - 1], timestamp, id); }
  }

  function Kept(rows: seq<ChangeRow>, cutoff: int): seq<ChangeRow> {
    if rows == [] then []
    else
      var last := rows[|rows| - 1];
      Kept(rows[..|rows| - 1], cutoff) + if last.timestamp >= cutoff then [last] else []
  }

  lemma {:induction false} KeptIsInserted(rows: seq<ChangeRow>, cutoff: int)
    requires IsInserted(rows)
    ensures IsInserted(Kept(rows, cutoff))
    ensures forall row :: row in Kept(rows, cutoff) <==> row in rows && row.timestamp >= cutoff
  {
    if rows != [] {
      var k := |rows| - 1;
      KeptIsInserted(rows[..k], cutoff);
      assert rows == rows[..k] + [rows[k]];
      forall row | row in Kept(rows[..k], cutoff) ensures row.id < rows[k].id {
        var i :| 0 <= i < k && rows[i] == row;
      }
    }
  }

  lemma {:induction false} KeptIsOrdered(rows: seq<ChangeRow>, cutoff: int)
    requires IsOrdered(rows)
    ensures IsOrdered(Kept(rows, cutoff))
    ensures forall row :: row in Kept(rows, cutoff) <==> row in rows && row.timestamp >= cutoff
  {
    if rows != [] {
      var k := |rows| - 1;
      KeptIsOrdered(rows[..k], cutoff);
      assert rows == rows[..k] + [rows[k]];
      forall row | row in Kept(rows[..k], cutoff) ensures row.id < rows[k].id && row.timestamp <= rows[k].timestamp {
        var i :| 0 <= i < k && rows[i] == row;
      }
    }
  }

  /** A delta: the checkpoint of the first query, and the last action per package of the second up to it. */
  ghost predicate IsDeltaFor(atMax: seq<ChangeRow>, atRead: seq<ChangeRow>, since: nat, now: nat, r: Response) {
    && r.Delta? && r.timestamp == Checkpoint(atMax, now)
    && AreActionsOf(LastActions(Selected(ByTime(atRead), since, r.timestamp)), r.actions)
  }

  lemma {:induction false} NamesMatch(rows: seq<ChangeRow>)
    ensures forall n :: n in LastActions(rows) ==> LastActions(rows)[n].name == n
  {
    if rows != [] { NamesMatch(rows[..|rows| - 1]); }
  }

  // ----- What a delta says -----

  /**
   The row counts for its package: of the package's rows after since and up to the
   checkpoint it is the last, by timestamp and id.
   */
  ghost predicate IsLatestRow(rows: seq<ChangeRow>, since: nat, checkpoint: nat, row: ChangeRow) {
    && row in rows && since < row.timestamp <= checkpoint
    && forall q :: q in rows && q.name == row.name && since < q.timestamp <= checkpoint && q != row ==>
         q.timestamp < row.timestamp || (q.timestamp == row.timestamp && q.id < row.id)
  }

  lemma {:induction false} SelectedRows(rows: seq<ChangeRow>, since: nat, checkpoint: nat)
    ensures forall row :: row in Selected(rows, since, checkpoint) <==> row in rows && since < row.timestamp <= checkpoint
  {
    if rows != [] {
      var k := |rows| - 1;
      SelectedRows(rows[..k], since, checkpoint);
      assert rows == rows[..k] + [rows[k]];
    }
  }

  lemma {:induction false} SelectedIsByTime(rows: seq<ChangeRow>, since: nat, checkpoint: nat)
    requires IsByTime(rows)
    ensures IsByTime(Selected(rows, since, checkpoint))
  {
    if rows != [] {
      var k := |rows| - 1;
      SelectedIsByTime(rows[..k], since, checkpoint);
      SelectedRows(rows[..k], since, checkpoint);
      EarlierThanLast(rows);
    }
  }

  lemma {:induction false} MaxTimestampBounds(rows: seq<ChangeRow>)
    ensures forall row :: row in rows ==> row.timestamp <= MaxTimestamp(rows)
    ensures MaxTimestamp(rows) == 0 || exists row :: row in rows && row.timestamp == MaxTimestamp(rows)
  {
    if rows != [] {
      var k := |rows| - 1;
      MaxTimestampBounds(rows[..k]);
      assert rows == rows[..k] + [rows[k]];
    }
  }

  lemma LastIsLatest(rows: seq<ChangeRow>, since: nat, checkpoint: nat, selected: seq<ChangeRow>, i: int)
    requires IsByTime(selected) && IsLastRow(selected, i)
    requires forall q :: q in selected <==> q in rows && since < q.timestamp <= checkpoint
    ensures IsLatestRow(rows, since, checkpoint, selected[i])
  {
    assert selected[i] in selected;
    forall q | q in rows && q.name == selected[i].name && since < q.timestamp <= checkpoint && q != selected[i]
      ensures q.timestamp < selected[i].timestamp || (q.timestamp == selected[i].timestamp && q.id < selected[i].id)
    {
      assert q in selected;
      var j :| 0 <= j < |selected| && selected[j] == q;
      assert j < i;
    }
  }

  lemma ActionsAreLatest(rows: seq<ChangeRow>, since: nat, checkpoint: nat, selected: seq<ChangeRow>, n: string)
    requires IsByTime(selected)
    requires forall q :: q in selected <==> q in rows && since < q.timestamp <= checkpoint
    ensures n in LastActions(selected) <==> exists row :: IsLatestRow(rows, since, checkpoint, row) && row.name == n
    ensures forall row :: IsLatestRow(rows, since, checkpoint, row) && row.name == n ==>
              n in LastActions(selected) && LastActions(selected)[n] == ChangeAction(row.action, n, row.timestamp / 1000)
  {
    if n in LastActions(selected) {
      ActionsHaveRows(selected, n);
      var i := FindLastRow(selected, n);
      LastIsLatest(rows, since, checkpoint, selected, i);
    }
    forall row | IsLatestRow(rows, since, checkpoint, row) && row.name == n
      ensures n in LastActions(selected) && LastActions(selected)[n] == ChangeAction(row.action, n, row.timestamp / 1000)
    {
      assert row in selected;
      var i := FindLastRow(selected, n);
      LastIsLatest(rows, since, checkpoint, selected, i);
      LastRowCounts(selected, i);
      assert selected[i] == row;
    }
  }

  /**
   What a delta says: its checkpoint is the greatest recorded timestamp, or now if there
   is none; and for each package with rows after since and up to the checkpoint, the
   action and the second of the last of them, once and by name.
   */
  lemma DeltaMeans(atMax: seq<ChangeRow>, atRead: seq<ChangeRow>, since: nat, now: nat, r: Response)
    requires IsInserted(atRead) && IsDeltaFor(atMax, atRead, since, now, r)
    ensures (forall q :: q in atMax ==> q.timestamp == 0) ==> r.timestamp == now
    ensures (exists q :: q in atMax && q.timestamp > 0) ==>
              (exists q :: q in atMax && q.timestamp == r.timestamp) && forall q :: q in atMax ==> q.timestamp <= r.timestamp
    ensures forall i, j :: 0 <= i < j < |r.actions| ==> Less(r.actions[i].name, r.actions[j].name)
    ensures forall a :: a in r.actions <==>
              exists row :: IsLatestRow(atRead, since, r.timestamp, row)
                && a == ChangeAction(row.action, row.name, row.timestamp / 1000)
  {
    MaxTimestampBounds(atMax);
    ByTimeShape(atRead);
    SelectedIsByTime(ByTime(atRead), since, r.timestamp);
    SelectedRows(ByTime(atRead), since, r.timestamp);
    var selected := Selected(ByTime(atRead), since, r.timestamp);
    NamesMatch(selected);
    forall a
      ensures a in r.actions <==>
              exists row :: IsLatestRow(atRead, since, r.timestamp, row)
                && a == ChangeAction(row.action, row.name, row.timestamp / 1000)
    {
      ActionsAreLatest(atRead, since, r.timestamp, selected, a.name);
    }
  }
}
