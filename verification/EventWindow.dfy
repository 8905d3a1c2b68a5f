/** The window of events a view shows: row lists joined in a rope, which only a reader flattens. */
module EventWindow {
  import opened Options
  import opened Transcript

  datatype Rope = Leaf(entries: seq<Row>) | Concat(left: Rope, right: Rope)
  {
    function Rows(): seq<Row> {
      match this
      case Leaf(entries) => entries
      case Concat(left, right) => left.Rows() + right.Rows()
    }

    function Nodes(): nat {
      match this
      case Leaf(_) => 1
      case Concat(left, right) => 1 + left.Nodes() + right.Nodes()
    }
  }

  /** What a stack of ropes, last one first, still has to give. */
  function StackRows(stack: seq<Rope>): seq<Row> {
    if stack == [] then [] else stack[|stack| - 1].Rows() + StackRows(stack[..|stack| - 1])
  }

  function StackNodes(stack: seq<Rope>): nat {
    if stack == [] then 0 else stack[|stack| - 1].Nodes() + StackNodes(stack[..|stack| - 1])
  }

  /** Walk a rope with an explicit stack, filling one list of its length. */
  method Materialize(node: Rope) returns (rows: seq<Row>)
    ensures rows == node.Rows()
  {
    if node.Leaf? {
      return node.entries;
    }
    rows := [];
    var pending := [node];
    assert pending[..0] == [];
    while |pending| > 0
      invariant rows + StackRows(pending) == node.Rows()
      decreases StackNodes(pending)
    {
      var n := |pending| - 1;
      var current := pending[n];
      ghost var rest := pending[..n];
      match current {
        case Leaf(entries) =>
          pending := pending[..n];
          rows := rows + entries;
        case Concat(left, right) =>
          pending := pending[..n] + [right, left];
          StackPush(rest, right, left);
      }
    }
  }

  lemma StackPush(rest: seq<Rope>, right: Rope, left: Rope)
    ensures StackRows(rest + [right, left]) == left.Rows() + right.Rows() + StackRows(rest)
    ensures StackNodes(rest + [right, left]) == left.Nodes() + right.Nodes() + StackNodes(rest)
  {
    var two := rest + [right, left];
    var one := rest + [right];
    assert two[..|two| - 1] == one && one[..|one| - 1] == rest;
    assert left.Rows() + (right.Rows() + StackRows(rest)) == left.Rows() + right.Rows() + StackRows(rest);
  }

  /** The rows that are not transient rows of one attempt. */
  function WithoutAttempt(rows: seq<Row>, id: AttemptId): seq<Row> {
    if rows == [] then []
    else
      var n := |rows| - 1;
      var init := WithoutAttempt(rows[..n], id);
      if rows[n].Transient? && rows[n].attemptId == id then init else init + [rows[n]]
  }

  /** A row put before the first row behind it. */
  function Inserted(rows: seq<Row>, row: Row): seq<Row> {
    if rows == [] then [row]
    else if rows[0].Position() > row.Position() then [row] + rows
    else [rows[0]] + Inserted(rows[1..], row)
  }

  function Settled(rows: seq<Row>, id: AttemptId, settlement: Option<Event>): seq<Row> {
    match settlement
    case None => WithoutAttempt(rows, id)
    case Some(event) => Inserted(WithoutAttempt(rows, id), Durable(event))
  }

  datatype Change =
    | Replace(entries: seq<Row>)
    | Prepend(entries: seq<Row>)
    | Append(entries: seq<Row>)
    | SettleAssistant(attemptId: AttemptId, settlement: Option<Event>)

  /** A published window: what its rope holds never changes afterwards. */
  datatype Snapshot = Snapshot(node: Rope, hasMore: bool, revision: nat, change: Change)

  /** The window's owner; a change makes a new snapshot and leaves the old ones as they were. */
  class MutableSessionEventSource {
    var window: Rope
    var snapshot: Snapshot

    ghost function Rows(): seq<Row>
      reads this
    {
      window.Rows()
    }

    ghost predicate Valid()
      reads this
    {
      snapshot.node == window
    }

    constructor ()
      ensures Valid() && Rows() == [] && !snapshot.hasMore && snapshot.revision == 0
    {
      window := Leaf([]);
      snapshot := Snapshot(Leaf([]), false, 0, Change.Replace([]));
    }

    method PublishWindow(hasMore: bool, change: Change)
      modifies this`snapshot
      ensures Valid() && snapshot == Snapshot(window, hasMore, old(snapshot).revision + 1, change)
    {
      snapshot := Snapshot(window, hasMore, snapshot.revision + 1, change);
    }

    method ReplaceAll(entries: seq<Row>, hasMore: bool)
      requires Valid()
      modifies this
      ensures Valid() && Rows() == entries
      ensures snapshot == Snapshot(window, hasMore, old(snapshot).revision + 1, Change.Replace(entries))
    {
      window := Leaf(entries);
      PublishWindow(hasMore, Change.Replace(entries));
    }

    method PrependPage(entries: seq<Row>, hasMore: bool)
      requires Valid()
      modifies this
      ensures Valid() && Rows() == entries + old(Rows())
      ensures snapshot == Snapshot(window, hasMore, old(snapshot).revision + 1, Change.Prepend(entries))
    {
      assert Leaf(entries).Rows() == entries;
      window := Concat(Leaf(entries), window);
      PublishWindow(hasMore, Change.Prepend(entries));
    }

    method AppendRow(row: Row)
      requires Valid()
      modifies this
      ensures Valid() && Rows() == old(Rows()) + [row]
      ensures snapshot == Snapshot(window, old(snapshot).hasMore, old(snapshot).revision + 1, Change.Append([row]))
    {
      assert Leaf([row]).Rows() == [row];
      window := Concat(window, Leaf([row]));
      PublishWindow(snapshot.hasMore, Change.Append([row]));
    }

    /** Take the rows of one attempt out and put what settled it where its seq belongs. */
    method Settle(id: AttemptId, settlement: Option<Event>)
      requires Valid()
      modifies this
      ensures Valid() && Rows() == Settled(old(Rows()), id, settlement)
      ensures snapshot == Snapshot(window, old(snapshot).hasMore, old(snapshot).revision + 1,
              SettleAssistant(id, settlement))
    {
      var all := Materialize(window);
      var entries := SettledList(all, id, settlement);
      window := Leaf(entries);
      PublishWindow(snapshot.hasMore, SettleAssistant(id, settlement));
    }
  }

  method SettledList(rows: seq<Row>, id: AttemptId, settlement: Option<Event>) returns (entries: seq<Row>)
    ensures entries == Settled(rows, id, settlement)
  {
    entries := Filtered(rows, id);
    match settlement {
      case None =>
      case Some(event) =>
        var index := FirstBehind(entries, event.seqNo as real);
        InsertedAt(entries, Durable(event), index);
        entries := entries[..index] + [Durable(event)] + entries[index..];
    }
  }

  method Filtered(rows: seq<Row>, id: AttemptId) returns (kept: seq<Row>)
    ensures kept == WithoutAttempt(rows, id)
  {
    kept := [];
    for i := 0 to |rows|
      invariant kept == WithoutAttempt(rows[..i], id)
    {
      assert rows[..i + 1][..i] == rows[..i];
      if rows[i].Durable? || rows[i].attemptId != id {
        kept := kept + [rows[i]];
      }
    }
    assert rows[..|rows|] == rows;
  }

  /** The first row behind a position, or the length when there is none. */
  method FirstBehind(rows: seq<Row>, position: real) returns (index: nat)
    ensures index <= |rows| && (forall i | 0 <= i < index :: rows[i].Position() <= position)
    ensures index < |rows| ==> rows[index].Position() > position
  {
    index := 0;
    while index < |rows| && rows[index].Position() <= position
      invariant index <= |rows| && forall i | 0 <= i < index :: rows[i].Position() <= position
    {
      index := index + 1;
    }
  }

  lemma {:induction false} InsertedAt(rows: seq<Row>, row: Row, index: nat)
    requires index <= |rows| && (forall i | 0 <= i < index :: rows[i].Position() <= row.Position())
    requires index < |rows| ==> rows[index].Position() > row.Position()
    ensures Inserted(rows, row) == rows[..index] + [row] + rows[index..]
  {
    if index > 0 {
      InsertedAt(rows[1..], row, index - 1);
      assert rows[..index] == [rows[0]] + rows[1..][..index - 1] && rows[index..] == rows[1..][index - 1..];
    }
  }

  // --- order --------------------------------------------------------------------------------------

  /** Strictly ascending in position. */
  ghost predicate Ascending(rows: seq<Row>) {
    forall i, j :: 0 <= i < j < |rows| ==> rows[i].Position() < rows[j].Position()
  }

  /** Every row lies before a position. */
  ghost predicate Before(rows: seq<Row>, position: real) {
    forall i :: 0 <= i < |rows| ==> rows[i].Position() < position
  }

  /** Dropping rows keeps the order, and what is kept was there. */
  lemma {:induction false} WithoutAscends(rows: seq<Row>, id: AttemptId)
    requires Ascending(rows)
    ensures Ascending(WithoutAttempt(rows, id))
    ensures forall row <- WithoutAttempt(rows, id) :: row in rows && !(row.Transient? && row.attemptId == id)
    ensures forall row <- rows :: row in WithoutAttempt(rows, id) || (row.Transient? && row.attemptId == id)
  {
    if rows != [] {
      WithoutAscends(rows[..|rows| - 1], id);
    }
  }

  /** A settlement goes to its place: the window stays ascending when no other row has its seq. */
  lemma {:induction false} InsertedAscends(rows: seq<Row>, row: Row)
    requires Ascending(rows) && forall r <- rows :: r.Position() != row.Position()
    ensures Ascending(Inserted(rows, row))
    ensures forall r :: r in Inserted(rows, row) <==> r in rows || r == row
  {
    if rows != [] && rows[0].Position() <= row.Position() {
      var rest := Inserted(rows[1..], row);
      InsertedAscends(rows[1..], row);
      forall k | 0 <= k < |rest|
        ensures rows[0].Position() < rest[k].Position()
      {
        assert rest[k] in rest;
      }
    }
  }

  /** Settling any attempt keeps an ascending window ascending. */
  lemma SettledAscends(rows: seq<Row>, id: AttemptId, settlement: Option<Event>)
    requires Ascending(rows)
    requires settlement.Some? ==> forall r <- rows :: r.Position() != settlement.value.seqNo as real
    ensures Ascending(Settled(rows, id, settlement))
  {
    WithoutAscends(rows, id);
    if settlement.Some? {
      InsertedAscends(WithoutAttempt(rows, id), Durable(settlement.value));
    }
  }
}
