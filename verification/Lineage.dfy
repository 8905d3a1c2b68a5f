/** Session summaries flattened into display rows that follow their subagent lineage. */
module Lineage {
  import opened Options

  type SessionId = string

  datatype Summary = Summary(id: SessionId, parent: Option<SessionId>, subagent: bool)

  datatype Row = Row(summary: Summary, depth: nat)

  predicate DistinctIds(all: seq<Summary>) {
    forall i, j :: 0 <= i < j < |all| ==> all[i].id != all[j].id
  }

  /** The ids of some summaries. */
  function IdsOf(all: seq<Summary>): set<SessionId> {
    set s | s in all :: s.id
  }

  function RowIds(rows: seq<Row>): set<SessionId> {
    set row | row in rows :: row.summary.id
  }

  /** A subagent whose parent is listed. */
  predicate Linked(all: seq<Summary>, s: Summary) {
    s.subagent && s.parent.Some? && s.parent.value in IdsOf(all)
  }

  /** The subagents of a listed parent, in input order. */
  function Kids(all: seq<Summary>, listed: seq<Summary>, parent: SessionId): (kids: seq<Summary>)
    ensures forall s :: s in kids <==> s in listed && Linked(all, s) && s.parent.value == parent
  {
    if listed == [] then []
    else
      var init, last := listed[..|listed| - 1], listed[|listed| - 1];
      assert listed == init + [last];
      if Linked(all, last) && last.parent.value == parent then Kids(all, init, parent) + [last]
          else Kids(all, init, parent)
  }

  function Roots(all: seq<Summary>, listed: seq<Summary>): (roots: seq<Summary>)
    ensures forall s :: s in roots <==> s in listed && !Linked(all, s)
  {
    if listed == [] then []
    else
      var init, last := listed[..|listed| - 1], listed[|listed| - 1];
      assert listed == init + [last];
      if Linked(all, last) then Roots(all, init) else Roots(all, init) + [last]
  }

  // --- the walk -----------------------------------------------------------------------------------------

  /** The rows of some summaries and everything below them that no earlier row showed. */
  function WalkAll(all: seq<Summary>, list: seq<Summary>, depth: nat, visited: set<SessionId>): (rows: seq<Row>)
    requires forall s <- list :: s in all
    ensures forall row <- rows :: row.summary in all && row.summary.id !in visited
    decreases |IdsOf(all) - visited|, 1, |list|
  {
    if list == [] then []
    else
      var first := WalkOne(all, list[0], depth, visited);
      Fewer(all, visited, RowIds(first));
      first + WalkAll(all, list[1..], depth, visited + RowIds(first))
  }

  function WalkOne(all: seq<Summary>, s: Summary, depth: nat, visited: set<SessionId>): (rows: seq<Row>)
    requires s in all
    ensures forall row <- rows :: row.summary in all && row.summary.id !in visited
    decreases |IdsOf(all) - visited|, 0, 0
  {
    if s.id in visited then []
    else
      FewerBy(all, visited, s.id);
      [Row(s, depth)] + WalkAll(all, Kids(all, all, s.id), depth + 1, visited + {s.id})
  }

  lemma IdListed(all: seq<Summary>, s: Summary)
    requires s in all
    ensures s.id in IdsOf(all)
  {
  }

  lemma Fewer(all: seq<Summary>, visited: set<SessionId>, more: set<SessionId>)
    ensures |IdsOf(all) - (visited + more)| <= |IdsOf(all) - visited|
  {
    var a, b := IdsOf(all) - (visited + more), IdsOf(all) - visited;
    assert a <= b && b == a + (b - a);
  }

  lemma FewerBy(all: seq<Summary>, visited: set<SessionId>, id: SessionId)
    requires id in IdsOf(all) && id !in visited
    ensures |IdsOf(all) - (visited + {id})| < |IdsOf(all) - visited|
  {
    assert IdsOf(all) - (visited + {id}) == IdsOf(all) - visited - {id};
  }

  function Flatten(all: seq<Summary>): seq<Row> {
    var tops := WalkAll(all, Roots(all, all), 0, {});
    tops + WalkAll(all, all, 0, RowIds(tops))
  }

  lemma RowIdsSplit(a: seq<Row>, b: seq<Row>)
    ensures RowIds(a + b) == RowIds(a) + RowIds(b)
  {
    assert forall row :: row in a + b <==> row in a || row in b;
  }

  lemma NoneAgain(all: seq<Summary>, s: Summary, depth: nat, visited: set<SessionId>)
    requires s in all && s.id in visited
    ensures WalkOne(all, s, depth, visited) == [] && RowIds([]) == {}
  {
  }

  lemma WalkOneRows(all: seq<Summary>, s: Summary, depth: nat, visited: set<SessionId>)
    requires s in all && s.id !in visited
    ensures var below := WalkAll(all, Kids(all, all, s.id), depth + 1, visited + {s.id});
            && WalkOne(all, s, depth, visited) == [Row(s, depth)] + below
            && RowIds(WalkOne(all, s, depth, visited)) == {s.id} + RowIds(below)
  {
    RowIdsSplit([Row(s, depth)], WalkAll(all, Kids(all, all, s.id), depth + 1, visited + {s.id}));
  }

  lemma WalkAllRows(all: seq<Summary>, list: seq<Summary>, k: nat, depth: nat, visited: set<SessionId>)
    requires k < |list| && forall s <- list :: s in all
    ensures var first := WalkOne(all, list[k], depth, visited);
            WalkAll(all, list[k..], depth, visited) == first
                + WalkAll(all, list[k + 1..], depth, visited + RowIds(first))
  {
    assert list[k..][1..] == list[k + 1..];
  }

  /** What the children table holds for a parent. */
  function ChildrenOf(children: map<SessionId, seq<Summary>>, id: SessionId): seq<Summary> {
    if id in children then children[id] else []
  }

  class LineageWalk {
    const all: seq<Summary>
    const children: map<SessionId, seq<Summary>>
    var out: seq<Row>
    var visited: set<SessionId>

    ghost predicate Valid() {
      forall id :: ChildrenOf(children, id) == Kids(all, all, id)
    }

    constructor (all: seq<Summary>, children: map<SessionId, seq<Summary>>)
      ensures this.all == all && this.children == children && out == [] && visited == {}
    {
      this.all, this.children, out, visited := all, children, [], {};
    }

    /** Emit one summary and its lineage; a summary that was emitted before is a cycle and is skipped. */
    method Walk(s: Summary, depth: nat)
      requires Valid() && s in all
      modifies this
      ensures out == old(out) + WalkOne(all, s, depth, old(visited))
      ensures visited == old(visited) + RowIds(WalkOne(all, s, depth, old(visited)))
      decreases |IdsOf(all) - visited|, 0
    {
      hide WalkAll, WalkOne, Kids, RowIds, IdsOf;
      if s.id in visited {
        NoneAgain(all, s, depth, visited);
        return;
      }
      IdListed(all, s);
      FewerBy(all, visited, s.id);
      WalkOneRows(all, s, depth, visited);
      visited := visited + {s.id};
      out := out + [Row(s, depth)];
      assert ChildrenOf(children, s.id) == Kids(all, all, s.id);
      if s.id in children {
        WalkList(children[s.id], depth + 1);
      } else {
        NoRows(all, depth + 1, visited);
      }
    }

    method WalkList(list: seq<Summary>, depth: nat)
      requires Valid() && forall s <- list :: s in all
      modifies this
      ensures out == old(out) + WalkAll(all, list, depth, old(visited))
      ensures visited == old(visited) + RowIds(WalkAll(all, list, depth, old(visited)))
      decreases |IdsOf(all) - visited|, 1
    {
      hide WalkAll, WalkOne, Kids, RowIds, IdsOf;
      ghost var rows: seq<Row> := [];
      NoRows(all, depth, visited);
      assert list[0..] == list;
      for k := 0 to |list|
        invariant out == old(out) + rows && visited == old(visited) + RowIds(rows)
        invariant WalkAll(all, list, depth, old(visited)) == rows + WalkAll(all, list[k..], depth, visited)
      {
        ghost var first := WalkOne(all, list[k], depth, visited);
        WalkAllRows(all, list, k, depth, visited);
        Fewer(all, old(visited), RowIds(rows));
        RowIdsSplit(rows, first);
        Walk(list[k], depth);
        rows := rows + first;
      }
      NoRows(all, depth, visited);
      assert list[|list|..] == [];
      assert rows + [] == rows;
    }
  }

  lemma NoRows(all: seq<Summary>, depth: nat, visited: set<SessionId>)
    ensures WalkAll(all, [], depth, visited) == [] && RowIds([]) == {}
  {
  }

  /** Flatten a list: the roots in input order with their lineages, then whatever only a cycle reaches. */
  method FlattenLineage(all: seq<Summary>) returns (out: seq<Row>)
    ensures out == Flatten(all)
  {
    hide WalkAll, WalkOne, RowIds, IdsOf;
    var children: map<SessionId, seq<Summary>> := map[];
    var roots: seq<Summary> := [];
    for i := 0 to |all|
      invariant roots == Roots(all, all[..i])
      invariant forall id :: ChildrenOf(children, id) == Kids(all, all[..i], id)
    {
      var s := all[i];
      assert all[..i + 1][..i] == all[..i];
      if Linked(all, s) {
        children := children[s.parent.value := ChildrenOf(children, s.parent.value) + [s]];
      } else {
        roots := roots + [s];
      }
    }
    assert all[..|all|] == all;
    var walk := new LineageWalk(all, children);
    walk.WalkList(roots, 0);
    ghost var tops := walk.out;
    assert tops == WalkAll(all, roots, 0, {}) && walk.visited == RowIds(tops);
    walk.WalkList(all, 0);
    out := walk.out;
  }

  // --- what a walk shows --------------------------------------------------------------------------------

  /** A walk over a new summary: its row, the rows below it, then the rest of the list. */
  lemma Unfold(all: seq<Summary>, list: seq<Summary>, depth: nat, visited: set<SessionId>)
    returns (below: seq<Row>, rest: seq<Row>, seen: set<SessionId>)
    requires list != [] && list[0].id !in visited && forall s <- list :: s in all
    ensures below == WalkAll(all, Kids(all, all, list[0].id), depth + 1, visited + {list[0].id})
    ensures seen == visited + {list[0].id} + RowIds(below) && rest == WalkAll(all, list[1..], depth, seen)
    ensures WalkAll(all, list, depth, visited) == [Row(list[0], depth)] + below + rest
    ensures RowIds(WalkAll(all, list, depth, visited)) == {list[0].id} + RowIds(below) + RowIds(rest)
    ensures |IdsOf(all) - (visited + {list[0].id})| < |IdsOf(all) - visited|
    ensures |IdsOf(all) - seen| < |IdsOf(all) - visited|
  {
    WalkOneRows(all, list[0], depth, visited);
    IdListed(all, list[0]);
    FewerBy(all, visited, list[0].id);
    below := WalkAll(all, Kids(all, all, list[0].id), depth + 1, visited + {list[0].id});
    Fewer(all, visited + {list[0].id}, RowIds(below));
    seen := visited + {list[0].id} + RowIds(below);
    assert seen == visited + RowIds(WalkOne(all, list[0], depth, visited));
    rest := WalkAll(all, list[1..], depth, seen);
    RowIdsSplit(WalkOne(all, list[0], depth, visited), rest);
  }

  lemma SkipVisited(all: seq<Summary>, list: seq<Summary>, depth: nat, visited: set<SessionId>)
    requires list != [] && list[0].id in visited && forall s <- list :: s in all
    ensures WalkAll(all, list, depth, visited) == WalkAll(all, list[1..], depth, visited)
  {
    assert WalkOne(all, list[0], depth, visited) == [];
    assert visited + RowIds([]) == visited;
  }

  predicate Once(rows: seq<Row>) {
    forall i, j :: 0 <= i < j < |rows| ==> rows[i].summary.id != rows[j].summary.id
  }

  lemma OnceJoined(a: seq<Row>, b: seq<Row>)
    requires Once(a) && Once(b) && forall row <- b :: row.summary.id !in RowIds(a)
    ensures Once(a + b)
  {
    forall i, j | 0 <= i < |a| <= j < |a + b|
      ensures (a + b)[i].summary.id != (a + b)[j].summary.id
    {
      assert a[i] in a && b[j - |a|] in b;
    }
  }

  /** A walk shows what it is given, and nothing twice. */
  lemma {:induction false} WalkOnce(all: seq<Summary>, list: seq<Summary>, depth: nat, visited: set<SessionId>)
    requires forall s <- list :: s in all
    ensures Once(WalkAll(all, list, depth, visited))
    ensures forall s <- list :: s.id in visited || s.id in RowIds(WalkAll(all, list, depth, visited))
    decreases |IdsOf(all) - visited|, |list|
  {
    hide WalkAll, Kids, IdsOf, RowIds;
    if list == [] {
      NoRows(all, depth, visited);
    } else if list[0].id in visited {
      SkipVisited(all, list, depth, visited);
      WalkOnce(all, list[1..], depth, visited);
    } else {
      var below, rest, seen := Unfold(all, list, depth, visited);
      WalkOnce(all, Kids(all, all, list[0].id), depth + 1, visited + {list[0].id});
      WalkOnce(all, list[1..], depth, seen);
      HeadIds(list[0], depth, below);
      OnceJoined([Row(list[0], depth)], below);
      OnceJoined([Row(list[0], depth)] + below, rest);
    }
  }

  lemma HeadIds(s: Summary, depth: nat, below: seq<Row>)
    ensures RowIds([Row(s, depth)]) == {s.id} && RowIds([Row(s, depth)] + below) == {s.id} + RowIds(below)
  {
    RowIdsSplit([Row(s, depth)], below);
  }

  // --- parents ------------------------------------------------------------------------------------------

  /** The nearest earlier row one level up. */
  ghost predicate IsParentRow(rows: seq<Row>, j: int, k: int) {
    && 0 <= j < k < |rows| && rows[j].depth + 1 == rows[k].depth
    && forall m :: j < m < k ==> rows[m].depth >= rows[k].depth
  }

  ghost predicate HasParentRow(all: seq<Summary>, rows: seq<Row>, k: int)
    requires 0 <= k < |rows|
  {
    exists j: nat :: ParentAt(all, rows, j, k)
  }

  ghost predicate ParentAt(all: seq<Summary>, rows: seq<Row>, j: nat, k: nat) {
    IsParentRow(rows, j, k) && Linked(all, rows[k].summary) && rows[k].summary.parent.value == rows[j].summary.id
  }

  lemma ParentBefore(all: seq<Summary>, a: seq<Row>, b: seq<Row>, j: nat, k: nat)
    requires ParentAt(all, a, j, k)
    ensures ParentAt(all, a + b, j, k)
  {
  }

  lemma ParentBehind(all: seq<Summary>, a: seq<Row>, b: seq<Row>, j: nat, k: nat)
    requires ParentAt(all, b, j, k)
    ensures ParentAt(all, a + b, |a| + j, |a| + k)
  {
    var rows := a + b;
    forall m | |a| + j < m < |a| + k
      ensures rows[m].depth >= rows[|a| + k].depth
    {
      assert rows[m] == b[m - |a|];
    }
  }

  /** Rows below a base level directly follow their parents' lineages. */
  ghost predicate Placed(all: seq<Summary>, rows: seq<Row>, base: nat) {
    forall k {:trigger rows[k]} :: 0 <= k < |rows| ==>
      rows[k].depth >= base && (rows[k].depth > base ==> HasParentRow(all, rows, k))
  }

  lemma PlacedJoined(all: seq<Summary>, a: seq<Row>, b: seq<Row>, base: nat)
    requires Placed(all, a, base) && Placed(all, b, base)
    ensures Placed(all, a + b, base)
  {
    hide ParentAt;
    forall k | 0 <= k < |a + b|
      ensures (a + b)[k].depth >= base && ((a + b)[k].depth > base ==> HasParentRow(all, a + b, k))
    {
      if k < |a| {
        assert a[k] == (a + b)[k];
        if a[k].depth > base {
          var j: nat :| ParentAt(all, a, j, k);
          ParentBefore(all, a, b, j, k);
        }
      } else {
        assert b[k - |a|] == (a + b)[k];
        if b[k - |a|].depth > base {
          var j: nat :| ParentAt(all, b, j, k - |a|);
          ParentBehind(all, a, b, j, k - |a|);
        }
      }
    }
  }

  lemma PlacedUnder(all: seq<Summary>, s: Summary, below: seq<Row>, base: nat)
    requires Placed(all, below, base + 1)
    requires forall row <- below :: row.depth == base + 1 ==>
             Linked(all, row.summary) && row.summary.parent.value == s.id
    ensures Placed(all, [Row(s, base)] + below, base)
  {
    hide ParentAt, Linked;
    var rows := [Row(s, base)] + below;
    forall k | 0 <= k < |rows|
      ensures rows[k].depth >= base && (rows[k].depth > base ==> HasParentRow(all, rows, k))
    {
      if k > 0 {
        assert rows[k] == below[k - 1] && below[k - 1] in below;
        if rows[k].depth == base + 1 {
          ParentOnTop(all, rows[0], below, k - 1);
        } else {
          var j: nat :| ParentAt(all, below, j, k - 1);
          ParentBehind(all, [Row(s, base)], below, j, k - 1);
        }
      }
    }
  }

  lemma ParentOnTop(all: seq<Summary>, top: Row, below: seq<Row>, k: nat)
    requires k < |below| && below[k].depth == top.depth + 1 && forall m :: 0 <= m < k ==> below[m].depth > top.depth
    requires Linked(all, below[k].summary) && below[k].summary.parent.value == top.summary.id
    ensures ParentAt(all, [top] + below, 0, k + 1)
  {
  }

  /** The top rows of a walk are its list; every other row has its parent's row above it. */
  lemma {:induction false} WalkPlaced(all: seq<Summary>, list: seq<Summary>, depth: nat, visited: set<SessionId>)
    requires forall s <- list :: s in all
    ensures Placed(all, WalkAll(all, list, depth, visited), depth)
    ensures forall row <- WalkAll(all, list, depth, visited) :: row.depth == depth ==> row.summary in list
    decreases |IdsOf(all) - visited|, |list|
  {
    hide WalkAll, IdsOf, RowIds, Placed;
    if list == [] {
      NoRows(all, depth, visited);
      NonePlaced(all, depth);
    } else if list[0].id in visited {
      SkipVisited(all, list, depth, visited);
      WalkPlaced(all, list[1..], depth, visited);
    } else {
      var below, rest, seen := Unfold(all, list, depth, visited);
      WalkPlaced(all, Kids(all, all, list[0].id), depth + 1, visited + {list[0].id});
      WalkPlaced(all, list[1..], depth, seen);
      PlacedUnder(all, list[0], below, depth);
      PlacedJoined(all, [Row(list[0], depth)] + below, rest, depth);
      PlacedDeeper(all, below, depth + 1);
    }
  }

  lemma NonePlaced(all: seq<Summary>, base: nat)
    ensures Placed(all, [], base)
  {
  }

  lemma PlacedDeeper(all: seq<Summary>, rows: seq<Row>, base: nat)
    requires Placed(all, rows, base)
    ensures forall row <- rows :: row.depth >= base
  {
  }

  // --- depths -------------------------------------------------------------------------------------------

  /** A summary whose parents lead, one after the other, to a root in some number of steps. */
  ghost predicate Chain(all: seq<Summary>, s: Summary, n: nat)
    decreases n
  {
    if !Linked(all, s) then n == 0
    else n > 0 && exists parent :: parent in all && parent.id == s.parent.value && Chain(all, parent, n - 1)
  }

  lemma {:induction false} WalkChains(all: seq<Summary>, list: seq<Summary>, depth: nat, visited: set<SessionId>)
    requires forall s <- list :: s in all && Chain(all, s, depth)
    ensures forall row <- WalkAll(all, list, depth, visited) :: Chain(all, row.summary, row.depth)
    decreases |IdsOf(all) - visited|, |list|
  {
    hide WalkAll, IdsOf, RowIds, Linked;
    if list == [] {
      NoRows(all, depth, visited);
    } else if list[0].id in visited {
      SkipVisited(all, list, depth, visited);
      WalkChains(all, list[1..], depth, visited);
    } else {
      var below, rest, seen := Unfold(all, list, depth, visited);
      WalkChains(all, Kids(all, all, list[0].id), depth + 1, visited + {list[0].id});
      WalkChains(all, list[1..], depth, seen);
    }
  }

  /** With a row, a walk has shown everything below it. */
  lemma {:induction false} WalkCloses(all: seq<Summary>, list: seq<Summary>, depth: nat, visited: set<SessionId>)
    requires forall s <- list :: s in all
    ensures forall row, kid {:trigger row in WalkAll(all, list, depth, visited),
            kid in Kids(all, all, row.summary.id)} ::
              row in WalkAll(all, list, depth, visited) && kid in Kids(all, all, row.summary.id) ==>
                kid.id in visited || kid.id in RowIds(WalkAll(all, list, depth, visited))
    decreases |IdsOf(all) - visited|, |list|
  {
    hide WalkAll, Kids, IdsOf, RowIds;
    if list == [] {
      NoRows(all, depth, visited);
    } else if list[0].id in visited {
      SkipVisited(all, list, depth, visited);
      WalkCloses(all, list[1..], depth, visited);
    } else {
      var below, rest, seen := Unfold(all, list, depth, visited);
      WalkCloses(all, Kids(all, all, list[0].id), depth + 1, visited + {list[0].id});
      WalkOnce(all, Kids(all, all, list[0].id), depth + 1, visited + {list[0].id});
      WalkCloses(all, list[1..], depth, seen);
    }
  }

  /** A summary with a chain to a root is shown by the walk over the roots. */
  lemma {:induction false} ChainShown(all: seq<Summary>, s: Summary, n: nat)
    requires s in all && Chain(all, s, n)
    ensures s.id in RowIds(WalkAll(all, Roots(all, all), 0, {}))
    decreases n
  {
    hide WalkAll, Roots, Kids;
    var tops := WalkAll(all, Roots(all, all), 0, {});
    if n == 0 {
      WalkOnce(all, Roots(all, all), 0, {});
      assert s in Roots(all, all);
    } else {
      var parent :| parent in all && parent.id == s.parent.value && Chain(all, parent, n - 1);
      ChainShown(all, parent, n - 1);
      WalkCloses(all, Roots(all, all), 0, {});
      var row :| row in tops && row.summary.id == parent.id;
      assert s in Kids(all, all, row.summary.id);
    }
  }

  lemma {:induction false} ChainUnique(all: seq<Summary>, s: Summary, n: nat, m: nat)
    requires DistinctIds(all) && s in all && Chain(all, s, n) && Chain(all, s, m)
    ensures n == m
    decreases n
  {
    if n > 0 && m > 0 {
      var a :| a in all && a.id == s.parent.value && Chain(all, a, n - 1);
      var b :| b in all && b.id == s.parent.value && Chain(all, b, m - 1);
      SameSummary(all, a, b);
      ChainUnique(all, a, n - 1, m - 1);
    }
  }

  lemma SameSummary(all: seq<Summary>, a: Summary, b: Summary)
    requires DistinctIds(all) && a in all && b in all && a.id == b.id
    ensures a == b
  {
  }

  // --- siblings -----------------------------------------------------------------------------------------

  function Position(all: seq<Summary>, s: Summary): (p: nat)
    requires s in all
    ensures p < |all| && all[p] == s
  {
    if all[0] == s then 0 else 1 + Position(all[1..], s)
  }

  ghost predicate Increasing(all: seq<Summary>, list: seq<Summary>) {
    && (forall s <- list :: s in all)
    && forall i, j :: 0 <= i < j < |list| ==> Position(all, list[i]) < Position(all, list[j])
  }

  /** Two rows of one level with nothing above that level between them. */
  ghost predicate Siblings(rows: seq<Row>, i: int, j: int) {
    && 0 <= i < j < |rows| && rows[i].depth == rows[j].depth
    && forall m :: i < m < j ==> rows[m].depth >= rows[j].depth
  }

  ghost predicate InOrder(all: seq<Summary>, rows: seq<Row>) {
    && (forall row <- rows :: row.summary in all)
    && forall i, j :: Siblings(rows, i, j) ==> Position(all, rows[i].summary) < Position(all, rows[j].summary)
  }

  lemma {:induction false} PositionOf(all: seq<Summary>, p: nat)
    requires DistinctIds(all) && p < |all|
    ensures Position(all, all[p]) == p
  {
    if p > 0 {
      assert all[1..][p - 1] == all[p];
      PositionOf(all[1..], p - 1);
    }
  }

  /** A list in input order, all of it before a position. */
  ghost predicate Below(all: seq<Summary>, list: seq<Summary>, n: nat) {
    Increasing(all, list) && forall s <- list :: Position(all, s) < n
  }

  lemma BelowMore(all: seq<Summary>, list: seq<Summary>, n: nat)
    requires DistinctIds(all) && n < |all| && Below(all, list, n)
    ensures Below(all, list, n + 1) && Below(all, list + [all[n]], n + 1)
  {
    hide Position, DistinctIds;
    PositionOf(all, n);
    assert forall s :: s in list + [all[n]] <==> s in list || s == all[n];
    forall i, j | 0 <= i < j < |list + [all[n]]|
      ensures Position(all, (list + [all[n]])[i]) < Position(all, (list + [all[n]])[j])
    {
      assert list[i] in list;
    }
  }

  lemma {:induction false} KidsIncreasing(all: seq<Summary>, n: nat, parent: SessionId)
    requires DistinctIds(all) && n <= |all|
    ensures Below(all, Kids(all, all[..n], parent), n) && Below(all, Roots(all, all[..n]), n)
  {
    hide Below, Linked, DistinctIds;
    if n == 0 {
      NothingBelow(all);
    } else {
      assert all[..n][..n - 1] == all[..n - 1];
      KidsIncreasing(all, n - 1, parent);
      BelowMore(all, Kids(all, all[..n - 1], parent), n - 1);
      BelowMore(all, Roots(all, all[..n - 1]), n - 1);
    }
  }

  lemma NothingBelow(all: seq<Summary>)
    ensures Below(all, [], 0)
  {
  }

  /** Siblings of a joined walk: within one part, or top rows of both. */
  lemma OrderJoined(all: seq<Summary>, a: seq<Row>, b: seq<Row>, base: nat)
    requires InOrder(all, a) && InOrder(all, b)
    requires (forall row <- a :: row.depth >= base) && (b != [] ==> b[0].depth == base)
    requires TopsOrdered(all, a, b, base)
    ensures InOrder(all, a + b)
  {
    hide Position, TopsOrdered;
    assert forall row :: row in a + b <==> row in a || row in b;
    forall i, j | Siblings(a + b, i, j)
      ensures Position(all, (a + b)[i].summary) < Position(all, (a + b)[j].summary)
    {
      if j < |a| {
        SiblingsBefore(a, b, i, j);
      } else if i >= |a| {
        SiblingsBehind(a, b, i, j);
      } else {
        TopsAcross(all, a, b, base, i, j - |a|);
      }
    }
  }

  ghost predicate TopsOrdered(all: seq<Summary>, a: seq<Row>, b: seq<Row>, base: nat)
    requires (forall row <- a :: row.summary in all) && (forall row <- b :: row.summary in all)
  {
    forall x, y :: x in a && y in b && x.depth == y.depth == base ==>
        Position(all, x.summary) < Position(all, y.summary)
  }

  lemma TopsAcross(all: seq<Summary>, a: seq<Row>, b: seq<Row>, base: nat, i: nat, j: nat)
    requires (forall row <- a :: row.summary in all) && (forall row <- b :: row.summary in all)
    requires i < |a| && j < |b| && Siblings(a + b, i, |a| + j) && TopsOrdered(all, a, b, base)
    requires a[i].depth >= base && b[0].depth == base
    ensures Position(all, a[i].summary) < Position(all, b[j].summary)
  {
    assert (a + b)[i] == a[i] && (a + b)[|a| + j] == b[j] && (a + b)[|a|] == b[0];
    assert a[i] in a && b[j] in b;
  }

  lemma SiblingsBefore(a: seq<Row>, b: seq<Row>, i: nat, j: nat)
    requires j < |a| && Siblings(a + b, i, j)
    ensures Siblings(a, i, j)
  {
    forall m | i < m < j
      ensures a[m].depth >= a[j].depth
    {
      assert (a + b)[m] == a[m];
    }
  }

  lemma SiblingsBehind(a: seq<Row>, b: seq<Row>, i: nat, j: nat)
    requires |a| <= i && Siblings(a + b, i, j)
    ensures Siblings(b, i - |a|, j - |a|)
  {
    forall m | i - |a| < m < j - |a|
      ensures b[m].depth >= b[j - |a|].depth
    {
      assert (a + b)[m + |a|] == b[m];
    }
  }

  /** The rows of one list and of one parent appear in input order. */
  lemma {:induction false} WalkInOrder(all: seq<Summary>, list: seq<Summary>, depth: nat, visited: set<SessionId>)
    requires DistinctIds(all) && Increasing(all, list)
    ensures InOrder(all, WalkAll(all, list, depth, visited))
    ensures var rows := WalkAll(all, list, depth, visited); rows != [] ==> rows[0].depth == depth
    decreases |IdsOf(all) - visited|, |list|
  {
    hide WalkAll, Kids, Roots, IdsOf, RowIds, InOrder, Placed, Position, Linked, DistinctIds;
    if list == [] {
      NoRows(all, depth, visited);
      NoneInOrder(all);
    } else if list[0].id in visited {
      SkipVisited(all, list, depth, visited);
      WalkInOrder(all, list[1..], depth, visited);
    } else {
      var below, rest, seen := Unfold(all, list, depth, visited);
      assert all[..|all|] == all;
      KidsIncreasing(all, |all|, list[0].id);
      WalkInOrder(all, Kids(all, all, list[0].id), depth + 1, visited + {list[0].id});
      WalkInOrder(all, list[1..], depth, seen);
      WalkPlaced(all, Kids(all, all, list[0].id), depth + 1, visited + {list[0].id});
      PlacedDeeper(all, below, depth + 1);
      OrderUnder(all, list[0], below, depth);
      WalkPlaced(all, list[1..], depth, seen);
      TopsBehind(all, list, depth, below, rest);
      OrderJoined(all, [Row(list[0], depth)] + below, rest, depth);
    }
  }

  lemma NoneInOrder(all: seq<Summary>)
    ensures InOrder(all, [])
  {
  }

  lemma TopsBehind(all: seq<Summary>, list: seq<Summary>, depth: nat, below: seq<Row>, rest: seq<Row>)
    requires Increasing(all, list) && list != [] && (forall row <- below :: row.depth > depth)
    requires forall row <- rest :: row.summary in all && (row.depth == depth ==> row.summary in list[1..])
    requires forall row <- below :: row.summary in all
    requires list[0] in all
    ensures TopsOrdered(all, [Row(list[0], depth)] + below, rest, depth)
  {
  }

  lemma OrderUnder(all: seq<Summary>, s: Summary, below: seq<Row>, depth: nat)
    requires InOrder(all, below) && (forall row <- below :: row.depth > depth) && s in all
    ensures InOrder(all, [Row(s, depth)] + below)
  {
    hide Position;
    var top := [Row(s, depth)];
    var rows := top + below;
    forall i, j | Siblings(rows, i, j)
      ensures Position(all, rows[i].summary) < Position(all, rows[j].summary)
    {
      assert rows[j] == below[j - 1] && below[j - 1] in below;
      if i > 0 {
        SiblingsBehind(top, below, i, j);
      }
    }
  }

  // --- the flattened list -------------------------------------------------------------------------------

  /** Every summary is shown exactly once, whatever its parent links. */
  lemma FlattenOnce(all: seq<Summary>)
    requires DistinctIds(all)
    ensures Once(Flatten(all))
    ensures forall s :: s in all <==> exists row :: row in Flatten(all) && row.summary == s
  {
    hide WalkAll, Roots, Kids, DistinctIds;
    var tops := WalkAll(all, Roots(all, all), 0, {});
    var others := WalkAll(all, all, 0, RowIds(tops));
    WalkOnce(all, Roots(all, all), 0, {});
    WalkOnce(all, all, 0, RowIds(tops));
    OnceJoined(tops, others);
    forall s <- all
      ensures exists row :: row in Flatten(all) && row.summary == s
    {
      RowIdsSplit(tops, others);
      var row: Row :| row in tops + others && row.summary.id == s.id;
      SameSummary(all, row.summary, s);
    }
  }

  /** An indented row has its own parent as the nearest row one level up. */
  lemma FlattenPlaced(all: seq<Summary>)
    ensures Placed(all, Flatten(all), 0)
  {
    var tops := WalkAll(all, Roots(all, all), 0, {});
    WalkPlaced(all, Roots(all, all), 0, {});
    WalkPlaced(all, all, 0, RowIds(tops));
    PlacedJoined(all, tops, WalkAll(all, all, 0, RowIds(tops)), 0);
  }

  /** A summary whose parents lead to a root is indented by the number of its ancestors. */
  lemma FlattenDepths(all: seq<Summary>, row: Row, n: nat)
    requires DistinctIds(all) && row in Flatten(all) && Chain(all, row.summary, n)
    ensures row.depth == n
  {
    var tops := WalkAll(all, Roots(all, all), 0, {});
    ChainShown(all, row.summary, n);
    assert row in tops;
    WalkChains(all, Roots(all, all), 0, {});
    ChainUnique(all, row.summary, n, row.depth);
  }

  /** A Session that is no subagent, or whose parent is not in the list, is shown at the top. */
  lemma ShownAtTop(all: seq<Summary>, row: Row)
    requires DistinctIds(all) && row in Flatten(all)
    requires row.summary.subagent && row.summary.parent.Some? ==>
               forall s <- all :: s.id != row.summary.parent.value
    ensures row.depth == 0
  {
    FlattenDepths(all, row, 0);
  }

  /** A subagent is shown one level below its parent, unless only a cycle leads there. */
  lemma ShownBelowParent(all: seq<Summary>, row: Row, above: Row, n: nat)
    requires DistinctIds(all) && row in Flatten(all) && above in Flatten(all) && Chain(all, above.summary, n)
    requires row.summary.subagent && row.summary.parent == Some(above.summary.id)
    ensures row.depth == above.depth + 1
  {
    hide Flatten, Chain;
    FlattenOnce(all);
    assert above.summary in all;
    FlattenDepths(all, above, n);
    ChainLonger(all, row.summary, above.summary, n);
    FlattenDepths(all, row, n + 1);
  }

  lemma ChainLonger(all: seq<Summary>, s: Summary, parent: Summary, n: nat)
    requires parent in all && Chain(all, parent, n) && s.subagent && s.parent == Some(parent.id)
    ensures Chain(all, s, n + 1)
  {
    IdListed(all, parent);
  }

  lemma PairInOrder(all: seq<Summary>, rows: seq<Row>, i: nat, j: nat)
    requires InOrder(all, rows) && Siblings(rows, i, j)
    ensures rows[i].summary in all && rows[j].summary in all
    ensures Position(all, rows[i].summary) < Position(all, rows[j].summary)
  {
  }

  /** Siblings within one of two parts. */
  lemma PartInOrder(all: seq<Summary>, a: seq<Row>, b: seq<Row>, i: nat, j: nat)
    requires InOrder(all, a) && InOrder(all, b) && Siblings(a + b, i, j) && (j < |a| || |a| <= i)
    ensures (a + b)[i].summary in all && (a + b)[j].summary in all
    ensures Position(all, (a + b)[i].summary) < Position(all, (a + b)[j].summary)
  {
    hide InOrder, Position;
    if j < |a| {
      SiblingsBefore(a, b, i, j);
      PairInOrder(all, a, i, j);
    } else {
      SiblingsBehind(a, b, i, j);
      PairInOrder(all, b, i - |a|, j - |a|);
    }
  }

  /** Behind the lineages of the roots there are only rows of summaries that name a listed parent. */
  lemma LeftOverLinked(all: seq<Summary>, i: nat, j: nat)
    requires Siblings(Flatten(all), i, j)
    requires i < |WalkAll(all, Roots(all, all), 0, {})| <= j
    requires var others := WalkAll(all, all, 0, RowIds(WalkAll(all, Roots(all, all), 0, {})));
             others != [] ==> others[0].depth == 0
    ensures Flatten(all)[i].depth == 0 && Linked(all, Flatten(all)[j].summary)
  {
    hide WalkAll, Roots, RowIds, Linked;
    var rows := Flatten(all);
    var tops := WalkAll(all, Roots(all, all), 0, {});
    var others := WalkAll(all, all, 0, RowIds(tops));
    assert rows == tops + others && rows[|tops|] == others[0];
    assert rows[j] == others[j - |tops|] && rows[j] in others;
    if !Linked(all, rows[j].summary) {
      ChainShown(all, rows[j].summary, 0);
    }
  }

  /** Siblings, and the true roots, appear in input order. */
  lemma FlattenInOrder(all: seq<Summary>, i: nat, j: nat)
    requires DistinctIds(all) && Siblings(Flatten(all), i, j)
    requires Flatten(all)[i].depth > 0
             || (!Linked(all, Flatten(all)[i].summary) && !Linked(all, Flatten(all)[j].summary))
    ensures Flatten(all)[i].summary in all && Flatten(all)[j].summary in all
    ensures Position(all, Flatten(all)[i].summary) < Position(all, Flatten(all)[j].summary)
  {
    hide WalkAll, Kids, Roots, IdsOf, RowIds, Position, Linked, DistinctIds, Siblings, Below, InOrder;
    var tops := WalkAll(all, Roots(all, all), 0, {});
    var others := WalkAll(all, all, 0, RowIds(tops));
    RootsIncreasing(all);
    WalkInOrder(all, Roots(all, all), 0, {});
    AllIncreasing(all);
    WalkInOrder(all, all, 0, RowIds(tops));
    if i < |tops| <= j {
      LeftOverLinked(all, i, j);
    } else {
      PartInOrder(all, tops, others, i, j);
    }
  }

  lemma RootsIncreasing(all: seq<Summary>)
    requires DistinctIds(all)
    ensures Increasing(all, Roots(all, all))
  {
    assert all[..|all|] == all;
    KidsIncreasing(all, |all|, "");
  }

  lemma AllIncreasing(all: seq<Summary>)
    requires DistinctIds(all)
    ensures Increasing(all, all)
  {
    forall i | 0 <= i < |all|
      ensures Position(all, all[i]) == i
    {
      PositionOf(all, i);
    }
  }
}
