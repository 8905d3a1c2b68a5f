/** Merging an authoritative list into the order a client already shows. */
module OrderedMerge {
  import opened Sequences

  type Key = string

  datatype Row<V> = Row(key: Key, value: V)

  predicate DistinctKeys<V>(rows: seq<Row<V>>) {
    forall i, j :: 0 <= i < j < |rows| ==> rows[i].key != rows[j].key
  }

  function KeySet<V>(rows: seq<Row<V>>): (keys: set<Key>)
    ensures forall key :: key in keys <==> HasKey(rows, key)
  {
    set i | 0 <= i < |rows| :: rows[i].key
  }

  predicate HasKey<V>(rows: seq<Row<V>>, key: Key) {
    exists i :: 0 <= i < |rows| && rows[i].key == key
  }

  // --- the merged order ---------------------------------------------------------------------------------

  /** Where a key is in the baseline. */
  function Place<V>(baseline: seq<Row<V>>, key: Key): (p: nat)
    ensures p <= |baseline| && (p < |baseline| <==> HasKey(baseline, key))
            && (p < |baseline| ==> baseline[p].key == key)
  {
    if baseline == [] then 0
    else if baseline[0].key == key then 0
    else
      assert forall i :: 0 <= i < |baseline[1..]| ==> baseline[1..][i] == baseline[i + 1];
      1 + Place(baseline[1..], key)
  }

  /** The unknown rows directly in front of a place of the baseline, as far as they come before a limit. */
  function NewBefore<V>(baseline: seq<Row<V>>, p: nat, known: set<Key>, limit: nat): seq<Row<V>>
    requires p <= |baseline|
  {
    if p == 0 || baseline[p - 1].key in known then []
    else NewBefore(baseline, p - 1, known, limit) + (if p - 1 < limit then [baseline[p - 1]] else [])
  }

  /** The rows of the established list that the baseline still has, with the baseline's values. */
  function Survivors<V>(current: seq<Row<V>>, baseline: seq<Row<V>>): seq<Row<V>> {
    if current == [] then []
    else
      var p := Place(baseline, current[0].key);
      if p < |baseline| then [baseline[p]] + Survivors(current[1..], baseline) else Survivors(current[1..], baseline)
  }

  /** Every survivor, each behind the new rows that precede it in the baseline. */
  function Blocks<V>(survivors: seq<Row<V>>, baseline: seq<Row<V>>, known: set<Key>, limit: nat): seq<Row<V>> {
    if survivors == [] then []
    else NewBefore(baseline, Place(baseline, survivors[0].key), known, limit) + [survivors[0]]
         + Blocks(survivors[1..], baseline, known, limit)
  }

  /** Survivors in their established order, new rows in front of the survivor they precede, the rest at the end. */
  function Merge<V>(current: seq<Row<V>>, baseline: seq<Row<V>>): seq<Row<V>> {
    MergeBelow(current, baseline, |baseline|)
  }

  function MergeBelow<V>(current: seq<Row<V>>, baseline: seq<Row<V>>, limit: nat): seq<Row<V>> {
    var survivors := Survivors(current, baseline);
    Blocks(survivors, baseline, KeySet(survivors), limit) + NewBefore(baseline, |baseline|, KeySet(survivors), limit)
  }

  // --- survivors ----------------------------------------------------------------------------------------

  lemma {:induction false} SurvivorsOf<V>(current: seq<Row<V>>, baseline: seq<Row<V>>)
    ensures forall key :: HasKey(Survivors(current, baseline), key) <==> HasKey(current, key) && HasKey(baseline, key)
    ensures forall row <- Survivors(current, baseline) :: row in baseline
    ensures DistinctKeys(current) ==> DistinctKeys(Survivors(current, baseline))
  {
    if current != [] {
      SurvivorsOf(current[1..], baseline);
      var rest, p := Survivors(current[1..], baseline), Place(baseline, current[0].key);
      forall key
        ensures HasKey(current, key) <==> key == current[0].key || HasKey(current[1..], key)
      {
        HasKeyCons(current, key);
      }
      if p < |baseline| {
        forall key
          ensures HasKey([baseline[p]] + rest, key) <==> key == baseline[p].key || HasKey(rest, key)
        {
          assert ([baseline[p]] + rest)[1..] == rest;
          HasKeyCons([baseline[p]] + rest, key);
        }
        if DistinctKeys(current) {
          DistinctCons(current);
          assert !HasKey(rest, current[0].key);
        }
      } else if DistinctKeys(current) {
        DistinctCons(current);
      }
    }
  }

  lemma HasKeyCons<V>(rows: seq<Row<V>>, key: Key)
    requires rows != []
    ensures HasKey(rows, key) <==> key == rows[0].key || HasKey(rows[1..], key)
  {
    if i :| 0 <= i < |rows| && rows[i].key == key {
      assert i > 0 ==> rows[1..][i - 1].key == key;
    }
    if j :| 0 <= j < |rows[1..]| && rows[1..][j].key == key {
      assert rows[j + 1].key == key;
    }
  }

  lemma DistinctCons<V>(rows: seq<Row<V>>)
    requires rows != [] && DistinctKeys(rows)
    ensures DistinctKeys(rows[1..]) && !HasKey(rows[1..], rows[0].key)
  {
  }

  lemma PlaceUnique<V>(baseline: seq<Row<V>>, i: nat)
    requires DistinctKeys(baseline) && i < |baseline|
    ensures Place(baseline, baseline[i].key) == i
  {
    assert HasKey(baseline, baseline[i].key);
  }

  // --- one insertion ------------------------------------------------------------------------------------

  lemma {:induction false} NewBeforeRows<V>(baseline: seq<Row<V>>, p: nat, known: set<Key>, limit: nat)
    requires p <= |baseline|
    ensures forall row <- NewBefore(baseline, p, known, limit) :: row.key !in known
  {
    if p != 0 && baseline[p - 1].key !in known {
      NewBeforeRows(baseline, p - 1, known, limit);
    }
  }

  /** Raising the limit over one row adds it to the one block it belongs to, at its end. */
  lemma {:induction false} NewBeforeStep<V>(baseline: seq<Row<V>>, p: nat, known: set<Key>, limit: nat)
    requires p <= |baseline| && limit < |baseline|
    ensures NewBefore(baseline, p, known, limit + 1)
            == NewBefore(baseline, p, known, limit)
               + (if limit < p && NoneKnown(baseline, limit, p, known) then [baseline[limit]] else [])
  {
    if p != 0 && baseline[p - 1].key !in known {
      NewBeforeStep(baseline, p - 1, known, limit);
      if limit + 1 == p {
        NewBeforeBelow(baseline, limit, known, limit);
        NewBeforeBelow(baseline, limit, known, limit + 1);
      }
    }
  }

  /** A limit behind the place does not matter. */
  lemma {:induction false} NewBeforeBelow<V>(baseline: seq<Row<V>>, p: nat, known: set<Key>, limit: nat)
    requires p <= |baseline| && p <= limit
    ensures NewBefore(baseline, p, known, limit) == NewBefore(baseline, p, known, p)
  {
    if p != 0 && baseline[p - 1].key !in known {
      NewBeforeBelow(baseline, p - 1, known, limit);
      NewBeforeBelow(baseline, p - 1, known, p);
    }
  }

  predicate NoneKnown<V>(baseline: seq<Row<V>>, lo: nat, hi: nat, known: set<Key>)
    requires lo <= hi <= |baseline|
  {
    forall j :: lo <= j < hi ==> baseline[j].key !in known
  }

  lemma {:induction false} BlocksSplit<V>(a: seq<Row<V>>, b: seq<Row<V>>, baseline: seq<Row<V>>, known: set<Key>,
      limit: nat)
    ensures Blocks(a + b, baseline, known, limit) == Blocks(a, baseline, known, limit)
            + Blocks(b, baseline, known, limit)
  {
    if a == [] {
      assert a + b == b;
    } else {
      assert (a + b)[1..] == a[1..] + b;
      BlocksSplit(a[1..], b, baseline, known, limit);
    }
  }

  /** The known rows of the blocks are the survivors themselves. */
  lemma {:induction false} BlocksKnown<V>(survivors: seq<Row<V>>, baseline: seq<Row<V>>, known: set<Key>, limit: nat)
    ensures forall row <- Blocks(survivors, baseline, known, limit) :: row.key in known ==> row in survivors
  {
    if survivors != [] {
      NewBeforeRows(baseline, Place(baseline, survivors[0].key), known, limit);
      BlocksKnown(survivors[1..], baseline, known, limit);
    }
  }

  /** Whether a survivor is not the next one behind a row of the baseline. */
  predicate Stays<V>(baseline: seq<Row<V>>, known: set<Key>, limit: nat, s: Row<V>)
  {
    var p := Place(baseline, s.key);
    !(limit < p && NoneKnown(baseline, limit, p, known))
  }

  /** Blocks whose survivor is not the next one behind the limit do not change. */
  lemma {:induction false} BlocksStay<V>(survivors: seq<Row<V>>, baseline: seq<Row<V>>, known: set<Key>, limit: nat)
    requires limit < |baseline|
    requires forall s <- survivors :: Stays(baseline, known, limit, s)
    ensures Blocks(survivors, baseline, known, limit + 1) == Blocks(survivors, baseline, known, limit)
  {
    hide NewBefore, Place, KeySet, NoneKnown;
    if survivors != [] {
      assert Stays(baseline, known, limit, survivors[0]);
      NewBeforeStep(baseline, Place(baseline, survivors[0].key), known, limit);
      BlocksStay(survivors[1..], baseline, known, limit);
    }
  }

  /** A known row is no insertion. */
  lemma SkipKnown<V>(current: seq<Row<V>>, baseline: seq<Row<V>>, i: nat)
    requires i < |baseline| && baseline[i].key in KeySet(Survivors(current, baseline))
    ensures MergeBelow(current, baseline, i + 1) == MergeBelow(current, baseline, i)
  {
    var survivors := Survivors(current, baseline);
    BlocksStay(survivors, baseline, KeySet(survivors), i);
    NewBeforeStep(baseline, |baseline|, KeySet(survivors), i);
  }

  /** A new row with no known row behind it goes to the end. */
  lemma InsertLast<V>(current: seq<Row<V>>, baseline: seq<Row<V>>, i: nat)
    requires i < |baseline| && NoneKnown(baseline, i, |baseline|, KeySet(Survivors(current, baseline)))
    ensures MergeBelow(current, baseline, i + 1) == MergeBelow(current, baseline, i) + [baseline[i]]
  {
    var survivors := Survivors(current, baseline);
    var known := KeySet(survivors);
    SurvivorsOf(current, baseline);
    forall s <- survivors
      ensures Stays(baseline, known, i, s)
    {
      var k :| 0 <= k < |survivors| && survivors[k] == s;
      assert HasKey(survivors, s.key);
      assert baseline[Place(baseline, s.key)].key in known;
    }
    BlocksStay(survivors, baseline, known, i);
    NewBeforeStep(baseline, |baseline|, known, i);
  }

  lemma BlocksAround<V>(survivors: seq<Row<V>>, k: nat, q: nat, baseline: seq<Row<V>>, known: set<Key>, limit: nat)
    requires k < |survivors| && q < |baseline| && Place(baseline, survivors[k].key) == q
    ensures Blocks(survivors, baseline, known, limit)
            == Blocks(survivors[..k], baseline, known, limit) + NewBefore(baseline, q, known, limit)
               + ([survivors[k]] + Blocks(survivors[k + 1..], baseline, known, limit))
  {
    hide NewBefore, Place;
    var a, row, b := survivors[..k], survivors[k], survivors[k + 1..];
    assert survivors == a + ([row] + b);
    assert ([row] + b)[1..] == b;
    BlocksSplit(a, [row] + b, baseline, known, limit);
  }

  lemma MergeAround<V>(current: seq<Row<V>>, baseline: seq<Row<V>>, k: nat, q: nat, limit: nat)
    requires var survivors := Survivors(current, baseline);
             k < |survivors| && q < |baseline| && Place(baseline, survivors[k].key) == q
    ensures var survivors := Survivors(current, baseline);
            var known := KeySet(survivors);
            MergeBelow(current, baseline, limit)
            == (Blocks(survivors[..k], baseline, known, limit) + NewBefore(baseline, q, known, limit))
               + ([survivors[k]] + Blocks(survivors[k + 1..], baseline, known, limit)
                   + NewBefore(baseline, |baseline|, known, limit))
  {
    hide Blocks, NewBefore, Survivors, KeySet, Place;
    var survivors := Survivors(current, baseline);
    BlocksAround(survivors, k, q, baseline, KeySet(survivors), limit);
  }

  /** The front of the blocks up to a survivor does not hold its key. */
  lemma NotInFront<V>(survivors: seq<Row<V>>, k: nat, q: nat, baseline: seq<Row<V>>, known: set<Key>, limit: nat)
    requires k < |survivors| && q < |baseline| && DistinctKeys(survivors) && survivors[k].key in known
    ensures forall row <- Blocks(survivors[..k], baseline, known, limit) + NewBefore(baseline, q, known, limit) ::
              row.key != survivors[k].key
  {
    BlocksKnown(survivors[..k], baseline, known, limit);
    NewBeforeRows(baseline, q, known, limit);
    forall row <- Blocks(survivors[..k], baseline, known, limit)
      ensures row.key != survivors[k].key
    {
      if row.key in known {
        var m :| 0 <= m < k && survivors[..k][m] == row;
        assert survivors[m].key != survivors[k].key;
      }
    }
  }

  /** A new row goes directly in front of the next known row of the baseline. */
  lemma InsertBefore<V>(current: seq<Row<V>>, baseline: seq<Row<V>>, i: nat, q: nat) returns (at: nat)
    requires i < q < |baseline| && DistinctKeys(current) && DistinctKeys(baseline)
    requires NoneKnown(baseline, i, q, KeySet(Survivors(current, baseline)))
    requires baseline[q].key in KeySet(Survivors(current, baseline))
    ensures var merged := MergeBelow(current, baseline, i);
            && at < |merged| && merged[at].key == baseline[q].key
            && (forall j :: 0 <= j < at ==> merged[j].key != baseline[q].key)
            && MergeBelow(current, baseline, i + 1) == merged[..at] + [baseline[i]] + merged[at..]
  {
    hide Blocks, NewBefore, Survivors, MergeBelow, Stays, Place;
    var survivors := Survivors(current, baseline);
    var known := KeySet(survivors);
    SurvivorsOf(current, baseline);
    var k: nat :| k < |survivors| && survivors[k].key == baseline[q].key;
    PlaceUnique(baseline, q);
    var a, row, b := survivors[..k], survivors[k], survivors[k + 1..];
    MergeAround(current, baseline, k, q, i);
    MergeAround(current, baseline, k, q, i + 1);
    forall s | s in a || s in b
      ensures Stays(baseline, known, i, s)
    {
      OtherSurvivor(survivors, baseline, known, i, q, k, s);
    }
    BlocksStay(a, baseline, known, i);
    BlocksStay(b, baseline, known, i);
    NewBeforeStep(baseline, q, known, i);
    NewBeforeStep(baseline, |baseline|, known, i);
    NotInFront(survivors, k, q, baseline, known, i);
    var front: seq<Row<V>> := Blocks(a, baseline, known, i) + NewBefore(baseline, q, known, i);
    var rear: seq<Row<V>> := [row] + Blocks(b, baseline, known, i) + NewBefore(baseline, |baseline|, known, i);
    at := |front|;
    MovedIn(front, baseline[i], rear);
    forall j | 0 <= j < at
      ensures (front + rear)[j].key != baseline[q].key
    {
      assert front[j] in front;
    }
  }

  lemma MovedIn<T>(front: seq<T>, x: T, rear: seq<T>)
    ensures (front + rear)[..|front|] + [x] + (front + rear)[|front|..] == front + [x] + rear
  {
    assert (front + rear)[..|front|] == front && (front + rear)[|front|..] == rear;
  }

  lemma Holds<V>(rows: seq<Row<V>>, i: nat)
    requires i < |rows|
    ensures HasKey(rows, rows[i].key)
  {
  }

  /** Only one survivor is the next behind a row. */
  lemma OtherSurvivor<V>(survivors: seq<Row<V>>, baseline: seq<Row<V>>, known: set<Key>, i: nat, q: nat, k: nat,
      s: Row<V>)
    requires i < q < |baseline| && NoneKnown(baseline, i, q, known) && known == KeySet(survivors)
    requires DistinctKeys(survivors) && k < |survivors| && survivors[k].key == baseline[q].key
    requires s in survivors[..k] || s in survivors[k + 1..]
    requires Place(baseline, s.key) < |baseline|
    ensures Stays(baseline, known, i, s)
  {
    hide Place, KeySet, HasKey;
    var m :| 0 <= m < |survivors| && m != k && survivors[m] == s;
    var p := Place(baseline, s.key);
    Holds(survivors, m);
    Holds(survivors, k);
    assert baseline[p].key in known && baseline[q].key in known;
    assert survivors[m].key != survivors[k].key;
  }

  // --- the rows of a merge ------------------------------------------------------------------------------

  lemma {:induction false} NextKnown<V>(baseline: seq<Row<V>>, i: nat, at: nat, known: set<Key>) returns (q: nat)
    requires i < at <= |baseline| && NoneKnown(baseline, i, at, known)
    ensures i < q <= |baseline| && NoneKnown(baseline, i, q, known) && (q < |baseline| ==> baseline[q].key in known)
    decreases |baseline| - at
  {
    q := at;
    if at < |baseline| && baseline[at].key !in known {
      q := NextKnown(baseline, i, at + 1, known);
    }
  }

  /** Survivors and the new rows below a limit, once each. */
  lemma {:induction false} BelowRows<V>(current: seq<Row<V>>, baseline: seq<Row<V>>, i: nat)
    requires i <= |baseline| && DistinctKeys(current) && DistinctKeys(baseline)
    ensures var merged := MergeBelow(current, baseline, i);
            && DistinctKeys(merged) && (forall row <- merged :: row in baseline)
            && forall key :: HasKey(merged, key) <==>
                HasKey(Survivors(current, baseline), key) || HasKey(baseline[..i], key)
  {
    hide Blocks, NewBefore, Survivors, MergeBelow;
    if i == 0 {
      NothingMergedYet(current, baseline);
      SurvivorsOf(current, baseline);
      assert baseline[..0] == [];
      assert forall key :: !HasKey<V>([], key);
    } else {
      BelowRows(current, baseline, i - 1);
      HasKeySnoc(baseline, i - 1);
      var known := KeySet(Survivors(current, baseline));
      if baseline[i - 1].key in known {
        SkipKnown(current, baseline, i - 1);
        assert HasKey(Survivors(current, baseline), baseline[i - 1].key);
      } else {
        var before := MergeBelow(current, baseline, i - 1);
        assert !HasKey(baseline[..i - 1], baseline[i - 1].key);
        var q := NextKnown(baseline, i - 1, i, known);
        var at := |before|;
        if q == |baseline| {
          InsertLast(current, baseline, i - 1);
          assert before[..at] == before && before[at..] == [];
        } else {
          at := InsertBefore(current, baseline, i - 1, q);
        }
        HasKeyInserted(before, at, baseline[i - 1]);
        var after := MergeBelow(current, baseline, i);
        assert after == before[..at] + [baseline[i - 1]] + before[at..];
        forall key
          ensures HasKey(after, key) <==> HasKey(Survivors(current, baseline), key) || HasKey(baseline[..i], key)
        {
          assert HasKey(after, key) <==> HasKey(before, key) || key == baseline[i - 1].key;
        }
      }
    }
  }

  /** A merge holds exactly the baseline's rows, once each. */
  lemma MergeRows<V>(current: seq<Row<V>>, baseline: seq<Row<V>>)
    requires DistinctKeys(current) && DistinctKeys(baseline)
    ensures DistinctKeys(Merge(current, baseline)) && forall row :: row in Merge(current, baseline) <==> row in baseline
  {
    hide MergeBelow;
    BelowRows(current, baseline, |baseline|);
    assert baseline[..|baseline|] == baseline;
    var merged := Merge(current, baseline);
    forall row <- baseline
      ensures row in merged
    {
      var i :| 0 <= i < |baseline| && baseline[i] == row;
      assert HasKey(baseline, row.key);
      var j :| 0 <= j < |merged| && merged[j].key == row.key;
      assert merged[j] in baseline;
    }
  }

  // --- the algorithm ------------------------------------------------------------------------------------

  method FindIndex<V>(rows: seq<Row<V>>, key: Key) returns (found: int)
    ensures -1 <= found < |rows| && (found == -1 <==> !HasKey(rows, key))
    ensures found >= 0 ==> rows[found].key == key && forall j :: 0 <= j < found ==> rows[j].key != key
  {
    found := 0;
    while found < |rows|
      invariant 0 <= found <= |rows| && forall j :: 0 <= j < found ==> rows[j].key != key
    {
      if rows[found].key == key {
        return;
      }
      found := found + 1;
    }
    found := -1;
  }

  /** Where a new row is inserted: at the nearest following row that is already there, or at the end. */
  method Insertion<V>(merged: seq<Row<V>>, baseline: seq<Row<V>>, index: nat) returns (at: nat, ghost q: nat)
    requires index < |baseline|
    ensures index < q <= |baseline| && forall j :: index < j < q ==> !HasKey(merged, baseline[j].key)
    ensures q == |baseline| ==> at == |merged|
    ensures q < |baseline| ==> at < |merged| && merged[at].key == baseline[q].key
                               && forall j :: 0 <= j < at ==> merged[j].key != baseline[q].key
  {
    at, q := |merged|, index + 1;
    var following := index + 1;
    while following < |baseline|
      invariant index < following <= |baseline| && q == following && at == |merged|
      invariant forall j :: index < j < following ==> !HasKey(merged, baseline[j].key)
    {
      var known := FindIndex(merged, baseline[following].key);
      if known != -1 {
        at := known;
        break;
      }
      following := following + 1;
      q := following;
    }
  }

  method MergeOrderedBaseline<V>(current: seq<Row<V>>, baseline: seq<Row<V>>) returns (merged: seq<Row<V>>)
    requires DistinctKeys(current) && DistinctKeys(baseline)
    ensures merged == Merge(current, baseline)
    ensures DistinctKeys(merged) && forall row :: row in merged <==> row in baseline
  {
    hide Blocks, NewBefore, Survivors, MergeBelow, NoneKnown;
    merged := Survivors(current, baseline);
    SurvivorsOf(current, baseline);
    ghost var known := KeySet(merged);
    var mergedKeys := KeySet(merged);
    NothingMergedYet(current, baseline);
    for index := 0 to |baseline|
      invariant merged == MergeBelow(current, baseline, index)
      invariant forall key :: key in mergedKeys <==> HasKey(merged, key)
    {
      var row := baseline[index];
      BelowRows(current, baseline, index);
      HasKeySnoc(baseline, index);
      if row.key in mergedKeys {
        assert !HasKey(baseline[..index], row.key);
        SkipKnown(current, baseline, index);
        continue;
      }
      ghost var before := merged;
      var at, q := Insertion(merged, baseline, index);
      LaterKnown(merged, baseline, index, q, known);
      if q == |baseline| {
        InsertLast(current, baseline, index);
        assert merged[..at] == merged && merged[at..] == [];
      } else {
        var place := InsertBefore(current, baseline, index, q);
        assert at == place;
      }
      merged := merged[..at] + [row] + merged[at..];
      HasKeyInserted(before, at, row);
      mergedKeys := mergedKeys + {row.key};
    }
    MergeRows(current, baseline);
  }

  lemma HasKeySnoc<V>(rows: seq<Row<V>>, index: nat)
    requires index < |rows|
    ensures forall key :: HasKey(rows[..index + 1], key) <==> HasKey(rows[..index], key) || key == rows[index].key
  {
    forall key
      ensures HasKey(rows[..index + 1], key) <==> HasKey(rows[..index], key) || key == rows[index].key
    {
      if HasKey(rows[..index], key) {
        var i :| 0 <= i < index && rows[..index][i].key == key;
        assert rows[..index + 1][i].key == key;
      }
      if key == rows[index].key {
        assert rows[..index + 1][index].key == key;
      }
      if HasKey(rows[..index + 1], key) {
        var i :| 0 <= i < index + 1 && rows[..index + 1][i].key == key;
        assert i < index ==> rows[..index][i].key == key;
      }
    }
  }

  lemma HasKeyInserted<V>(rows: seq<Row<V>>, at: nat, row: Row<V>)
    requires at <= |rows|
    ensures var inserted := rows[..at] + [row] + rows[at..];
            && (forall key :: HasKey(inserted, key) <==> HasKey(rows, key) || key == row.key)
            && (DistinctKeys(rows) && !HasKey(rows, row.key) ==> DistinctKeys(inserted))
  {
    var inserted := rows[..at] + [row] + rows[at..];
    forall key
      ensures HasKey(inserted, key) <==> HasKey(rows, key) || key == row.key
    {
      if HasKey(rows, key) {
        var i :| 0 <= i < |rows| && rows[i].key == key;
        assert inserted[if i < at then i else i + 1].key == key;
      }
      if key == row.key {
        assert inserted[at].key == key;
      }
      if HasKey(inserted, key) && key != row.key {
        var i :| 0 <= i < |inserted| && inserted[i].key == key;
        assert rows[if i < at then i else i - 1].key == key;
      }
    }
  }

  /** Rows behind the current one are merged exactly when they were known from the start. */
  lemma LaterKnown<V>(merged: seq<Row<V>>, baseline: seq<Row<V>>, index: nat, q: nat, known: set<Key>)
    requires index < q <= |baseline| && DistinctKeys(baseline) && !HasKey(merged, baseline[index].key)
    requires forall key :: HasKey(merged, key) <==> key in known || HasKey(baseline[..index], key)
    requires forall j :: index < j < q ==> !HasKey(merged, baseline[j].key)
    requires q < |baseline| ==> HasKey(merged, baseline[q].key)
    ensures NoneKnown(baseline, index, q, known) && (q < |baseline| ==> baseline[q].key in known)
  {
    if q < |baseline| {
      assert !HasKey(baseline[..index], baseline[q].key);
    }
  }

  lemma NothingMergedYet<V>(current: seq<Row<V>>, baseline: seq<Row<V>>)
    ensures MergeBelow(current, baseline, 0) == Survivors(current, baseline)
  {
    NothingMerged(Survivors(current, baseline), baseline, KeySet(Survivors(current, baseline)));
  }

  lemma {:induction false} NothingMerged<V>(survivors: seq<Row<V>>, baseline: seq<Row<V>>, known: set<Key>)
    ensures Blocks(survivors, baseline, known, 0) + NewBefore(baseline, |baseline|, known, 0) == survivors
  {
    NothingNew(baseline, |baseline|, known);
    if survivors != [] {
      NothingNew(baseline, Place(baseline, survivors[0].key), known);
      NothingMerged(survivors[1..], baseline, known);
    }
  }

  lemma {:induction false} NothingNew<V>(baseline: seq<Row<V>>, p: nat, known: set<Key>)
    requires p <= |baseline|
    ensures NewBefore(baseline, p, known, 0) == []
  {
    if p != 0 && baseline[p - 1].key !in known {
      NothingNew(baseline, p - 1, known);
    }
  }

  // --- what the merge keeps -----------------------------------------------------------------------------

  function Among<V>(rows: seq<Row<V>>, keys: set<Key>): seq<Row<V>> {
    if rows == [] then []
    else if rows[0].key in keys then [rows[0]] + Among(rows[1..], keys)
    else Among(rows[1..], keys)
  }

  lemma {:induction false} AmongSplit<V>(a: seq<Row<V>>, b: seq<Row<V>>, keys: set<Key>)
    ensures Among(a + b, keys) == Among(a, keys) + Among(b, keys)
  {
    if a == [] {
      assert a + b == b;
    } else {
      assert (a + b)[1..] == a[1..] + b;
      AmongSplit(a[1..], b, keys);
    }
  }

  lemma {:induction false} AmongNone<V>(rows: seq<Row<V>>, keys: set<Key>)
    requires forall row <- rows :: row.key !in keys
    ensures Among(rows, keys) == []
  {
    if rows != [] {
      AmongNone(rows[1..], keys);
    }
  }

  lemma {:induction false} BlocksOrder<V>(survivors: seq<Row<V>>, baseline: seq<Row<V>>, known: set<Key>, limit: nat)
    requires forall s <- survivors :: s.key in known
    ensures Among(Blocks(survivors, baseline, known, limit), known) == survivors
  {
    if survivors != [] {
      var new_ := NewBefore(baseline, Place(baseline, survivors[0].key), known, limit);
      var rest := Blocks(survivors[1..], baseline, known, limit);
      NewBeforeRows(baseline, Place(baseline, survivors[0].key), known, limit);
      AmongNone(new_, known);
      AmongSplit(new_ + [survivors[0]], rest, known);
      AmongSplit(new_, [survivors[0]], known);
      BlocksOrder(survivors[1..], baseline, known, limit);
    }
  }

  lemma SurvivorKeys<V>(survivors: seq<Row<V>>)
    ensures forall s <- survivors :: s.key in KeySet(survivors)
  {
    forall s <- survivors
      ensures HasKey(survivors, s.key)
    {
      var i :| 0 <= i < |survivors| && survivors[i] == s;
    }
  }

  /** The rows that were already shown keep their established order. */
  lemma SurvivorsKeepOrder<V>(current: seq<Row<V>>, baseline: seq<Row<V>>)
    ensures Among(Merge(current, baseline), KeySet(Survivors(current, baseline))) == Survivors(current, baseline)
  {
    var survivors := Survivors(current, baseline);
    var known := KeySet(survivors);
    SurvivorKeys(survivors);
    BlocksOrder(survivors, baseline, known, |baseline|);
    NewBeforeRows(baseline, |baseline|, known, |baseline|);
    AmongNone(NewBefore(baseline, |baseline|, known, |baseline|), known);
    AmongSplit(Blocks(survivors, baseline, known, |baseline|), NewBefore(baseline, |baseline|, known, |baseline|),
        known);
  }

  /** A prefix of the baseline is its known rows, each behind its new ones, and the new rows that end it. */
  lemma {:induction false} BaselineBlocks<V>(baseline: seq<Row<V>>, known: set<Key>, n: nat)
    requires n <= |baseline| && DistinctKeys(baseline)
    ensures Blocks(Among(baseline[..n], known), baseline, known, |baseline|) + NewBefore(baseline, n, known, |baseline|)
            == baseline[..n]
  {
    hide Blocks, NewBefore, Among;
    if n == 0 {
      NoBlocks(baseline, known);
    } else {
      BaselineBlocks(baseline, known, n - 1);
      assert baseline[..n] == baseline[..n - 1] + [baseline[n - 1]];
      AmongSplit(baseline[..n - 1], [baseline[n - 1]], known);
      var before := Among(baseline[..n - 1], known);
      BlocksSplit(before, Among([baseline[n - 1]], known), baseline, known, |baseline|);
      OneMore(baseline, known, n);
      Regroup(Blocks(before, baseline, known, |baseline|),
          Blocks(Among([baseline[n - 1]], known), baseline, known, |baseline|),
              NewBefore(baseline, n, known, |baseline|));
      Regroup(Blocks(before, baseline, known, |baseline|), NewBefore(baseline, n - 1, known, |baseline|),
          [baseline[n - 1]]);
    }
  }

  lemma NoBlocks<V>(baseline: seq<Row<V>>, known: set<Key>)
    ensures Blocks(Among(baseline[..0], known), baseline, known, |baseline|)
            == NewBefore(baseline, 0, known, |baseline|) == []
  {
  }

  lemma OneMore<V>(baseline: seq<Row<V>>, known: set<Key>, n: nat)
    requires 0 < n <= |baseline| && DistinctKeys(baseline)
    ensures Blocks(Among([baseline[n - 1]], known), baseline, known, |baseline|)
            + NewBefore(baseline, n, known, |baseline|)
            == NewBefore(baseline, n - 1, known, |baseline|) + [baseline[n - 1]]
  {
    PlaceUnique(baseline, n - 1);
    var last := [baseline[n - 1]];
    assert last[1..] == [];
    if baseline[n - 1].key in known {
      assert Among(last, known) == last;
    }
  }

  /** The merge is the baseline exactly when the established order of the survivors is the baseline's. */
  lemma MergeIsBaseline<V>(current: seq<Row<V>>, baseline: seq<Row<V>>)
    requires DistinctKeys(baseline)
    ensures Merge(current, baseline) == baseline <==>
            Among(baseline, KeySet(Survivors(current, baseline))) == Survivors(current, baseline)
  {
    BaselineBlocks(baseline, KeySet(Survivors(current, baseline)), |baseline|);
    assert baseline[..|baseline|] == baseline;
    SurvivorsKeepOrder(current, baseline);
  }

  lemma {:induction false} AllSurvive<V>(rows: seq<Row<V>>, baseline: seq<Row<V>>)
    requires DistinctKeys(baseline) && forall row <- rows :: row in baseline
    ensures Survivors(rows, baseline) == rows
  {
    if rows != [] {
      assert rows[0] in rows;
      var i :| 0 <= i < |baseline| && baseline[i] == rows[0];
      PlaceUnique(baseline, i);
      AllSurvive(rows[1..], baseline);
    }
  }

  lemma {:induction false} NothingLeftOut<V>(survivors: seq<Row<V>>, baseline: seq<Row<V>>, known: set<Key>, limit: nat)
    requires forall row <- baseline :: row.key in known
    ensures Blocks(survivors, baseline, known, limit) == survivors
  {
    if survivors != [] {
      NothingLeftOut(survivors[1..], baseline, known, limit);
    }
  }

  /** Merging twice is merging once. */
  lemma MergeIdempotent<V>(current: seq<Row<V>>, baseline: seq<Row<V>>)
    requires DistinctKeys(current) && DistinctKeys(baseline)
    ensures Merge(Merge(current, baseline), baseline) == Merge(current, baseline)
  {
    var shown := Merge(current, baseline);
    assert forall row <- shown :: row in baseline by {
      hide MergeBelow;
      BelowRows(current, baseline, |baseline|);
    }
    MergeRows(current, baseline);
    AllSurvive(shown, baseline);
    SurvivorKeys(shown);
    forall row <- baseline
      ensures row.key in KeySet(shown)
    {
      assert row in shown;
    }
    NothingLeftOut(shown, baseline, KeySet(shown), |baseline|);
  }
}
