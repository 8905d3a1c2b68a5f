/** Where the rows of a merge are: those that were shown keep their order, new ones lie where the baseline has them. */
module MergeOrder {
  import opened OrderedMerge

  // --- new rows -----------------------------------------------------------------------------------------

  /** A stretch of new rows ends what is put in front of the place behind it. */
  lemma {:induction false} StretchEnds<V>(baseline: seq<Row<V>>, i: nat, q: nat, known: set<Key>)
    requires i <= q <= |baseline| && NoneKnown(baseline, i, q, known)
    ensures var before := NewBefore(baseline, q, known, |baseline|);
            |before| >= q - i && before[|before| - (q - i)..] == baseline[i..q]
    decreases q - i
  {
    if i < q {
      StretchEnds(baseline, i, q - 1, known);
      assert baseline[i..q] == baseline[i..q - 1] + [baseline[q - 1]];
    } else {
      assert baseline[i..q] == [];
    }
  }

  lemma Inside<V>(a: seq<Row<V>>, b: seq<Row<V>>, c: seq<Row<V>>, n: nat)
    requires n <= |b|
    ensures var whole, at := a + b + c, |a| + |b| - n;
            && whole[at..at + n] == b[|b| - n..] && (c != [] ==> whole[at + n] == c[0])
  {
  }

  /** Rows that are new and follow one another in the baseline do so in the merge, in front of the row they precede. */
  lemma NewRowsTogether<V>(current: seq<Row<V>>, baseline: seq<Row<V>>, i: nat, q: nat) returns (at: nat)
    requires DistinctKeys(current) && DistinctKeys(baseline) && i <= q <= |baseline|
    requires forall j :: i <= j < q ==> !HasKey(current, baseline[j].key)
    requires q < |baseline| ==> HasKey(current, baseline[q].key)
    ensures var merged := Merge(current, baseline);
            && at + (q - i) <= |merged| && merged[at..at + (q - i)] == baseline[i..q]
            && (if q < |baseline| then at + (q - i) < |merged| && merged[at + (q - i)] == baseline[q]
                else at + (q - i) == |merged|)
  {
    hide Blocks, NewBefore, Survivors, MergeBelow;
    var survivors := Survivors(current, baseline);
    var known := KeySet(survivors);
    SurvivorsOf(current, baseline);
    StretchEnds(baseline, i, q, known);
    if q < |baseline| {
      assert HasKey(baseline, baseline[q].key);
      var k: nat :| k < |survivors| && survivors[k].key == baseline[q].key;
      PlaceUnique(baseline, q);
      MergeAround(current, baseline, k, q, |baseline|);
      var a, b := Blocks(survivors[..k], baseline, known, |baseline|), NewBefore(baseline, q, known, |baseline|);
      var c := [survivors[k]] + Blocks(survivors[k + 1..], baseline, known, |baseline|)
               + NewBefore(baseline, |baseline|, known, |baseline|);
      Inside(a, b, c, q - i);
      at := |a| + |b| - (q - i);
      SameRow(baseline, survivors[k], q);
    } else {
      MergeEnds(current, baseline);
      var a, b := Blocks(survivors, baseline, known, |baseline|), NewBefore(baseline, q, known, |baseline|);
      Inside(a, b, [], q - i);
      assert a + b + [] == a + b;
      at := |a| + |b| - (q - i);
    }
  }

  lemma MergeEnds<V>(current: seq<Row<V>>, baseline: seq<Row<V>>)
    ensures var survivors := Survivors(current, baseline);
            Merge(current, baseline) == Blocks(survivors, baseline, KeySet(survivors), |baseline|)
                                        + NewBefore(baseline, |baseline|, KeySet(survivors), |baseline|)
  {
  }

  lemma SameRow<V>(baseline: seq<Row<V>>, row: Row<V>, q: nat)
    requires DistinctKeys(baseline) && row in baseline && q < |baseline| && row.key == baseline[q].key
    ensures row == baseline[q]
  {
    var i :| 0 <= i < |baseline| && baseline[i] == row;
  }

  // --- shown rows ---------------------------------------------------------------------------------------

  lemma PlaceOf<V>(rows: seq<Row<V>>, key: Key)
    ensures Place(rows, key) == if rows == [] || rows[0].key == key then 0 else 1 + Place(rows[1..], key)
  {
  }

  /** Survivors are in the order of the list they survived from. */
  lemma {:induction false} SurvivorsInOrder<V>(current: seq<Row<V>>, baseline: seq<Row<V>>, x: Key, y: Key)
    requires DistinctKeys(current) && Place(current, x) < Place(current, y) < |current|
    requires HasKey(baseline, x) && HasKey(baseline, y)
    ensures var rows := Survivors(current, baseline); Place(rows, x) < Place(rows, y) < |rows|
  {
    hide Place;
    SurvivorsOf(current, baseline);
    PlaceOf(current, x);
    PlaceOf(current, y);
    var rest, rows, p := current[1..], Survivors(current, baseline), Place(baseline, current[0].key);
    assert HasKey(current, y) && HasKey(rows, y);
    PlaceOf(rows, x);
    PlaceOf(rows, y);
    if p < |baseline| {
      assert rows == [baseline[p]] + Survivors(rest, baseline) && rows[1..] == Survivors(rest, baseline);
    }
    if current[0].key != x {
      SurvivorsInOrder(rest, baseline, x, y);
    }
  }

  /** Rows that are left out do not change the order of the others. */
  lemma {:induction false} AmongInOrder<V>(rows: seq<Row<V>>, known: set<Key>, x: Key, y: Key)
    requires x in known && y in known
    requires Place(Among(rows, known), x) < Place(Among(rows, known), y) < |Among(rows, known)|
    ensures Place(rows, x) < Place(rows, y) < |rows|
  {
    hide Place;
    var kept := Among(rows, known);
    PlaceOf(kept, x);
    PlaceOf(kept, y);
    PlaceOf(rows, x);
    PlaceOf(rows, y);
    if rows != [] {
      var rest := rows[1..];
      if rows[0].key in known {
        assert kept == [rows[0]] + Among(rest, known) && kept[1..] == Among(rest, known);
      }
      if rows[0].key != x {
        AmongInOrder(rest, known, x, y);
      } else {
        KeptLater(rest, known, y);
      }
    }
  }

  lemma {:induction false} KeptLater<V>(rows: seq<Row<V>>, known: set<Key>, y: Key)
    requires Place(Among(rows, known), y) < |Among(rows, known)|
    ensures Place(rows, y) < |rows|
  {
    hide Place;
    PlaceOf(rows, y);
    PlaceOf(Among(rows, known), y);
    if rows != [] {
      if rows[0].key in known {
        assert Among(rows, known)[1..] == Among(rows[1..], known);
      }
      if rows[0].key != y {
        KeptLater(rows[1..], known, y);
      }
    }
  }

  /** Two rows that were shown and are still there are shown in the order they had. */
  lemma ShownKeepOrder<V>(current: seq<Row<V>>, baseline: seq<Row<V>>, x: Key, y: Key)
    requires DistinctKeys(current) && DistinctKeys(baseline)
    requires Place(current, x) < Place(current, y) < |current| && HasKey(baseline, x) && HasKey(baseline, y)
    ensures var merged := Merge(current, baseline); Place(merged, x) < Place(merged, y) < |merged|
  {
    hide Place, Among, Survivors, MergeBelow;
    var survivors := Survivors(current, baseline);
    SurvivorsInOrder(current, baseline, x, y);
    SurvivorsKeepOrder(current, baseline);
    PlaceHolds(survivors, x);
    PlaceHolds(survivors, y);
    AmongInOrder(Merge(current, baseline), KeySet(survivors), x, y);
  }

  lemma PlaceHolds<V>(rows: seq<Row<V>>, key: Key)
    ensures Place(rows, key) < |rows| <==> HasKey(rows, key)
  {
  }
}
