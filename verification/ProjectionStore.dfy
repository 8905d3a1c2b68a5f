/** One Session's projection values on the client, written by several racing sources. */
module ProjectionStore {
  import opened Options

  type Key = string
  type Value = string

  /** A Host value with its watermark, or a checkpoint view of unknown age. */
  datatype Row = Sequenced(value: Value, seqNo: int) | Cached(value: Value)

  type Rows = map<Key, Row>

  /** A finished value wins over cached rows and over sequenced rows with a lower seq. */
  function Accept(row: Option<Row>, value: Value, seqNo: int): Row {
    match row
    case Some(Sequenced(v, s)) => if seqNo <= s then Sequenced(v, s) else Sequenced(value, seqNo)
    case _ => Sequenced(value, seqNo)
  }

  function Get(rows: Rows, key: Key): Option<Row> {
    if key in rows then Some(rows[key]) else None
  }

  /** Every carried value under the same seq rule. */
  function Applied(rows: Rows, values: map<Key, Value>, seqNo: int): Rows {
    map k | k in rows.Keys + values.Keys ::
      if k in values then Accept(Get(rows, k), values[k], seqNo) else rows[k]
  }

  /** A checkpoint value lands where there is nothing, or only another checkpoint's value. */
  function Filled(rows: Rows, values: map<Key, Value>): Rows {
    map k | k in rows.Keys + values.Keys ::
      if k in values && !(k in rows && rows[k].Sequenced?) then Cached(values[k]) else rows[k]
  }

  /** A baseline drops cached rows, lands its values, and clears the keys it omits unless they are newer. */
  function Seeded(rows: Rows, values: map<Key, Value>, asOf: int): Rows {
    map k | k in rows.Keys + values.Keys && (k in values || (rows[k].Sequenced? && rows[k].seqNo > asOf)) ::
      if k in values then Accept(Get(rows, k), values[k], asOf) else rows[k]
  }

  lemma OneMoreApplied(rows: Rows, values: map<Key, Value>, todo: set<Key>, key: Key, seqNo: int)
    requires key in todo && todo <= values.Keys
    ensures Applied(Applied(rows, values - todo, seqNo), map[key := values[key]], seqNo)
            == Applied(rows, values - (todo - {key}), seqNo)
  {
    assert (values - (todo - {key})).Keys == (values - todo).Keys + {key};
  }

  /** Dropping cached rows, applying the values and pruning the omitted keys is seeding. */
  lemma SeedByParts(rows: Rows, values: map<Key, Value>, asOf: int)
    ensures var kept := map k | k in rows && rows[k].Sequenced? :: rows[k];
            var landed := Applied(kept, values, asOf);
            (map k | k in landed && (k in values || (landed[k].Sequenced? && landed[k].seqNo > asOf)) :: landed[k])
            == Seeded(rows, values, asOf)
  {
  }

  class ProjectionValueStore {
    var rows: Rows

    constructor ()
      ensures rows == map[]
    {
      rows := map[];
    }

    method Apply(key: Key, value: Value, seqNo: int)
      modifies this
      ensures rows == Applied(old(rows), map[key := value], seqNo)
    {
      if key in rows && rows[key].Sequenced? && seqNo <= rows[key].seqNo {
        assert rows == Applied(rows, map[key := value], seqNo);
        return;
      }
      rows := rows[key := Sequenced(value, seqNo)];
    }

    method ApplyCached(values: map<Key, Value>)
      modifies this
      ensures rows == Filled(old(rows), values)
    {
      ghost var before := rows;
      var todo := values.Keys;
      while todo != {}
        invariant todo <= values.Keys
        invariant rows == Filled(before, values - todo)
      {
        var key :| key in todo;
        ghost var part := values - todo;
        todo := todo - {key};
        if !(key in rows && rows[key].Sequenced?) {
          rows := rows[key := Cached(values[key])];
        }
        assert (values - todo).Keys == part.Keys + {key};
      }
      assert values - todo == values;
    }

    /** Apply every carried value under one seq. */
    method ApplyAll(values: map<Key, Value>, seqNo: int)
      modifies this
      ensures rows == Applied(old(rows), values, seqNo)
    {
      ghost var before := rows;
      var todo := values.Keys;
      assert rows == Applied(before, values - todo, seqNo);
      while todo != {}
        invariant todo <= values.Keys
        invariant rows == Applied(before, values - todo, seqNo)
      {
        var key :| key in todo;
        OneMoreApplied(before, values, todo, key, seqNo);
        todo := todo - {key};
        Apply(key, values[key], seqNo);
      }
      assert values - todo == values;
    }

    method Seed(values: map<Key, Value>, asOf: int)
      modifies this
      ensures rows == Seeded(old(rows), values, asOf)
    {
      SeedByParts(rows, values, asOf);
      rows := map k | k in rows && rows[k].Sequenced? :: rows[k];
      ApplyAll(values, asOf);
      rows := map k | k in rows && (k in values || (rows[k].Sequenced? && rows[k].seqNo > asOf)) :: rows[k];
    }

    method Clear()
      modifies this
      ensures rows == map[]
    {
      rows := map[];
    }
  }

  /**
   A key that a baseline omits can come back: a frame at or below the baseline's cut re-creates it, with the old
   value, exactly when no newer row of that key survived the baseline.
   */
  lemma LateFrameAfterSeed(rows: Rows, values: map<Key, Value>, asOf: int, key: Key, value: Value, seqNo: int)
    requires key !in values && seqNo <= asOf
    ensures Get(Applied(Seeded(rows, values, asOf), map[key := value], seqNo), key) == Some(Sequenced(value, seqNo))
            <==> !(key in rows && rows[key].Sequenced? && rows[key].seqNo > asOf)
  {
  }

  /** A sequenced row that nothing as of a seq may replace. */
  predicate Stands(rows: Rows, key: Key, seqNo: int) {
    key in rows && rows[key].Sequenced? && rows[key].seqNo >= seqNo
  }

  /** Carried values land exactly where no row as new stands; a checkpoint's exactly where no sequenced row is. */
  lemma LandsExactly(rows: Rows, values: map<Key, Value>, seqNo: int, key: Key)
    ensures Get(Applied(rows, values, seqNo), key)
            == if key in values && !Stands(rows, key, seqNo) then Some(Sequenced(values[key], seqNo))
               else Get(rows, key)
    ensures Get(Filled(rows, values), key)
            == if key in values && !(key in rows && rows[key].Sequenced?) then Some(Cached(values[key]))
               else Get(rows, key)
  {
  }

  /** A baseline leaves no checkpoint's value, and of the keys it omits only what is newer than itself. */
  lemma SeedsExactly(rows: Rows, values: map<Key, Value>, asOf: int, key: Key)
    ensures var after := Get(Seeded(rows, values, asOf), key);
            && (after.Some? ==> after.value.Sequenced?)
            && (key in values ==>
                  after == if Stands(rows, key, asOf) then Get(rows, key) else Some(Sequenced(values[key], asOf)))
            && (key !in values ==> after == if Stands(rows, key, asOf + 1) then Get(rows, key) else None)
  {
  }

  /** The order in which values of different seqs arrive does not matter. */
  lemma OrderDoesNotMatter(rows: Rows, a: map<Key, Value>, s: int, b: map<Key, Value>, t: int)
    requires s != t
    ensures Applied(Applied(rows, a, s), b, t) == Applied(Applied(rows, b, t), a, s)
  {
    var x, y := Applied(Applied(rows, a, s), b, t), Applied(Applied(rows, b, t), a, s);
    forall key
      ensures Get(x, key) == Get(y, key)
    {
    }
    assert forall key :: key in x <==> Get(x, key).Some?;
    assert forall key :: key in y <==> Get(y, key).Some?;
  }

  /** Nor does it matter when a checkpoint is read, for the keys a sequenced source carries. */
  lemma CheckpointYields(rows: Rows, cached: map<Key, Value>, values: map<Key, Value>, seqNo: int, key: Key)
    requires key in values
    ensures Get(Applied(Filled(rows, cached), values, seqNo), key) == Get(Applied(rows, values, seqNo), key)
            == Get(Filled(Applied(rows, values, seqNo), cached), key)
  {
  }
}
