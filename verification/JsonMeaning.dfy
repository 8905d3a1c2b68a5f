/** What the explicit-stack walk accepts: exactly the values that unfold into a finite JSON tree. */
module JsonMeaning {
  import opened Options
  import opened JsonWalk

  /** A node that JSON can represent without loss. */
  predicate Lossless(node: Node) {
    match node
    case ArrayNode(plain, extraKeys, elements) => plain && extraKeys == 0 && forall e <- elements :: e.Some?
    case ObjectNode(plain, oddKeys, _, _) => plain && !oddKeys
  }

  function Children(t: Json): seq<Json> {
    match t
    case JArray(items) => items
    case JObject(_, values) => values
    case _ => []
  }

  /** A JSON tree is what a value looks like when every reference is followed; shared nodes appear repeatedly. */
  ghost predicate Unfolds(g: Graph, v: Value, t: Json)
    requires Closed(g) && Within(g, v)
    decreases t
  {
    if !v.Object? then Leaf(v) == Some(t)
    else
      var node := g[v.ref];
      && Lossless(node) && t == Build(node, Children(t)) && |Children(t)| == |Slots(node)|
      && forall i :: 0 <= i < |Children(t)| ==>
           (SlotWithin(g, v.ref, i); Slots(node)[i].Some? && Unfolds(g, Slots(node)[i].value, Children(t)[i]))
  }

  /**
   What the unfolding of each kind of value is: leaves are themselves, an array is its elements without holes or other
   properties, an object its keys with the unfoldings of their values; nothing else unfolds.
   */
  lemma UnfoldsExactly(g: Graph, v: Value, t: Json)
    requires Closed(g) && Within(g, v)
    ensures Unfolds(g, v, t) <==>
            match v
            case Null => t == JNull
            case Bool(flag) => t == JBool(flag)
            case Text(text) => t == JText(text)
            case Number(number) => t == JNumber(number)
            case OddNumber => false
            case Unserializable => false
            case Object(ref) =>
              match g[ref]
              case ArrayNode(plain, extraKeys, elements) =>
                && plain && extraKeys == 0 && t.JArray? && |t.items| == |elements|
                && forall i :: 0 <= i < |elements| ==>
                     elements[i].Some? && Within(g, elements[i].value) && Unfolds(g, elements[i].value, t.items[i])
              case ObjectNode(plain, oddKeys, keys, values) =>
                && plain && !oddKeys && t.JObject? && t.keys == keys && |t.values| == |values|
                && forall i :: 0 <= i < |values| ==> Within(g, values[i]) && Unfolds(g, values[i], t.values[i])
  {
    if v.Object? {
      forall i | 0 <= i < |Slots(g[v.ref])| && Slots(g[v.ref])[i].Some?
        ensures Within(g, Slots(g[v.ref])[i].value)
      {
        SlotWithin(g, v.ref, i);
      }
      match g[v.ref] {
        case ArrayNode(_, _, elements) =>
          assert Slots(g[v.ref]) == elements;
          assert forall i :: 0 <= i < |elements| ==> elements[i] in elements;
          assert (forall e <- elements :: e.Some?) <==> forall i :: 0 <= i < |elements| ==> elements[i].Some?;
        case ObjectNode(_, _, _, values) =>
          assert forall i :: 0 <= i < |values| ==> Slots(g[v.ref])[i] == Some(values[i]);
      }
    }
  }

  /** A hole is never outweighed by an extra property: the copy is refused either at the count or at the hole. */
  lemma HolesRefused(g: Graph, r: Ref, ancestors: set<Ref>)
    requires Closed(g) && r in g
    ensures Lossless(g[r]) ==> Admitted(g[r]) && forall slot <- Slots(g[r]) :: slot.Some?
    ensures !Lossless(g[r]) ==> Walk(g, Object(r), ancestors) == None
  {
    if r !in ancestors && Admitted(g[r]) && !Lossless(g[r]) {
      var slots := Slots(g[r]);
      assert Present(g[r].elements) < |g[r].elements|;
      var hole :| hole in slots && hole.None?;
      HoleEnds(g, slots, ancestors + {r});
    }
  }

  lemma {:induction false} HoleEnds(g: Graph, slots: seq<Option<Value>>, ancestors: set<Ref>)
    requires Closed(g) && (forall slot <- slots :: slot.Some? ==> Within(g, slot.value)) && None in slots
    ensures WalkSlots(g, slots, ancestors) == None
    decreases |slots|
  {
    if slots[0].Some? {
      HoleEnds(g, slots[1..], ancestors);
    }
  }

  // --- the walk gives the unfolding ---------------------------------------------------------------------

  lemma {:induction false} WalkUnfolds(g: Graph, v: Value, ancestors: set<Ref>, t: Json)
    requires Closed(g) && Within(g, v) && Walk(g, v, ancestors) == Some(t)
    ensures Unfolds(g, v, t)
    decreases |g.Keys - ancestors|, 0, 0
  {
    if v.Object? {
      DeeperLeft(g, ancestors, v.ref);
      HolesRefused(g, v.ref, ancestors);
      var items := WalkSlots(g, Slots(g[v.ref]), ancestors + {v.ref}).value;
      SlotsUnfold(g, Slots(g[v.ref]), ancestors + {v.ref}, items);
      assert Children(t) == items;
    }
  }

  lemma {:induction false} SlotsUnfold(g: Graph, slots: seq<Option<Value>>, ancestors: set<Ref>, items: seq<Json>)
    requires Closed(g) && forall slot <- slots :: slot.Some? ==> Within(g, slot.value)
    requires WalkSlots(g, slots, ancestors) == Some(items)
    ensures |items| == |slots|
    ensures forall i :: 0 <= i < |items| ==>
            slots[i].Some? && Within(g, slots[i].value) && Unfolds(g, slots[i].value, items[i])
    decreases |g.Keys - ancestors|, 1, |slots|
  {
    if slots != [] {
      WalkUnfolds(g, slots[0].value, ancestors, items[0]);
      assert items == [items[0]] + items[1..];
      SlotsUnfold(g, slots[1..], ancestors, items[1..]);
      forall i | 0 <= i < |items|
        ensures slots[i].Some? && Within(g, slots[i].value) && Unfolds(g, slots[i].value, items[i])
      {
        assert slots[i] in slots;
        if i > 0 {
          assert slots[1..][i - 1] == slots[i] && items[1..][i - 1] == items[i];
        }
      }
    }
  }

  lemma {:induction false} UnfoldsOnce(g: Graph, v: Value, t: Json, u: Json)
    requires Closed(g) && Within(g, v) && Unfolds(g, v, t) && Unfolds(g, v, u)
    ensures t == u
    decreases t
  {
    if v.Object? {
      forall i | 0 <= i < |Children(t)|
        ensures Children(t)[i] == Children(u)[i]
      {
        SlotWithin(g, v.ref, i);
        UnfoldsOnce(g, Slots(g[v.ref])[i].value, Children(t)[i], Children(u)[i]);
      }
      assert Children(t) == Children(u);
    }
  }

  ghost function Size(t: Json): (n: nat)
    ensures n > 0
    decreases t, 1
  {
    1 + match t
        case JArray(items) => SizeAll(t, items, |items|)
        case JObject(_, values) => SizeAll(t, values, |values|)
        case _ => 0
  }

  ghost function SizeAll(t: Json, items: seq<Json>, n: nat): nat
    requires n <= |items| && forall item <- items :: item < t
    decreases t, 0, n
  {
    if n == 0 then 0
    else
      assert items[n - 1] in items;
      SizeAll(t, items, n - 1) + Size(items[n - 1])
  }

  lemma {:induction false} SizeOf(t: Json, items: seq<Json>, n: nat, i: nat)
    requires i < n <= |items| && forall item <- items :: item < t
    ensures Size(items[i]) <= SizeAll(t, items, n)
    decreases n
  {
    if i < n - 1 {
      SizeOf(t, items, n - 1, i);
    }
  }

  lemma ChildSmaller(t: Json, i: nat)
    requires i < |Children(t)|
    ensures Size(Children(t)[i]) < Size(t)
  {
    match t
    case JArray(items) => SizeOf(t, items, |items|, i);
    case JObject(_, values) => SizeOf(t, values, |values|, i);
  }

  /** The unfoldings of a value's ancestors, each larger than the value's own. */
  ghost predicate Enclosed(g: Graph, enclosing: map<Ref, Json>, size: nat)
    requires Closed(g)
  {
    forall a <- enclosing :: a in g && Unfolds(g, Object(a), enclosing[a]) && Size(enclosing[a]) > size
  }

  lemma EnclosedMore(g: Graph, enclosing: map<Ref, Json>, size: nat, smaller: nat)
    requires Closed(g) && Enclosed(g, enclosing, size) && smaller <= size
    ensures Enclosed(g, enclosing, smaller)
  {
  }

  /** A value is no ancestor of its own, and encloses its children. */
  lemma EnclosedWith(g: Graph, enclosing: map<Ref, Json>, v: Value, t: Json)
    requires Closed(g) && Within(g, v) && v.Object? && Unfolds(g, v, t) && Enclosed(g, enclosing, Size(t))
    ensures v.ref !in enclosing && Enclosed(g, enclosing[v.ref := t], Size(t) - 1)
  {
    hide Unfolds, Closed, Size;
    if v.ref in enclosing {
      UnfoldsOnce(g, v, t, enclosing[v.ref]);
    }
  }

  /** One slot and its part of an unfolding that is contained in another tree. */
  ghost predicate SlotUnfolds(g: Graph, slot: Option<Value>, item: Json, t: Json)
    requires Closed(g)
  {
    slot.Some? && Within(g, slot.value) && Unfolds(g, slot.value, item) && item < t && Size(item) < Size(t)
  }

  lemma ChildrenUnfold(g: Graph, v: Value, t: Json)
    requires Closed(g) && Within(g, v) && v.Object? && Unfolds(g, v, t)
    ensures |Slots(g[v.ref])| == |Children(t)|
    ensures forall i :: 0 <= i < |Children(t)| ==> SlotUnfolds(g, Slots(g[v.ref])[i], Children(t)[i], t)
  {
    forall i | 0 <= i < |Children(t)|
      ensures SlotUnfolds(g, Slots(g[v.ref])[i], Children(t)[i], t)
    {
      SlotWithin(g, v.ref, i);
      ChildSmaller(t, i);
    }
  }

  lemma {:induction false} UnfoldingWalks(g: Graph, v: Value, enclosing: map<Ref, Json>, t: Json)
    requires Closed(g) && Within(g, v) && Unfolds(g, v, t) && Enclosed(g, enclosing, Size(t))
    ensures Walk(g, v, enclosing.Keys) == Some(t)
    decreases t, 1, 0
  {
    hide Enclosed, Size, Closed, WalkSlots, Lossless, Admitted, SlotUnfolds;
    if v.Object? {
      EnclosedWith(g, enclosing, v, t);
      HolesRefused(g, v.ref, enclosing.Keys);
      var inside := enclosing[v.ref := t];
      assert inside.Keys == enclosing.Keys + {v.ref};
      ChildrenUnfold(g, v, t);
      SlotsWalk(g, Slots(g[v.ref]), Children(t), inside, t);
    }
  }

  lemma {:induction false} SlotsWalk(g: Graph, slots: seq<Option<Value>>, items: seq<Json>, inside: map<Ref, Json>,
      t: Json)
    requires Closed(g) && Enclosed(g, inside, Size(t) - 1) && |slots| == |items|
    requires forall i :: 0 <= i < |items| ==> SlotUnfolds(g, slots[i], items[i], t)
    ensures forall slot <- slots :: slot.Some? ==> Within(g, slot.value)
    ensures WalkSlots(g, slots, inside.Keys) == Some(items)
    decreases t, 0, |items|
  {
    hide Walk, Enclosed, Unfolds, Closed, Size;
    if slots != [] {
      assert SlotUnfolds(g, slots[0], items[0], t);
      EnclosedMore(g, inside, Size(t) - 1, Size(items[0]));
      UnfoldingWalks(g, slots[0].value, inside, items[0]);
      SlotsWalk(g, slots[1..], items[1..], inside, t);
      assert slots == [slots[0]] + slots[1..] && items == [items[0]] + items[1..];
    }
  }

  /** The walk accepts exactly the values with a finite JSON unfolding, and returns it. */
  lemma WalkIsUnfolding(g: Graph, v: Value, t: Json)
    requires Closed(g) && Within(g, v)
    ensures Walk(g, v, {}) == Some(t) <==> Unfolds(g, v, t)
  {
    if Walk(g, v, {}) == Some(t) {
      WalkUnfolds(g, v, {}, t);
    }
    if Unfolds(g, v, t) {
      var none: map<Ref, Json> := map[];
      assert none.Keys == {};
      UnfoldingWalks(g, v, none, t);
    }
  }

  // --- why a value is rejected --------------------------------------------------------------------------

  /** One value leads to another along a path of slots. */
  ghost predicate Leads(g: Graph, v: Value, path: seq<nat>, w: Value)
    requires Closed(g) && Within(g, v)
    decreases |path|
  {
    if path == [] then v == w
    else
      && v.Object? && path[0] < |Slots(g[v.ref])| && Slots(g[v.ref])[path[0]].Some?
      && (SlotWithin(g, v.ref, path[0]); Leads(g, Slots(g[v.ref])[path[0]].value, path[1..], w))
  }

  /** A leaf or a node that JSON cannot represent. */
  predicate Bad(g: Graph, v: Value) {
    if v.Object? then v.ref in g && !Lossless(g[v.ref]) else Leaf(v) == None
  }

  ghost predicate Cyclic(g: Graph, v: Value)
    requires Closed(g) && Within(g, v)
  {
    v.Object? && exists loop: seq<nat> :: loop != [] && Leads(g, v, loop, v)
  }

  ghost predicate Reaches(g: Graph, v: Value, path: seq<nat>, w: Value)
    requires Closed(g) && Within(g, v)
  {
    Within(g, w) && Leads(g, v, path, w)
  }

  /** What is reached from an unfolding is unfolded inside it. */
  lemma {:induction false} ReachedUnfolds(g: Graph, v: Value, path: seq<nat>, w: Value, t: Json) returns (inner: Json)
    requires Closed(g) && Within(g, v) && Unfolds(g, v, t) && Reaches(g, v, path, w)
    ensures Unfolds(g, w, inner) && Size(inner) <= Size(t) && (path != [] ==> Size(inner) < Size(t))
    decreases |path|
  {
    inner := t;
    if path != [] {
      SlotWithin(g, v.ref, path[0]);
      ChildSmaller(t, path[0]);
      inner := ReachedUnfolds(g, Slots(g[v.ref])[path[0]].value, path[1..], w, Children(t)[path[0]]);
    }
  }

  lemma {:induction false} WhyRefused(g: Graph, v: Value, ancestors: set<Ref>) returns (path: seq<nat>, w: Value)
    requires Closed(g) && Within(g, v) && Walk(g, v, ancestors) == None
    ensures Reaches(g, v, path, w) && (Bad(g, w) || (w.Object? && w.ref in ancestors) || Cyclic(g, w))
    decreases |g.Keys - ancestors|, 0, 0
  {
    path, w := [], v;
    if v.Object? && v.ref !in ancestors && Lossless(g[v.ref]) {
      HolesRefused(g, v.ref, ancestors);
      DeeperLeft(g, ancestors, v.ref);
      var slots := Slots(g[v.ref]);
      var i: nat, rest, x := WhySlotRefused(g, slots, ancestors + {v.ref});
      SlotWithin(g, v.ref, i);
      assert ([i] + rest)[1..] == rest;
      path, w := [i] + rest, x;
      if x == v {
        assert Leads(g, v, path, v);
      }
    }
  }

  lemma {:induction false} WhySlotRefused(g: Graph, slots: seq<Option<Value>>, ancestors: set<Ref>)
    returns (i: nat, path: seq<nat>, w: Value)
    requires Closed(g) && forall slot <- slots :: slot.Some? && Within(g, slot.value)
    requires WalkSlots(g, slots, ancestors) == None
    ensures i < |slots| && slots[i].Some? && Within(g, slots[i].value) && Reaches(g, slots[i].value, path, w)
    ensures Bad(g, w) || (w.Object? && w.ref in ancestors) || Cyclic(g, w)
    decreases |g.Keys - ancestors|, 1, |slots|
  {
    assert slots[0] in slots;
    if Walk(g, slots[0].value, ancestors) == None {
      i := 0;
      path, w := WhyRefused(g, slots[0].value, ancestors);
    } else {
      i, path, w := WhySlotRefused(g, slots[1..], ancestors);
      assert slots[1..][i] == slots[i + 1];
      i := i + 1;
    }
  }

  /** The walk refuses a value exactly when it reaches something JSON cannot represent, or a cycle. */
  lemma RefusesExactly(g: Graph, v: Value)
    requires Closed(g) && Within(g, v)
    ensures Walk(g, v, {}) == None <==> exists path, w :: Reaches(g, v, path, w) && (Bad(g, w) || Cyclic(g, w))
  {
    if Walk(g, v, {}) == None {
      var path, w := WhyRefused(g, v, {});
    } else if path, w :| Reaches(g, v, path, w) && (Bad(g, w) || Cyclic(g, w)) {
      var t := Walk(g, v, {}).value;
      WalkUnfolds(g, v, {}, t);
      var inner := ReachedUnfolds(g, v, path, w, t);
      if Cyclic(g, w) {
        var loop: seq<nat> :| loop != [] && Leads(g, w, loop, w);
        var again := ReachedUnfolds(g, w, loop, w, inner);
        UnfoldsOnce(g, w, inner, again);
      }
      assert false;
    }
  }
}
