/** The explicit-stack walk that validates and detaches lossless JSON from an arbitrary object graph. */
module JsonWalk {
  import opened Options

  type Ref = nat

  /** A JavaScript value as the walk sees it. */
  datatype Value =
    | Null
    | Bool(flag: bool)
    | Text(text: string)
    | Number(number: real)
    | OddNumber // not finite, or negative zero
    | Object(ref: Ref)
    | Unserializable // undefined, a function, a symbol or a bigint

  /** An array may have holes and properties beside its elements; an object may have keys JSON would discard. */
  datatype Node =
    | ArrayNode(plain: bool, extraKeys: nat, elements: seq<Option<Value>>)
    | ObjectNode(plain: bool, oddKeys: bool, keys: seq<string>, values: seq<Value>)

  type Graph = map<Ref, Node>

  datatype Json =
    | JNull
    | JBool(flag: bool)
    | JText(text: string)
    | JNumber(number: real)
    | JArray(items: seq<Json>)
    | JObject(keys: seq<string>, values: seq<Json>)

  function Present(elements: seq<Option<Value>>): (n: nat)
    ensures n <= |elements| && (n == |elements| <==> forall e <- elements :: e.Some?)
  {
    if elements == [] then 0
    else
      assert forall e :: e in elements <==> e == elements[0] || e in elements[1..];
      (if elements[0].Some? then 1 else 0) + Present(elements[1..])
  }

  /** What a node must look like before its slots are read: an array's own keys are its indices and its length. */
  predicate Admitted(node: Node) {
    match node
    case ArrayNode(plain, extraKeys, elements) => plain && Present(elements) + extraKeys + 1 == |elements| + 1
    case ObjectNode(plain, oddKeys, keys, values) => plain && !oddKeys
  }

  function Slots(node: Node): seq<Option<Value>> {
    match node
    case ArrayNode(_, _, elements) => elements
    case ObjectNode(_, _, _, values) => seq(|values|, i requires 0 <= i < |values| => Some(values[i]))
  }

  function Build(node: Node, items: seq<Json>): Json {
    match node
    case ArrayNode(_, _, _) => JArray(items)
    case ObjectNode(_, _, keys, _) => JObject(keys, items)
  }

  /** Every reference leads to a node, and every object has a value for each of its keys. */
  ghost predicate Closed(g: Graph) {
    forall r <- g ::
      && (g[r].ObjectNode? ==> |g[r].keys| == |g[r].values|)
      && forall slot <- Slots(g[r]) :: slot.Some? && slot.value.Object? ==> slot.value.ref in g
  }

  ghost predicate Within(g: Graph, v: Value) {
    v.Object? ==> v.ref in g
  }

  // --- the recursive meaning ----------------------------------------------------------------------------

  function Leaf(v: Value): Option<Json>
    requires !v.Object?
  {
    match v
    case Null => Some(JNull)
    case Bool(flag) => Some(JBool(flag))
    case Text(text) => Some(JText(text))
    case Number(number) => Some(JNumber(number))
    case _ => None
  }

  lemma DeeperLeft(g: Graph, ancestors: set<Ref>, r: Ref)
    requires r in g && r !in ancestors
    ensures |g.Keys - (ancestors + {r})| < |g.Keys - ancestors|
  {
    assert g.Keys - (ancestors + {r}) == g.Keys - ancestors - {r};
  }

  ghost function Walk(g: Graph, v: Value, ancestors: set<Ref>): Option<Json>
    requires Closed(g) && Within(g, v)
    decreases |g.Keys - ancestors|, 0, 0
  {
    if !v.Object? then Leaf(v)
    else if v.ref in ancestors || !Admitted(g[v.ref]) then None
    else
      DeeperLeft(g, ancestors, v.ref);
      match WalkSlots(g, Slots(g[v.ref]), ancestors + {v.ref})
      case None => None
      case Some(items) => Some(Build(g[v.ref], items))
  }

  ghost function WalkSlots(g: Graph, slots: seq<Option<Value>>, ancestors: set<Ref>): Option<seq<Json>>
    requires Closed(g) && forall slot <- slots :: slot.Some? ==> Within(g, slot.value)
    decreases |g.Keys - ancestors|, 1, |slots|
  {
    if slots == [] then Some([])
    else if slots[0].None? then None
    else
      match Walk(g, slots[0].value, ancestors)
      case None => None
      case Some(first) =>
        match WalkSlots(g, slots[1..], ancestors)
        case None => None
        case Some(rest) => Some([first] + rest)
  }

  /** How many visits a value takes; shared nodes are visited again, ancestors are not. */
  ghost function Cost(g: Graph, v: Value, ancestors: set<Ref>): (n: nat)
    requires Closed(g) && Within(g, v)
    ensures n > 0
    decreases |g.Keys - ancestors|, 0, 0
  {
    if !v.Object? || v.ref in ancestors then 1
    else
      DeeperLeft(g, ancestors, v.ref);
      2 + CostSlots(g, Slots(g[v.ref]), ancestors + {v.ref})
  }

  ghost function CostSlots(g: Graph, slots: seq<Option<Value>>, ancestors: set<Ref>): nat
    requires Closed(g) && forall slot <- slots :: slot.Some? ==> Within(g, slot.value)
    decreases |g.Keys - ancestors|, 1, |slots|
  {
    if slots == [] || slots[0].None? then 0
    else Cost(g, slots[0].value, ancestors) + CostSlots(g, slots[1..], ancestors)
  }

  // --- the stack ----------------------------------------------------------------------------------------

  /** An open array or object, how many of its slots are read, and the copies of those. */
  datatype Frame = Frame(source: Ref, index: nat, items: seq<Json>)

  function Sources(frames: seq<Frame>): set<Ref> {
    if frames == [] then {} else Sources(frames[..|frames| - 1]) + {frames[|frames| - 1].source}
  }

  ghost predicate Stacked(g: Graph, frames: seq<Frame>) {
    && (forall frame <- frames :: frame.source in g && frame.index <= |Slots(g[frame.source])|)
    && forall i, j :: 0 <= i < j < |frames| ==> frames[i].source != frames[j].source
  }

  /** What the whole walk gives once the top frame reads its remaining slots. */
  ghost function Complete(g: Graph, frames: seq<Frame>): Option<Json>
    requires Closed(g) && Stacked(g, frames) && frames != []
    decreases |frames|, 0
  {
    var top := frames[|frames| - 1];
    match WalkSlots(g, Slots(g[top.source])[top.index..], Sources(frames))
    case None => None
    case Some(rest) => Deliver(g, frames[..|frames| - 1], Build(g[top.source], top.items + rest))
  }

  /** What the whole walk gives once a value is handed to the top frame. */
  ghost function Deliver(g: Graph, frames: seq<Frame>, item: Json): Option<Json>
    requires Closed(g) && Stacked(g, frames)
    decreases |frames|, 1
  {
    if frames == [] then Some(item) else Complete(g, Assign(frames, item))
  }

  function Assign(frames: seq<Frame>, item: Json): (r: seq<Frame>)
    requires frames != []
    ensures |r| == |frames|
  {
    var top := frames[|frames| - 1];
    frames[..|frames| - 1] + [top.(items := top.items + [item])]
  }

  ghost function Visit(g: Graph, frames: seq<Frame>, v: Value): Option<Json>
    requires Closed(g) && Stacked(g, frames) && Within(g, v)
  {
    match Walk(g, v, Sources(frames))
    case None => None
    case Some(item) => Deliver(g, frames, item)
  }

  ghost function Remaining(g: Graph, frames: seq<Frame>): nat
    requires Closed(g) && Stacked(g, frames)
  {
    if frames == [] then 0
    else
      var top := frames[|frames| - 1];
      Remaining(g, frames[..|frames| - 1]) + 1 + CostSlots(g, Slots(g[top.source])[top.index..], Sources(frames))
  }

  lemma {:induction false} SourcesOf(frames: seq<Frame>)
    ensures forall r :: r in Sources(frames) <==> exists frame :: frame in frames && frame.source == r
  {
    if frames != [] {
      SourcesOf(frames[..|frames| - 1]);
      assert frames == frames[..|frames| - 1] + [frames[|frames| - 1]];
    }
  }

  lemma Top(g: Graph, below: seq<Frame>, top: Frame)
    requires Closed(g) && Stacked(g, below + [top])
    ensures Stacked(g, below) && top.source in g && top.index <= |Slots(g[top.source])|
    ensures Sources(below + [top]) == Sources(below) + {top.source} && top.source !in Sources(below)
    ensures Remaining(g, below + [top])
            == Remaining(g, below) + 1 + CostSlots(g, Slots(g[top.source])[top.index..], Sources(below + [top]))
    ensures Complete(g, below + [top])
            == match WalkSlots(g, Slots(g[top.source])[top.index..], Sources(below + [top]))
               case None => None
               case Some(rest) => Deliver(g, below, Build(g[top.source], top.items + rest))
  {
    assert (below + [top])[..|below|] == below;
    StackedBelow(g, below, top);
  }

  lemma StackedBelow(g: Graph, below: seq<Frame>, top: Frame)
    requires Stacked(g, below + [top])
    ensures Stacked(g, below) && top.source in g && top.index <= |Slots(g[top.source])| && top.source !in Sources(below)
  {
    assert forall frame :: frame in below + [top] <==> frame in below || frame == top;
    SourcesOf(below);
    forall i, j | 0 <= i < j < |below|
      ensures below[i].source != below[j].source
    {
      assert (below + [top])[i] == below[i] && (below + [top])[j] == below[j];
    }
    forall frame <- below
      ensures frame.source != top.source
    {
      var i :| 0 <= i < |below| && below[i] == frame;
      assert (below + [top])[i] == frame && (below + [top])[|below|] == top;
    }
  }

  /** The top frame may change in what it has read. */
  lemma StackedTop(g: Graph, below: seq<Frame>, top: Frame, changed: Frame)
    requires Stacked(g, below + [top]) && changed.source == top.source
    requires top.source in g ==> changed.index <= |Slots(g[top.source])|
    ensures Stacked(g, below + [changed])
  {
    var frames, after := below + [top], below + [changed];
    assert forall frame :: frame in frames <==> frame in below || frame == top;
    assert forall frame :: frame in after <==> frame in below || frame == changed;
    forall i, j | 0 <= i < j < |after|
      ensures after[i].source != after[j].source
    {
      assert frames[i].source == after[i].source && frames[j].source == after[j].source;
    }
  }

  lemma StackedPush(g: Graph, frames: seq<Frame>, r: Ref)
    requires Stacked(g, frames) && r in g && r !in Sources(frames)
    ensures Stacked(g, frames + [Frame(r, 0, [])])
  {
    var after := frames + [Frame(r, 0, [])];
    assert forall frame :: frame in after <==> frame in frames || frame == Frame(r, 0, []);
    SourcesOf(frames);
    forall i, j | 0 <= i < j < |after|
      ensures after[i].source != after[j].source
    {
      assert frames[i] in frames;
    }
  }

  /** The top frame takes its next slot: a hole ends the walk, a value is visited. */
  lemma TakeSlot(g: Graph, below: seq<Frame>, top: Frame)
    requires Closed(g) && Stacked(g, below + [top]) && top.source in g && top.index < |Slots(g[top.source])|
    ensures var slot := Slots(g[top.source])[top.index];
            var after := below + [top.(index := top.index + 1)];
            && Stacked(g, after) && Sources(after) == Sources(below + [top])
            && (slot.None? ==> Complete(g, below + [top]) == None)
            && (slot.Some? ==> Within(g, slot.value) && Complete(g, below + [top]) == Visit(g, after, slot.value)
                               && Remaining(g, below + [top]) == Cost(g, slot.value, Sources(after))
                                   + Remaining(g, after))
  {
    hide Complete, Remaining, Sources, Slots, Stacked, Closed, Walk, Cost;
    var slots := Slots(g[top.source]);
    var slot := slots[top.index];
    var next := top.(index := top.index + 1);
    assert slots[top.index..][1..] == slots[top.index + 1..];
    assert slots[top.index..][0] == slot;
    StackedTop(g, below, top, next);
    Top(g, below, top);
    Top(g, below, next);
    if slot.Some? {
      SlotWithin(g, top.source, top.index);
      match Walk(g, slot.value, Sources(below + [top]))
      case None =>
      case Some(first) =>
        Hand(g, below, next, first);
        SlotsWithin(g, top.source, top.index + 1);
        match WalkSlots(g, slots[top.index + 1..], Sources(below + [top]))
        case None =>
        case Some(rest) =>
          assert top.items + ([first] + rest) == top.items + [first] + rest;
    }
  }

  lemma SlotsWithin(g: Graph, r: Ref, index: nat)
    requires Closed(g) && r in g && index <= |Slots(g[r])|
    ensures forall slot <- Slots(g[r])[index..] :: slot.Some? ==> Within(g, slot.value)
  {
  }

  lemma SlotWithin(g: Graph, r: Ref, i: nat)
    requires Closed(g) && r in g && i < |Slots(g[r])| && Slots(g[r])[i].Some?
    ensures Within(g, Slots(g[r])[i].value)
  {
    assert Slots(g[r])[i] in Slots(g[r]);
  }

  /** Handing a value to the top frame. */
  lemma Hand(g: Graph, below: seq<Frame>, top: Frame, item: Json)
    requires Closed(g) && Stacked(g, below + [top])
    ensures var after := below + [top.(items := top.items + [item])];
            && Assign(below + [top], item) == after && Stacked(g, after) && Sources(after) == Sources(below + [top])
            && Deliver(g, below + [top], item) == Complete(g, after)
            && Remaining(g, after) == Remaining(g, below + [top])
            && Complete(g, after)
               == match WalkSlots(g, Slots(g[top.source])[top.index..], Sources(below + [top]))
                  case None => None
                  case Some(rest) => Deliver(g, below, Build(g[top.source], top.items + [item] + rest))
  {
    hide Complete, Remaining, Sources, Slots, Stacked, Closed, WalkSlots, CostSlots;
    var after := below + [top.(items := top.items + [item])];
    StackedBelow(g, below, top);
    StackedTop(g, below, top, top.(items := top.items + [item]));
    Top(g, below, top);
    Top(g, below, top.(items := top.items + [item]));
    assert (below + [top])[..|below|] == below;
  }

  /** Opening an array or object. */
  lemma Open(g: Graph, frames: seq<Frame>, r: Ref)
    requires Closed(g) && Stacked(g, frames) && r in g && r !in Sources(frames) && Admitted(g[r])
    ensures var after := frames + [Frame(r, 0, [])];
            && Stacked(g, after) && Sources(after) == Sources(frames) + {r}
            && Visit(g, frames, Object(r)) == Complete(g, after)
            && Remaining(g, after) < Cost(g, Object(r), Sources(frames)) + Remaining(g, frames)
  {
    hide Complete, Remaining, Sources, Slots, Stacked, Closed, Admitted, Deliver;
    StackedPush(g, frames, r);
    Top(g, frames, Frame(r, 0, []));
    assert Slots(g[r])[0..] == Slots(g[r]);
    SlotsWithin(g, r, 0);
    match WalkSlots(g, Slots(g[r]), Sources(frames) + {r})
    case None =>
    case Some(items) => assert [] + items == items;
  }

  /** Closing an array or object that has no slot left. */
  lemma Close(g: Graph, below: seq<Frame>, top: Frame)
    requires Closed(g) && Stacked(g, below + [top]) && top.source in g && top.index >= |Slots(g[top.source])|
    ensures Stacked(g, below) && Sources(below) == Sources(below + [top]) - {top.source}
    ensures Complete(g, below + [top]) == Deliver(g, below, Build(g[top.source], top.items))
    ensures Remaining(g, below) < Remaining(g, below + [top])
  {
    hide Complete, Remaining, Sources, Stacked, Closed, Deliver;
    Top(g, below, top);
    assert Slots(g[top.source])[top.index..] == [];
    assert top.items + [] == top.items;
  }

  // --- the walk itself ----------------------------------------------------------------------------------

  /** Validate lossless JSON with an explicit stack, optionally detaching a copy. */
  method WalkJsonValue(g: Graph, value: Value, detach: bool) returns (valid: bool, copy: Option<Json>)
    requires Closed(g) && Within(g, value)
    ensures valid <==> Walk(g, value, {}).Some?
    ensures valid && detach ==> copy == Walk(g, value, {})
    ensures !(valid && detach) ==> copy == None
  {
    hide Walk, WalkSlots, Cost, CostSlots, Complete, Deliver, Remaining, Sources, Stacked, Slots, Closed;
    var ancestors: set<Ref> := {};
    var frames: seq<Frame> := [];
    var current := value;
    NoFrames(g);
    while true
      invariant Stacked(g, frames) && Within(g, current) && ancestors == Sources(frames)
      invariant Walk(g, value, {}) == Visit(g, frames, current)
      decreases Cost(g, current, Sources(frames)) + Remaining(g, frames)
    {
      ghost var before := Cost(g, current, Sources(frames)) + Remaining(g, frames);
      var root: Option<Json> := None;
      if !current.Object? {
        var leaf := Leaf(current);
        LeafVisit(g, frames, current);
        if leaf.None? {
          return false, None;
        }
        root, frames := Place(g, frames, leaf.value);
      } else {
        if current.ref in ancestors || !Admitted(g[current.ref]) {
          Refused(g, frames, current);
          return false, None;
        }
        Open(g, frames, current.ref);
        frames := frames + [Frame(current.ref, 0, [])];
        ancestors := ancestors + {current.ref};
      }
      while true
        invariant Stacked(g, frames) && ancestors == Sources(frames) && Remaining(g, frames) < before
        invariant if frames == [] then root.Some? && Walk(g, value, {}) == root
                  else Walk(g, value, {}) == Complete(g, frames)
        decreases Remaining(g, frames)
      {
        if frames == [] {
          return true, if detach then root else None;
        }
        var below, frame := frames[..|frames| - 1], frames[|frames| - 1];
        assert frames == below + [frame];
        StackedBelow(g, below, frame);
        if frame.index >= |Slots(g[frame.source])| {
          Close(g, below, frame);
          ancestors := ancestors - {frame.source};
          root, frames := Place(g, below, Build(g[frame.source], frame.items));
          continue;
        }
        var slot := Slots(g[frame.source])[frame.index];
        TakeSlot(g, below, frame);
        if slot.None? {
          return false, None;
        }
        frames := below + [frame.(index := frame.index + 1)];
        current := slot.value;
        break;
      }
    }
  }

  /** Give a finished copy to the open frame, or make it the whole result. */
  method Place(ghost g: Graph, frames: seq<Frame>, item: Json) returns (root: Option<Json>, after: seq<Frame>)
    requires Closed(g) && Stacked(g, frames)
    ensures Stacked(g, after) && Sources(after) == Sources(frames) && Remaining(g, after) == Remaining(g, frames)
    ensures if after == [] then root.Some? && Deliver(g, frames, item) == root
            else Deliver(g, frames, item) == Complete(g, after)
  {
    hide Complete, Remaining, Sources, Slots, Stacked, Closed;
    if frames == [] {
      return Some(item), frames;
    }
    assert frames == frames[..|frames| - 1] + [frames[|frames| - 1]];
    Hand(g, frames[..|frames| - 1], frames[|frames| - 1], item);
    return None, Assign(frames, item);
  }

  lemma NoFrames(g: Graph)
    requires Closed(g)
    ensures Stacked(g, []) && Sources([]) == {}
    ensures forall v :: Within(g, v) ==> Visit(g, [], v) == Walk(g, v, {})
  {
  }

  lemma LeafVisit(g: Graph, frames: seq<Frame>, v: Value)
    requires Closed(g) && Stacked(g, frames) && !v.Object?
    ensures Visit(g, frames, v) == if Leaf(v).None? then None else Deliver(g, frames, Leaf(v).value)
    ensures Cost(g, v, Sources(frames)) > 0
  {
  }

  lemma Refused(g: Graph, frames: seq<Frame>, v: Value)
    requires Closed(g) && Stacked(g, frames) && Within(g, v) && v.Object?
    requires v.ref in Sources(frames) || !Admitted(g[v.ref])
    ensures Visit(g, frames, v) == None
  {
  }
}
