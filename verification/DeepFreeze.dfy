/** Freezing everything reachable from a value, in place and without recursion; live abort signals stay mutable. */
module DeepFreeze {
  datatype Value = Primitive | Held(node: Node)

  class Node {
    const signal: bool
    const children: seq<Value>
    var frozen: bool

    constructor (signal: bool, children: seq<Value>)
      ensures this.signal == signal && this.children == children && !frozen
    {
      this.signal, this.children, frozen := signal, children, false;
    }
  }

  datatype Task = Visit(value: Value) | Property(source: Node, key: nat)

  /** A value leads to a node along enumerable properties without passing through an abort signal. */
  ghost predicate Leads(v: Value, path: seq<nat>, n: Node)
    decreases |path|
  {
    && v.Held? && !v.node.signal
    && if path == [] then v.node == n
       else path[0] < |v.node.children| && Leads(v.node.children[path[0]], path[1..], n)
  }

  ghost predicate Reaches(v: Value, n: Node) {
    exists path :: Leads(v, path, n)
  }

  lemma {:induction false} OneFurther(v: Value, path: seq<nat>, n: Node, key: nat)
    requires Leads(v, path, n) && key < |n.children| && n.children[key].Held? && !n.children[key].node.signal
    ensures Leads(v, path + [key], n.children[key].node)
    decreases |path|
  {
    if path == [] {
      assert ([key])[1..] == [];
    } else {
      assert (path + [key])[1..] == path[1..] + [key];
      OneFurther(v.node.children[path[0]], path[1..], n, key);
    }
  }

  /** A closed heap of nodes. */
  ghost predicate Holds(heap: set<Node>, v: Value) {
    v.Held? ==> v.node in heap
  }

  ghost predicate Closed(heap: set<Node>) {
    forall n <- heap, v <- n.children :: Holds(heap, v)
  }

  /** A value that freezing has nothing left to do for. */
  ghost predicate Done(v: Value, seen: set<Node>) {
    v.Held? && !v.node.signal ==> v.node in seen
  }

  /** A pending task concerns only what the root reaches. */
  ghost predicate Relevant(root: Value, heap: set<Node>, task: Task) {
    match task
    case Visit(v) => Holds(heap, v) && (v.Held? && !v.node.signal ==> Reaches(root, v.node))
    case Property(source, key) => source in heap && Reaches(root, source) && key < |source.children|
  }

  /** Every property of a frozen node is done or still pending. */
  ghost predicate Covered(seen: set<Node>, pending: seq<Task>) {
    forall n <- seen, k: nat {:trigger n.children[k]} :: k < |n.children| ==>
      Done(n.children[k], seen) || Visit(n.children[k]) in pending || Property(n, k) in pending
  }

  function Effort(pending: seq<Task>): nat {
    if pending == [] then 0
    else Effort(pending[..|pending| - 1]) + if pending[|pending| - 1].Property? then 2 else 1
  }

  /** Nodes that are covered with nothing pending contain everything that is reachable. */
  lemma {:induction false} ClosureHolds(v: Value, path: seq<nat>, n: Node, seen: set<Node>)
    requires Leads(v, path, n) && Done(v, seen) && Covered(seen, [])
    ensures n in seen
    decreases |path|
  {
    if path != [] {
      assert Done(v.node.children[path[0]], seen);
      ClosureHolds(v.node.children[path[0]], path[1..], n, seen);
    }
  }

  lemma FewerLeft(heap: set<Node>, seen: set<Node>, n: Node)
    requires n in heap && n !in seen
    ensures |heap - (seen + {n})| < |heap - seen|
  {
    assert heap - (seen + {n}) == heap - seen - {n};
  }

  /** Queue the properties of a node, so that they are taken in key order. */
  method PushProperties(pending: seq<Task>, node: Node) returns (r: seq<Task>)
    ensures pending <= r
    ensures forall task <- r :: task in pending || (task.Property? && task.source == node && task.key < |node.children|)
    ensures forall k: nat :: k < |node.children| ==> Property(node, k) in r
  {
    r := pending;
    var index := |node.children|;
    while index > 0
      invariant 0 <= index <= |node.children| && pending <= r
      invariant forall task <- r ::
                task in pending || (task.Property? && task.source == node && task.key < |node.children|)
      invariant forall k: nat :: index <= k < |node.children| ==> Property(node, k) in r
    {
      index := index - 1;
      r := r + [Property(node, index)];
    }
  }

  /** What the traversal keeps: only reached nodes and relevant tasks, nothing of a seen node forgotten. */
  ghost predicate Traversing(root: Value, heap: set<Node>, seen: set<Node>, pending: seq<Task>) {
    && seen <= heap && (forall n <- seen :: Reaches(root, n))
    && (forall task <- pending :: Relevant(root, heap, task))
    && Covered(seen, pending) && (Done(root, seen) || Visit(root) in pending)
  }

  lemma Starts(root: Value, heap: set<Node>)
    requires Holds(heap, root)
    ensures Traversing(root, heap, {}, [Visit(root)])
  {
    if root.Held? && !root.node.signal {
      assert Leads(root, [], root.node);
    }
  }

  /** Reading a property replaces its task by a visit. */
  lemma ReadsProperty(root: Value, heap: set<Node>, seen: set<Node>, rest: seq<Task>, source: Node, key: nat)
    requires Closed(heap) && Traversing(root, heap, seen, rest + [Property(source, key)])
    ensures key < |source.children| && Traversing(root, heap, seen, rest + [Visit(source.children[key])])
  {
    assert Property(source, key) in rest + [Property(source, key)];
    assert Relevant(root, heap, Property(source, key));
    PropertyRead(root, heap, source, key);
    assert forall task :: task in rest + [Visit(source.children[key])] <==>
        task in rest || task == Visit(source.children[key]);
    ReadCovers(seen, rest, source, key);
  }

  lemma ReadCovers(seen: set<Node>, rest: seq<Task>, source: Node, key: nat)
    requires key < |source.children| && Covered(seen, rest + [Property(source, key)])
    ensures Covered(seen, rest + [Visit(source.children[key])])
  {
  }

  lemma PropertyRead(root: Value, heap: set<Node>, source: Node, key: nat)
    requires Closed(heap) && Relevant(root, heap, Property(source, key))
    ensures Relevant(root, heap, Visit(source.children[key]))
  {
    var path :| Leads(root, path, source);
    assert source.children[key] in source.children;
    if source.children[key].Held? && !source.children[key].node.signal {
      OneFurther(root, path, source, key);
    }
  }

  /** Visiting a new node queues all its properties. */
  lemma VisitsNode(root: Value, heap: set<Node>, seen: set<Node>, rest: seq<Task>, v: Value, pending: seq<Task>)
    requires Traversing(root, heap, seen, rest + [Visit(v)]) && v.Held? && !v.node.signal && rest <= pending
    requires forall task <- pending ::
             task in rest || (task.Property? && task.source == v.node && task.key < |v.node.children|)
    requires forall k: nat :: k < |v.node.children| ==> Property(v.node, k) in pending
    ensures v.node in heap && Traversing(root, heap, seen + {v.node}, pending)
  {
    assert Visit(v) in rest + [Visit(v)] && Relevant(root, heap, Visit(v));
    assert forall task :: task in rest ==> task in pending && task in rest + [Visit(v)];
  }

  lemma Skips(root: Value, heap: set<Node>, seen: set<Node>, rest: seq<Task>, v: Value)
    requires Traversing(root, heap, seen, rest + [Visit(v)]) && Done(v, seen)
    ensures Traversing(root, heap, seen, rest)
  {
    assert forall task :: task in rest ==> task in rest + [Visit(v)];
  }

  /** With nothing pending, the seen nodes are exactly the reachable ones. */
  lemma Ends(root: Value, heap: set<Node>, seen: set<Node>)
    requires Traversing(root, heap, seen, [])
    ensures forall n :: n in seen <==> n in heap && Reaches(root, n)
  {
    forall n | n in heap && Reaches(root, n)
      ensures n in seen
    {
      var path :| Leads(root, path, n);
      ClosureHolds(root, path, n, seen);
    }
  }

  lemma EffortLast(pending: seq<Task>, task: Task)
    ensures Effort(pending + [task]) == Effort(pending) + if task.Property? then 2 else 1
  {
    assert (pending + [task])[..|pending|] == pending;
  }

  lemma TaskInHeap(root: Value, heap: set<Node>, seen: set<Node>, rest: seq<Task>, v: Value)
    requires Traversing(root, heap, seen, rest + [Visit(v)]) && v.Held?
    ensures v.node in heap
  {
    assert Visit(v) in rest + [Visit(v)] && Relevant(root, heap, Visit(v));
  }

  /** Exactly the reachable nodes become frozen, on any graph, cycles included. */
  method Freeze(value: Value, ghost heap: set<Node>)
    requires Closed(heap) && Holds(heap, value)
    modifies heap
    ensures forall n <- heap :: n.frozen <==> old(n.frozen) || Reaches(value, n)
  {
    hide Traversing, Covered, Relevant, Reaches, Effort, Closed;
    var seen: set<Node> := {};
    var pending := [Visit(value)];
    Starts(value, heap);
    while pending != []
      invariant Traversing(value, heap, seen, pending)
      invariant forall n <- heap :: n.frozen <==> old(n.frozen) || n in seen
      decreases |heap - seen|, Effort(pending)
    {
      var task, rest := pending[|pending| - 1], pending[..|pending| - 1];
      assert pending == rest + [task];
      EffortLast(rest, task);
      match task
      case Property(source, key) =>
        ReadsProperty(value, heap, seen, rest, source, key);
        pending := rest + [Visit(source.children[key])];
        EffortLast(rest, Visit(source.children[key]));
      case Visit(v) =>
        if v.Held? && !v.node.signal && v.node !in seen {
          TaskInHeap(value, heap, seen, rest, v);
          FewerLeft(heap, seen, v.node);
          v.node.frozen := true;
          pending := PushProperties(rest, v.node);
          VisitsNode(value, heap, seen, rest, v, pending);
          seen := seen + {v.node};
        } else {
          Skips(value, heap, seen, rest, v);
          pending := rest;
        }
    }
    Ends(value, heap, seen);
  }
}
