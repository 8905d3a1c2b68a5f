/** The control stream and its rivals, replicating one Host generation's projections into one client store. */
module ProjectionReplication {
  import opened Options
  import opened ProjectionStore

  type Values = map<Key, Value>

  /** A control message names only what the Host reads when it is sent. */
  datatype Message = Baseline(asOf: int, values: Values) | Update(seqNo: int, changes: Values)

  /** Frames wait here between the Host and one control stream. */
  class ControlQueue {
    var buffer: seq<Message>
    var done: bool

    constructor ()
      ensures buffer == [] && !done
    {
      buffer, done := [], false;
    }

    method Push(frame: Message)
      modifies this
      ensures done == old(done) && buffer == if done then old(buffer) else old(buffer) + [frame]
    {
      if done {
        return;
      }
      buffer := buffer + [frame];
    }

    method End()
      modifies this
      ensures done && buffer == old(buffer)
    {
      done := true;
    }

    /** The next frame in order, also after the end; absent only when none is left. */
    method Next() returns (frame: Option<Message>)
      modifies this
      ensures done == old(done)
      ensures if old(buffer) == [] then frame == None && buffer == []
              else frame == Some(old(buffer)[0]) && buffer == old(buffer)[1..]
    {
      if buffer == [] {
        return None;
      }
      frame := Some(buffer[0]);
      buffer := buffer[1..];
    }
  }

  /** Whether the control stream carries the Session, and since when: its own start, or a later attachment. */
  datatype Stream = Silent | FromBaseline | FromAttach(since: int)

  /**
   The Host's projections after each event, the messages one control stream still holds, and the client's rows.
   `history[s + 1]` is the Host's view as of seq `s`.
   */
  datatype World = World(history: seq<Values>, queue: seq<Message>, rows: Rows, stream: Stream)
  {
    function Cursor(): int {
      |history| - 2
    }

    function At(s: int): Values
      requires -1 <= s <= Cursor()
    {
      history[s + 1]
    }

    function Table(): set<Key>
      requires history != []
    {
      history[0].Keys
    }
  }

  datatype Step =
    | HostEvent(next: Values, changed: set<Key>) // one event; its frame lists every key it changed
    | OpenControl // a new control stream begins with the Host's present values
    | Attach // the Session is attached while a control stream is open: updates follow, but no baseline of it
    | DeliverControl // the client takes the next message of its control stream
    | FollowSeed(asOf: int) // a history page's baseline, of any age
    | ListSequenced(asOf: int, keys: set<Key>) // a list block of an attached Session, or a rename receipt
    | ListCached(values: Values) // a list block read from the persisted checkpoint

  function Restrict(values: Values, keys: set<Key>): Values {
    map k | k in values && k in keys :: values[k]
  }

  /** What can happen next: one key table, truthful messages of any age, cached blocks of that table. */
  predicate Possible(w: World, step: Step) {
    && w.history != []
    && match step
       case HostEvent(next, changed) =>
         && next.Keys == w.Table() && changed <= w.Table()
         && (forall k <- w.Table() ::
           k in w.history[|w.history| - 1] && (next[k] != w.history[|w.history| - 1][k] ==> k in changed))
       case OpenControl => true
       case Attach => w.stream.Silent?
       case DeliverControl => w.queue != []
       case FollowSeed(asOf) => -1 <= asOf <= w.Cursor()
       case ListSequenced(asOf, keys) => -1 <= asOf <= w.Cursor()
       case ListCached(values) => values.Keys <= w.Table()
  }

  function Take(rows: Rows, m: Message): Rows {
    match m
    case Baseline(asOf, values) => Seeded(rows, values, asOf)
    case Update(seqNo, changes) => Applied(rows, changes, seqNo)
  }

  function Next(w: World, step: Step): World
    requires Possible(w, step)
  {
    match step
    case HostEvent(next, changed) =>
      w.(history := w.history + [next],
         queue := if w.stream.Silent? then w.queue else w.queue + [Update(w.Cursor() + 1, Restrict(next, changed))])
    case OpenControl => w.(queue := [Baseline(w.Cursor(), w.At(w.Cursor()))], stream := FromBaseline)
    case Attach => w.(queue := [], stream := FromAttach(w.Cursor()))
    case DeliverControl => w.(queue := w.queue[1..], rows := Take(w.rows, w.queue[0]))
    case FollowSeed(asOf) => w.(rows := Seeded(w.rows, w.At(asOf), asOf))
    case ListSequenced(asOf, keys) => w.(rows := Applied(w.rows, Restrict(w.At(asOf), keys), asOf))
    case ListCached(values) => w.(rows := Filled(w.rows, values))
  }

  // --- what every step keeps ------------------------------------------------------------------------

  /** One key table throughout. */
  ghost predicate OneTable(w: World) {
    w.history != [] && forall i :: 0 <= i < |w.history| ==> w.history[i].Keys == w.Table()
  }

  /** Every sequenced row holds the Host's value at its seq; every other row is a cached key of the table. */
  ghost predicate Truthful(w: World)
    requires OneTable(w)
  {
    forall k <- w.rows ::
      k in w.Table() && (w.rows[k].Sequenced? ==>
          -1 <= w.rows[k].seqNo <= w.Cursor() && w.At(w.rows[k].seqNo)[k] == w.rows[k].value)
  }

  ghost predicate TruthfulMessage(w: World, m: Message)
    requires OneTable(w)
  {
    match m
    case Baseline(asOf, values) => -1 <= asOf <= w.Cursor() && values == w.At(asOf)
    case Update(seqNo, changes) =>
      -1 <= seqNo <= w.Cursor() && forall k <- changes :: k in w.Table() && changes[k] == w.At(seqNo)[k]
  }

  /** The key changed at this event. */
  ghost predicate Changed(w: World, k: Key, s: int)
    requires OneTable(w) && k in w.Table()
  {
    0 <= s <= w.Cursor() && w.At(s)[k] != w.At(s - 1)[k]
  }

  /** Some waiting update carries the key's value at this event. */
  ghost predicate Waiting(queue: seq<Message>, k: Key, s: int) {
    exists i :: 0 <= i < |queue| && queue[i].Update? && queue[i].seqNo == s && k in queue[i].changes
  }

  /** Every change of a key after a seq is still on its way. */
  ghost predicate OnItsWay(w: World, queue: seq<Message>, k: Key, after: int)
    requires OneTable(w) && k in w.Table()
  {
    forall s :: s > after && Changed(w, k, s) ==> Waiting(queue, k, s)
  }

  /** The seq from which on the stream, beside a row, accounts for every change of its key. */
  function Floor(stream: Stream, row: Option<Row>): Option<int> {
    var sequenced := row.Some? && row.value.Sequenced?;
    match stream
    case Silent => None
    case FromBaseline => if sequenced then Some(row.value.seqNo) else None
    case FromAttach(since) => Some(if sequenced && row.value.seqNo > since then row.value.seqNo else since)
  }

  /** Every change of a key is in its row, or still on its way. */
  ghost predicate Covered(w: World, k: Key)
    requires OneTable(w) && k in w.Table()
  {
    if w.queue != [] && w.queue[0].Baseline? then OnItsWay(w, w.queue, k, w.queue[0].asOf)
    else
      var floor := Floor(w.stream, Get(w.rows, k));
      floor.Some? && OnItsWay(w, w.queue, k, floor.value)
  }

  ghost predicate Sound(w: World) {
    && OneTable(w) && Truthful(w)
    && (forall m <- w.queue :: TruthfulMessage(w, m))
    && (forall i :: 0 < i < |w.queue| ==> w.queue[i].Update?)
    && (!w.stream.Silent? ==> forall k <- w.Table() :: Covered(w, k))
    && (w.stream.FromAttach? ==> -1 <= w.stream.since <= w.Cursor())
  }

  lemma EventSound(w: World, step: Step)
    requires Sound(w) && Possible(w, step) && step.HostEvent?
    ensures Sound(Next(w, step))
  {
    var next := Next(w, step);
    assert forall s | -1 <= s <= w.Cursor() :: next.At(s) == w.At(s);
    if !w.stream.Silent? {
      forall k <- w.Table()
        ensures Covered(next, k)
      {
        assert Covered(w, k);
        var baseline := w.queue != [] && w.queue[0].Baseline?;
        var after := if baseline then w.queue[0].asOf else Floor(w.stream, Get(w.rows, k)).value;
        LaterStillOnItsWay(w, next, k, after, step.changed);
      }
    }
  }

  lemma LaterStillOnItsWay(w: World, next: World, k: Key, after: int, changed: set<Key>)
    requires OneTable(w) && OneTable(next) && k in w.Table() && OnItsWay(w, w.queue, k, after)
    requires |next.history| == |w.history| + 1 && next.history[..|w.history|] == w.history
    requires next.queue == w.queue + [Update(next.Cursor(), Restrict(next.history[|w.history|], changed))]
    requires next.history[|w.history|][k] != w.history[|w.history| - 1][k] ==> k in changed
    ensures OnItsWay(next, next.queue, k, after)
  {
    forall s | s > after && Changed(next, k, s)
      ensures Waiting(next.queue, k, s)
    {
      if s == next.Cursor() {
        assert next.queue[|w.queue|].seqNo == s;
      } else {
        assert Changed(w, k, s);
        var i :| 0 <= i < |w.queue| && w.queue[i].Update? && w.queue[i].seqNo == s && k in w.queue[i].changes;
        assert next.queue[i] == w.queue[i];
      }
    }
  }

  lemma TakeTruthful(w: World, m: Message)
    requires OneTable(w) && Truthful(w) && TruthfulMessage(w, m)
    ensures Truthful(w.(rows := Take(w.rows, m)))
  {
  }

  /** A row that advances raises its floor. */
  lemma FloorRises(stream: Stream, row: Option<Row>, later: Option<Row>)
    requires row.Some? && row.value.Sequenced? ==>
               later.Some? && later.value.Sequenced? && later.value.seqNo >= row.value.seqNo
    ensures var a, b := Floor(stream, row), Floor(stream, later);
            a.Some? ==> b.Some? && b.value >= a.value
  {
  }

  /** Taking the head message raises a key's floor, at least to what the message says of the key. */
  lemma TakenFloor(w: World, k: Key)
    requires Sound(w) && w.queue != [] && !w.stream.Silent? && k in w.Table()
    ensures var m := w.queue[0];
            var before, after := Floor(w.stream, Get(w.rows, k)), Floor(w.stream, Get(Take(w.rows, m), k));
            && after.Some?
            && (m.Baseline? ==> after.value >= m.asOf)
            && (m.Update? ==> before.Some? && after.value >= before.value
                              && (k in m.changes ==> after.value >= m.seqNo))
  {
    hide Changed, Waiting, OnItsWay, Truthful;
    var m := w.queue[0];
    assert m in w.queue && TruthfulMessage(w, m) && Covered(w, k);
  }

  /** The rest of the queue still covers a key once its row is past the head message. */
  lemma RestOnItsWay(w: World, k: Key, after: int, seqNo: int)
    requires OneTable(w) && k in w.Table() && w.queue != [] && OnItsWay(w, w.queue, k, after) && seqNo >= after
    requires w.queue[0].Update? && k in w.queue[0].changes ==> seqNo >= w.queue[0].seqNo
    ensures OnItsWay(w, w.queue[1..], k, seqNo)
  {
    hide Changed, OneTable;
    var rest := w.queue[1..];
    forall s | s > seqNo && Changed(w, k, s)
      ensures Waiting(rest, k, s)
    {
      assert Waiting(w.queue, k, s);
      var i :| 0 <= i < |w.queue| && w.queue[i].Update? && w.queue[i].seqNo == s && k in w.queue[i].changes;
      assert i > 0 && rest[i - 1] == w.queue[i];
    }
  }

  /** Taking the head message leaves each key covered by its row and the rest of the queue. */
  lemma TakeCovers(w: World, k: Key)
    requires Sound(w) && w.queue != [] && !w.stream.Silent? && k in w.Table()
    ensures var floor := Floor(w.stream, Get(Take(w.rows, w.queue[0]), k));
            floor.Some? && OnItsWay(w, w.queue[1..], k, floor.value)
  {
    hide Take, Changed, Waiting, OnItsWay, Truthful, OneTable, Floor;
    TakenFloor(w, k);
    assert Covered(w, k);
    var m := w.queue[0];
    var floor := Floor(w.stream, Get(w.rows, k));
    RestOnItsWay(w, k, if m.Baseline? then m.asOf else floor.value, Floor(w.stream, Get(Take(w.rows, m), k)).value);
  }

  /** After a delivery every message that is left is as truthful as before. */
  lemma DeliverMessages(w: World, x: Message)
    requires Sound(w) && w.queue != [] && x in w.queue[1..]
    ensures OneTable(Next(w, DeliverControl)) && TruthfulMessage(Next(w, DeliverControl), x)
  {
    hide Take, Truthful, TruthfulMessage;
    assert x in w.queue && TruthfulMessage(w, x);
    MessageKept(w, Next(w, DeliverControl), x);
  }

  /** After a delivery each key is covered by its row and what is left of the queue. */
  lemma DeliverCovers(w: World, k: Key)
    requires Sound(w) && w.queue != [] && !w.stream.Silent? && k in w.Table()
    ensures OneTable(Next(w, DeliverControl)) && Covered(Next(w, DeliverControl), k)
  {
    hide Changed, Waiting, OnItsWay, Take, Truthful, TruthfulMessage, Floor;
    var next := Next(w, DeliverControl);
    TakeCovers(w, k);
    SameHistory(w, next, next.queue, k, Floor(w.stream, Get(next.rows, k)).value);
  }

  lemma DeliverTruthful(w: World)
    requires Sound(w) && w.queue != []
    ensures OneTable(Next(w, DeliverControl)) && Truthful(Next(w, DeliverControl))
  {
    hide Take, Truthful, TruthfulMessage, OnItsWay;
    assert w.queue[0] in w.queue && TruthfulMessage(w, w.queue[0]);
    TakeTruthful(w, w.queue[0]);
    TruthKept(w, Next(w, DeliverControl));
  }

  lemma DeliverSound(w: World)
    requires Sound(w) && w.queue != []
    ensures Sound(Next(w, DeliverControl))
  {
    hide Covered, Take, Truthful, TruthfulMessage;
    var next := Next(w, DeliverControl);
    DeliverTruthful(w);
    forall x <- next.queue
      ensures TruthfulMessage(next, x)
    {
      DeliverMessages(w, x);
    }
    if !w.stream.Silent? {
      forall k <- w.Table()
        ensures Covered(next, k)
      {
        DeliverCovers(w, k);
      }
    }
  }

  /** Truth depends on the history and the rows, or the message, only. */
  lemma TruthKept(w: World, next: World)
    requires OneTable(w) && next.history == w.history && Truthful(w.(rows := next.rows))
    ensures OneTable(next) && Truthful(next)
  {
  }

  lemma MessageKept(w: World, next: World, m: Message)
    requires OneTable(w) && next.history == w.history && TruthfulMessage(w, m)
    ensures OneTable(next) && TruthfulMessage(next, m)
  {
  }

  /** What is on its way depends on the history and the queue only. */
  lemma SameHistory(w: World, next: World, queue: seq<Message>, k: Key, after: int)
    requires OneTable(w) && next.history == w.history && k in w.Table()
    ensures OnItsWay(next, queue, k, after) == OnItsWay(w, queue, k, after)
  {
    assert forall s :: Changed(next, k, s) == Changed(w, k, s);
  }

  /** A write of truthful values at one seq, by whichever source, loses nothing. */
  lemma WriteSound(w: World, rows: Rows)
    requires Sound(w)
    requires Truthful(w.(rows := rows))
    requires forall k <- w.rows :: w.rows[k].Sequenced? ==>
               k in rows && rows[k].Sequenced? && rows[k].seqNo >= w.rows[k].seqNo
    ensures Sound(w.(rows := rows))
  {
    hide Changed, Waiting;
    var next := w.(rows := rows);
    forall x <- next.queue
      ensures TruthfulMessage(next, x)
    {
      assert TruthfulMessage(w, x);
    }
    if !w.stream.Silent? {
      forall k <- w.Table()
        ensures Covered(next, k)
      {
        assert Covered(w, k);
        FloorRises(w.stream, Get(w.rows, k), Get(rows, k));
        var baseline := w.queue != [] && w.queue[0].Baseline?;
        SameHistory(w, next, w.queue, k, if baseline then w.queue[0].asOf else Floor(w.stream, Get(w.rows, k)).value);
      }
    }
  }

  lemma SeedSound(w: World, asOf: int)
    requires Sound(w) && -1 <= asOf <= w.Cursor()
    ensures Sound(w.(rows := Seeded(w.rows, w.At(asOf), asOf)))
  {
    hide OnItsWay;
    TakeTruthful(w, Baseline(asOf, w.At(asOf)));
    WriteSound(w, Seeded(w.rows, w.At(asOf), asOf));
  }

  lemma ListSound(w: World, asOf: int, keys: set<Key>)
    requires Sound(w) && -1 <= asOf <= w.Cursor()
    ensures Sound(w.(rows := Applied(w.rows, Restrict(w.At(asOf), keys), asOf)))
  {
    hide OnItsWay;
    TakeTruthful(w, Update(asOf, Restrict(w.At(asOf), keys)));
    WriteSound(w, Applied(w.rows, Restrict(w.At(asOf), keys), asOf));
  }

  lemma FillSound(w: World, values: Values)
    requires Sound(w) && values.Keys <= w.Table()
    ensures Sound(w.(rows := Filled(w.rows, values)))
  {
    hide OnItsWay;
    WriteSound(w, Filled(w.rows, values));
  }

  lemma OpenSound(w: World)
    requires Sound(w)
    ensures Sound(Next(w, OpenControl))
  {
    var next := Next(w, OpenControl);
    forall k <- w.Table()
      ensures OnItsWay(next, next.queue, k, next.queue[0].asOf)
    {
    }
  }

  lemma AttachSound(w: World)
    requires Sound(w) && w.stream.Silent?
    ensures Sound(Next(w, Attach))
  {
    var next := Next(w, Attach);
    forall k <- w.Table()
      ensures Covered(next, k)
    {
      assert forall s :: Changed(next, k, s) ==> s <= w.Cursor();
    }
  }

  lemma StepSound(w: World, step: Step)
    requires Sound(w) && Possible(w, step)
    ensures Sound(Next(w, step))
  {
    hide Sound, Seeded, Applied, Filled;
    match step
    case HostEvent(_, _) => EventSound(w, step);
    case OpenControl => OpenSound(w);
    case Attach => AttachSound(w);
    case DeliverControl => DeliverSound(w);
    case FollowSeed(asOf) => SeedSound(w, asOf);
    case ListSequenced(asOf, keys) => ListSound(w, asOf, keys);
    case ListCached(values) => FillSound(w, values);
  }

  /** No step lowers a sequenced row's seq, removes it, or lets a cached value take its place. */
  lemma RowsOnlyAdvance(w: World, step: Step, k: Key)
    requires Sound(w) && Possible(w, step)
    requires k in w.rows && w.rows[k].Sequenced?
    ensures var rows := Next(w, step).rows;
            k in rows && rows[k].Sequenced? && rows[k].seqNo >= w.rows[k].seqNo
            && (rows[k].seqNo == w.rows[k].seqNo ==> rows[k] == w.rows[k])
  {
    assert k in w.Table();
    if step.DeliverControl? {
      assert w.queue[0] in w.queue && TruthfulMessage(w, w.queue[0]);
    }
  }

  predicate AllPossible(w: World, steps: seq<Step>)
    decreases |steps|
  {
    steps != [] ==> Possible(w, steps[0]) && AllPossible(Next(w, steps[0]), steps[1..])
  }

  function Run(w: World, steps: seq<Step>): World
    requires AllPossible(w, steps)
    decreases |steps|
  {
    if steps == [] then w else Run(Next(w, steps[0]), steps[1..])
  }

  lemma {:induction false} RunSound(w: World, steps: seq<Step>)
    requires Sound(w) && AllPossible(w, steps)
    ensures Sound(Run(w, steps))
    decreases |steps|
  {
    if steps != [] {
      StepSound(w, steps[0]);
      RunSound(Next(w, steps[0]), steps[1..]);
    }
  }

  lemma Tabled(w: World, k: Key, s: int)
    requires OneTable(w) && k in w.Table() && -1 <= s <= w.Cursor()
    ensures k in w.At(s)
  {
    assert w.history[s + 1].Keys == w.Table();
  }

  /** A key that did not change since a seq still has its value of then. */
  lemma {:induction false} KeepsValue(w: World, k: Key, lo: int, hi: int)
    requires OneTable(w) && k in w.Table() && -1 <= lo <= hi <= w.Cursor()
    requires forall s :: lo < s <= hi ==> !Changed(w, k, s)
    ensures k in w.At(hi) && k in w.At(lo) && w.At(hi)[k] == w.At(lo)[k]
    decreases hi - lo
  {
    Tabled(w, k, lo);
    Tabled(w, k, hi);
    if lo < hi {
      KeepsValue(w, k, lo, hi - 1);
      assert !Changed(w, k, hi);
    }
  }

  /** The values the store shows. */
  function Shown(rows: Rows): Values {
    map k | k in rows :: rows[k].value
  }

  lemma NothingOnItsWay(w: World, k: Key, after: int)
    requires OneTable(w) && k in w.Table() && OnItsWay(w, [], k, after)
    ensures forall s :: s > after ==> !Changed(w, k, s)
  {
    hide Changed, OneTable;
    assert forall s :: !Waiting([], k, s);
  }

  /** A row that is no older than the Session's place in the stream. */
  predicate Dated(w: World, k: Key) {
    k in w.rows && w.rows[k].Sequenced? && (w.stream.FromAttach? ==> w.rows[k].seqNo >= w.stream.since)
  }

  /** With nothing left to deliver, a dated row shows the Host's value. */
  lemma RowCurrent(w: World, k: Key)
    requires Sound(w) && !w.stream.Silent? && w.queue == [] && k in w.Table() && Dated(w, k)
    ensures k in w.At(w.Cursor()) && w.rows[k].value == w.At(w.Cursor())[k]
  {
    hide Changed, Waiting, OnItsWay, TruthfulMessage, OneTable;
    assert Covered(w, k);
    NothingOnItsWay(w, k, w.rows[k].seqNo);
    KeepsValue(w, k, w.rows[k].seqNo, w.Cursor());
  }

  /** With nothing left to deliver, an undated key has not changed since the Session was attached. */
  lemma RowUndated(w: World, k: Key)
    requires Sound(w) && w.stream.FromAttach? && w.queue == [] && k in w.Table() && !Dated(w, k)
    ensures k in w.At(w.stream.since) && k in w.At(w.Cursor())
    ensures w.At(w.Cursor())[k] == w.At(w.stream.since)[k]
  {
    hide Changed, Waiting, OnItsWay, TruthfulMessage, OneTable;
    assert Covered(w, k);
    NothingOnItsWay(w, k, w.stream.since);
    KeepsValue(w, k, w.stream.since, w.Cursor());
  }

  lemma BaselineDates(w: World, k: Key)
    requires Sound(w) && w.stream.FromBaseline? && w.queue == [] && k in w.Table()
    ensures Dated(w, k)
  {
    hide OnItsWay, Truthful, TruthfulMessage;
    assert Covered(w, k);
  }

  /** Once a control stream that began with a baseline has nothing left, the store equals the Host's projections. */
  lemma Converged(w: World)
    requires Sound(w) && w.stream.FromBaseline? && w.queue == []
    ensures Shown(w.rows) == w.At(w.Cursor())
  {
    hide Sound, Covered, OnItsWay, TruthfulMessage;
    SoundKeys(w);
    forall k <- w.Table()
      ensures k in w.rows && k in w.At(w.Cursor()) && w.rows[k].value == w.At(w.Cursor())[k]
    {
      BaselineDates(w, k);
      RowCurrent(w, k);
    }
  }

  lemma SoundKeys(w: World)
    requires Sound(w)
    ensures w.history != [] && w.rows.Keys <= w.Table() && w.At(w.Cursor()).Keys == w.Table()
  {
    hide Covered, TruthfulMessage;
    assert w.history[|w.history| - 1].Keys == w.Table();
  }

  /**
   Without a baseline in the stream, a key ends as the Host has it exactly if its row is no older than the attachment,
   or shows what the key was then.
   */
  lemma AttachedConverged(w: World, k: Key)
    requires Sound(w) && w.stream.FromAttach? && w.queue == [] && k in w.Table()
    ensures k in w.At(w.Cursor()) && k in w.At(w.stream.since)
    ensures k in w.rows && w.rows[k].value == w.At(w.Cursor())[k] <==>
            Dated(w, k) || (k in w.rows && w.rows[k].value == w.At(w.stream.since)[k])
  {
    hide Covered, TruthfulMessage, OneTable;
    Tabled(w, k, w.stream.since);
    if Dated(w, k) {
      RowCurrent(w, k);
    } else {
      RowUndated(w, k);
    }
  }

  /**
   From an empty store, through any interleaving of the sources, a drained control stream leaves the Host's values:
   all of them if it began with a baseline, and those of every dated row if the Session was attached to it later.
   */
  lemma ProjectionsConverge(initial: Values, steps: seq<Step>)
    requires AllPossible(World([initial], [], map[], Silent), steps)
    ensures var w := Run(World([initial], [], map[], Silent), steps);
            && w.history != []
            && (w.stream.FromBaseline? && w.queue == [] ==> Shown(w.rows) == w.history[|w.history| - 1])
            && (w.stream.FromAttach? && w.queue == [] ==>
                  -1 <= w.stream.since <= w.Cursor() &&
                  forall k <- w.Table() ::
                    k in w.At(w.Cursor()) && k in w.At(w.stream.since) &&
                    (k in w.rows && w.rows[k].value == w.At(w.Cursor())[k] <==>
                     Dated(w, k) || (k in w.rows && w.rows[k].value == w.At(w.stream.since)[k])))
  {
    hide Covered, TruthfulMessage, Run;
    var w0 := World([initial], [], map[], Silent);
    RunSound(w0, steps);
    var w := Run(w0, steps);
    if w.stream.FromBaseline? && w.queue == [] {
      Converged(w);
    }
    if w.stream.FromAttach? && w.queue == [] {
      forall k <- w.Table() {
        AttachedConverged(w, k);
      }
    }
  }
}
