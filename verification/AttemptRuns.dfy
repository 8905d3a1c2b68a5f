/** What becomes of one assistant attempt in the followed window, from its start to the end of its step. */
module AttemptRuns {
  import opened Options
  import opened Transcript
  import opened EventWindow
  import opened ClientStream
  import opened Follower

  /** Between attempts: a start would be accepted. */
  predicate Idle(f: Follower) {
    !f.stale && f.client.active.None? && f.client.retained.None? && f.client.pending == map[]
  }

  /** The chunks of an attempt as frames, in sequence. */
  function ChunkFrames(id: AttemptId, revision: nat, index: nat, chunks: seq<Timed>): seq<Step>
    decreases |chunks|
  {
    if chunks == [] then []
    else [LiveFrame(ChunkFrame(revision, id, index, chunks[0]))] + ChunkFrames(id, revision + 1, index + 1, chunks[1..])
  }

  /** Rows that show chunks of an attempt, wherever they lie. */
  ghost predicate ShowChunks(rows: seq<Row>, id: AttemptId, turn: nat, step: nat, chunks: seq<Timed>) {
    && |rows| == |chunks|
    && forall i :: 0 <= i < |rows| ==> rows[i].Transient? && rows[i] == Transient(rows[i].at, id, turn, step, chunks[i])
  }

  lemma {:induction false} DeliverConcat(f: Follower, a: seq<Step>, b: seq<Step>)
    ensures DeliverAll(f, a + b) == DeliverAll(DeliverAll(f, a), b)
    decreases |a|
  {
    if a == [] {
      assert a + b == b;
    } else {
      assert (a + b)[1..] == a[1..] + b;
      DeliverConcat(f.Deliver(a[0]), a[1..], b);
    }
  }

  lemma DeliverOne(f: Follower, step: Step)
    ensures DeliverAll(f, [step]) == f.Deliver(step)
  {
    assert [step][1..] == [];
  }

  // --- rows of an attempt -----------------------------------------------------------------------------

  lemma {:induction false} WithoutConcat(a: seq<Row>, b: seq<Row>, id: AttemptId)
    ensures WithoutAttempt(a + b, id) == WithoutAttempt(a, id) + WithoutAttempt(b, id)
    decreases |b|
  {
    if b == [] {
      assert a + b == a;
    } else {
      assert (a + b)[..|a + b| - 1] == a + b[..|b| - 1];
      WithoutConcat(a, b[..|b| - 1], id);
    }
  }

  lemma {:induction false} WithoutNone(rows: seq<Row>, id: AttemptId)
    requires ChunksOf(rows, id) == []
    ensures WithoutAttempt(rows, id) == rows
  {
    if rows != [] {
      var n := |rows| - 1;
      WithoutNone(rows[..n], id);
      assert rows == rows[..n] + [rows[n]];
    }
  }

  lemma {:induction false} WithoutAll(rows: seq<Row>, id: AttemptId)
    requires forall row <- rows :: row.Transient? && row.attemptId == id
    ensures WithoutAttempt(rows, id) == []
  {
    if rows != [] {
      var n := |rows| - 1;
      assert rows[n] in rows && forall row <- rows[..n] :: row in rows;
      WithoutAll(rows[..n], id);
    }
  }

  /** The rows without an attempt are the others, in their order. */
  lemma {:induction false} WithoutIsOthers(rows: seq<Row>, id: AttemptId)
    ensures forall row :: row in WithoutAttempt(rows, id) <==> row in rows && !(row.Transient? && row.attemptId == id)
    ensures (forall row <- rows :: !(row.Transient? && row.attemptId == id)) ==> WithoutAttempt(rows, id) == rows
  {
    if rows != [] {
      var n := |rows| - 1;
      WithoutIsOthers(rows[..n], id);
      assert rows == rows[..n] + [rows[n]];
    }
  }

  lemma LiveRowsGo(before: seq<Row>, live: seq<Row>, behind: seq<Row>, id: AttemptId)
    requires ChunksOf(before, id) == [] && ChunksOf(behind, id) == []
    requires forall row <- live :: row.Transient? && row.attemptId == id
    ensures WithoutAttempt(before + live + behind, id) == before + behind
  {
    WithoutConcat(before + live, behind, id);
    WithoutConcat(before, live, id);
    WithoutNone(before, id);
    WithoutAll(live, id);
    WithoutNone(behind, id);
  }

  lemma DurableHasNoChunks(event: Event, id: AttemptId)
    ensures ChunksOf([Durable(event)], id) == []
  {
    assert [Durable(event)][..0] == [];
  }

  lemma {:induction false} InsertedLast(rows: seq<Row>, row: Row)
    requires Before(rows, row.Position())
    ensures Inserted(rows, row) == rows + [row]
  {
    if rows != [] {
      InsertedLast(rows[1..], row);
      assert rows == [rows[0]] + rows[1..];
    }
  }

  // --- one attempt ------------------------------------------------------------------------------------

  /** Chunks in sequence are shown behind everything else, one row each. */
  lemma {:induction false} ChunksShown(f: Follower, id: AttemptId, index: nat, chunks: seq<Timed>)
      returns (live: seq<Row>)
    requires !f.stale && f.client.active.Some? && f.client.active.value.attemptId == id
    requires f.client.active.value.nextIndex == index
    ensures var after, attempt := DeliverAll(f, ChunkFrames(id, f.revision + 1, index, chunks)), f.client.active.value;
            && !after.stale && after.revision == f.revision + |chunks|
            && after.rows == f.rows + live && ShowChunks(live, id, attempt.turn, attempt.step, chunks)
            && after.client == f.client.(active := Some(attempt.(nextIndex := index + |chunks|)),
                                         transientInGap := f.client.transientInGap + |chunks|)
    decreases |chunks|
  {
    if chunks == [] {
      live := [];
    } else {
      var attempt := f.client.active.value;
      var frame := LiveFrame(ChunkFrame(f.revision + 1, id, index, chunks[0]));
      var row := Transient(f.client.NextPosition(), id, attempt.turn, attempt.step, chunks[0]);
      var next := f.Deliver(frame);
      assert next.rows == f.rows + [row];
      var rest := ChunksShown(next, id, index + 1, chunks[1..]);
      live := [row] + rest;
      var steps := ChunkFrames(id, f.revision + 1, index, chunks);
      assert steps[0] == frame && steps[1..] == ChunkFrames(id, f.revision + 2, index + 1, chunks[1..]);
      assert f.rows + live == f.rows + [row] + rest;
    }
  }

  /** A new attempt with its chunks. */
  function Streaming(f: Follower, id: AttemptId, after: int, turn: nat, step: nat, chunks: seq<Timed>): seq<Step> {
    [LiveFrame(Start(f.revision + 1, id, after, turn, step))] + ChunkFrames(id, f.revision + 2, 0, chunks)
  }

  lemma StreamingShown(f: Follower, id: AttemptId, after: int, turn: nat, step: nat, chunks: seq<Timed>)
    returns (live: seq<Row>)
    requires Idle(f)
    ensures var g := DeliverAll(f, Streaming(f, id, after, turn, step, chunks));
            && !g.stale && g.revision == f.revision + 1 + |chunks|
            && g.rows == f.rows + live && ShowChunks(live, id, turn, step, chunks)
            && g.client == f.client.(active := Some(Attempt(id, after, turn, step, |chunks|)),
                                     transientInGap := f.client.transientInGap + |chunks|)
  {
    var start := LiveFrame(Start(f.revision + 1, id, after, turn, step));
    DeliverConcat(f, [start], ChunkFrames(id, f.revision + 2, 0, chunks));
    DeliverOne(f, start);
    live := ChunksShown(f.Deliver(start), id, 0, chunks);
  }

  /** The settlement of the attempt waits; the end that names it then decides. */
  function Ending(f: Follower, id: AttemptId, chunks: seq<Timed>, event: Event): seq<Step> {
    [Commit(event), LiveFrame(End(f.revision + 2 + |chunks|, id, |chunks|,
                                  Outcome.Committed(event.seqNo, event.kind.AssistantMessage?)))]
  }

  lemma SettlementWaits(g: Follower, event: Event, turn: nat, step: nat)
    requires !g.stale && g.client.active.Some? && g.client.active.value.turn == turn
             && g.client.active.value.step == step
    requires g.client.pending == map[] && event.seqNo > g.client.active.value.startedAfterSeq
    requires event.kind == AssistantAttempt(turn, step) || event.kind == AssistantMessage(turn, step, true, false)
             || event.kind == AssistantMessage(turn, step, true, true)
    ensures var h := g.Deliver(Commit(event));
            && !h.stale && h.rows == g.rows && h.revision == g.revision
            && h.client.pending == map[event.seqNo := event] && h.client.active == g.client.active
            && h.client.retained == g.client.retained && h.client.published == g.client.published
  {
  }

  /** A completed message appears behind its chunks, which stay until the step ends. */
  lemma MessageShown(f: Follower, id: AttemptId, after: int, turn: nat, step: nat, chunks: seq<Timed>, message: Event)
    returns (live: seq<Row>)
    requires Idle(f) && message.kind == AssistantMessage(turn, step, true, false)
    requires message.seqNo > after && message.seqNo !in f.client.published
    ensures var h := DeliverAll(f, Streaming(f, id, after, turn, step, chunks) + Ending(f, id, chunks, message));
            && !h.stale && h.client.active.None? && h.client.pending == map[]
            && h.client.retained == Some(Retained(id, turn, step))
            && h.rows == f.rows + live + [Durable(message)] && ShowChunks(live, id, turn, step, chunks)
  {
    live := StreamingShown(f, id, after, turn, step, chunks);
    var steps := Streaming(f, id, after, turn, step, chunks);
    var g := DeliverAll(f, steps);
    var ending := Ending(f, id, chunks, message);
    DeliverConcat(f, steps, ending);
    SettlementWaits(g, message, turn, step);
    assert ending == [ending[0]] + [ending[1]];
    DeliverConcat(g, [ending[0]], [ending[1]]);
    DeliverOne(g, ending[0]);
    DeliverOne(g.Deliver(ending[0]), ending[1]);
  }

  /**
   A whole attempt with its completed message, and the end of its step: of all this the window keeps the message and
   the end of the step, and the next attempt may start.
   */
  lemma CompletedAttempt(f: Follower, id: AttemptId, after: int, turn: nat, step: nat, chunks: seq<Timed>,
      message: Event, ended: Event, next: AttemptId)
    requires Idle(f) && ChunksOf(f.rows, id) == []
    requires message.kind == AssistantMessage(turn, step, true, false) && ended.kind == StepEnd(turn, step)
    requires message.seqNo > after && message.seqNo !in f.client.published
    ensures var steps := Streaming(f, id, after, turn, step, chunks) + Ending(f, id, chunks, message) + [Commit(ended)];
            var g := DeliverAll(f, steps);
            var h := g.Deliver(LiveFrame(Start(g.revision + 1, next, ended.seqNo, turn, step + 1)));
            && Idle(g) && g.rows == f.rows + [Durable(message), Durable(ended)]
            && !h.stale && h.client.active == Some(Attempt(next, ended.seqNo, turn, step + 1, 0)) && h.rows == g.rows
  {
    hide ChunksOf, WithoutAttempt, DeliverAll, Streaming, Ending;
    var live := MessageShown(f, id, after, turn, step, chunks, message);
    var steps := Streaming(f, id, after, turn, step, chunks) + Ending(f, id, chunks, message);
    var shown := DeliverAll(f, steps);
    DeliverConcat(f, steps, [Commit(ended)]);
    DeliverOne(shown, Commit(ended));
    StepEndRetires(shown, ended);
    var behind := [Durable(message), Durable(ended)];
    ChunksConcat([Durable(message)], [Durable(ended)], id);
    assert behind == [Durable(message)] + [Durable(ended)];
    DurableHasNoChunks(message, id);
    DurableHasNoChunks(ended, id);
    assert shown.rows + [Durable(ended)] == f.rows + live + behind;
    forall row <- live
      ensures row.Transient? && row.attemptId == id
    {
      var i :| 0 <= i < |live| && live[i] == row;
    }
    LiveRowsGo(f.rows, live, behind, id);
  }

  /** The end of a step takes the rows of the message's attempt out; no other entry does. */
  lemma StepEndRetires(f: Follower, event: Event)
    requires !f.stale && f.client.active.None? && f.client.retained.Some?
    ensures var g, r := f.Deliver(Commit(event)), f.client.retained.value;
            && !g.stale
            && if event.kind == StepEnd(r.turn, r.step) then
                 g.client.retained.None? && g.rows == WithoutAttempt(f.rows + [Durable(event)], r.attemptId)
               else
                 g.client.retained == f.client.retained && g.rows == f.rows + [Durable(event)]
  {
  }

  /** An interrupted message, or a failed attempt: its chunks are replaced by what was committed of it. */
  lemma SettledAttempt(f: Follower, id: AttemptId, after: int, turn: nat, step: nat, chunks: seq<Timed>, event: Event)
    requires Idle(f) && ChunksOf(f.rows, id) == [] && Before(f.rows, event.seqNo as real)
    requires event.kind == AssistantMessage(turn, step, true, true) || event.kind == AssistantAttempt(turn, step)
    requires event.seqNo > after && event.seqNo !in f.client.published
    ensures var g := DeliverAll(f, Streaming(f, id, after, turn, step, chunks) + Ending(f, id, chunks, event));
            Idle(g) && g.rows == f.rows + [Durable(event)]
  {
    hide ChunksOf, WithoutAttempt, DeliverAll, Inserted;
    var live := StreamingShown(f, id, after, turn, step, chunks);
    var steps := Streaming(f, id, after, turn, step, chunks);
    var g := DeliverAll(f, steps);
    var ending := Ending(f, id, chunks, event);
    DeliverConcat(f, steps, ending);
    SettlementWaits(g, event, turn, step);
    assert ending == [ending[0]] + [ending[1]];
    DeliverConcat(g, [ending[0]], [ending[1]]);
    DeliverOne(g, ending[0]);
    DeliverOne(g.Deliver(ending[0]), ending[1]);
    LiveGone(f.rows, live, id, turn, step, chunks);
    InsertedLast(f.rows, Durable(event));
    assert map[event.seqNo := event] - {event.seqNo} == map[];
  }

  lemma LiveGone(before: seq<Row>, live: seq<Row>, id: AttemptId, turn: nat, step: nat, chunks: seq<Timed>)
    requires ChunksOf(before, id) == [] && ShowChunks(live, id, turn, step, chunks)
    ensures WithoutAttempt(before + live, id) == before
  {
    forall row <- live
      ensures row.Transient? && row.attemptId == id
    {
      var i :| 0 <= i < |live| && live[i] == row;
    }
    WithoutConcat(before, live, id);
    WithoutNone(before, id);
    WithoutAll(live, id);
  }

  /** An abandoned attempt leaves the window as it was. */
  lemma AbandonedAttempt(f: Follower, id: AttemptId, after: int, turn: nat, step: nat, chunks: seq<Timed>)
    requires Idle(f) && ChunksOf(f.rows, id) == []
    ensures var steps := Streaming(f, id, after, turn, step, chunks)
                         + [LiveFrame(End(f.revision + 2 + |chunks|, id, |chunks|, Abandoned))];
            Idle(DeliverAll(f, steps)) && DeliverAll(f, steps).rows == f.rows
  {
    hide ChunksOf, WithoutAttempt, DeliverAll;
    var live := StreamingShown(f, id, after, turn, step, chunks);
    var steps := Streaming(f, id, after, turn, step, chunks);
    var end := LiveFrame(End(f.revision + 2 + |chunks|, id, |chunks|, Abandoned));
    DeliverConcat(f, steps, [end]);
    DeliverOne(DeliverAll(f, steps), end);
    LiveGone(f.rows, live, id, turn, step, chunks);
  }

  // --- what is shown at once, and when a new baseline is asked for ------------------------------------

  /** A durable entry is held back exactly if it settles the open attempt; every other one is shown at once. */
  lemma HeldBack(f: Follower, event: Event)
    requires !f.stale && (f.client.active.None? || f.client.retained.None?)
    ensures var g := f.Deliver(Commit(event));
            var own := && f.client.active.Some? && event.seqNo > f.client.active.value.startedAfterSeq
                       && match event.kind
                          case AssistantMessage(turn, step, appended, _) =>
                            appended && turn == f.client.active.value.turn && step == f.client.active.value.step
                          case AssistantAttempt(turn, step) =>
                            turn == f.client.active.value.turn && step == f.client.active.value.step
                          case _ => false;
            && (own ==> g.rows == f.rows && (g.stale <==> event.seqNo in f.client.pending)
                        && event.seqNo in g.client.pending)
            && (!own ==> !g.stale && Durable(event) in g.rows && g.client.pending == f.client.pending
                         && event.seqNo in g.client.published)
  {
    if f.client.retained.Some? {
      StepEndRetires(f, event);
      WithoutIsOthers(f.rows + [Durable(event)], f.client.retained.value.attemptId);
    }
  }

  /** A frame makes the client ask for a new baseline exactly if it is out of sequence or does not fit what is held. */
  lemma BaselineAskedFor(f: Follower, frame: Frame)
    requires !f.stale
    ensures var c := f.client;
            f.Deliver(LiveFrame(frame)).stale <==>
            || frame.revision != f.revision + 1
            || match frame
               case Start(_, _, _, _, _) => c.active.Some? || c.retained.Some? || c.pending != map[]
               case ChunkFrame(_, id, index, _) =>
                 c.active.Some? && c.active.value.attemptId == id && index != c.active.value.nextIndex
               case End(_, id, index, outcome) =>
                 && c.active.Some? && c.active.value.attemptId == id
                 && (|| index != c.active.value.nextIndex
                     || match outcome
                        case Abandoned => c.pending != map[]
                        case Committed(seqNo, isMessage) =>
                          && seqNo !in c.published
                          && (seqNo !in c.pending || c.pending[seqNo].kind.AssistantMessage? != isMessage))
  {
  }

  /** What is shown of the durable entries, through any run, are the page's and those that were published. */
  function Seqs(rows: seq<Row>): set<nat> {
    set row | row in rows && row.Durable? :: row.event.seqNo
  }

  lemma SeqsJoined(a: seq<Row>, b: seq<Row>)
    ensures Seqs(a + b) == Seqs(a) + Seqs(b)
  {
    assert forall row :: row in a + b <==> row in a || row in b;
  }

  lemma SeqsOne(row: Row)
    ensures Seqs([row]) == if row.Durable? then {row.event.seqNo} else {}
  {
    assert row in [row];
  }

  lemma SeqsWithout(rows: seq<Row>, id: AttemptId)
    ensures Seqs(WithoutAttempt(rows, id)) == Seqs(rows)
  {
    WithoutIsOthers(rows, id);
  }

  lemma SeqsInserted(rows: seq<Row>, event: Event)
    ensures Seqs(Inserted(rows, Durable(event))) == Seqs(rows) + {event.seqNo}
  {
    InsertedHolds(rows, Durable(event));
  }

  lemma {:induction false} InsertedHolds(rows: seq<Row>, row: Row)
    ensures forall r :: r in Inserted(rows, row) <==> r in rows || r == row
  {
    if rows != [] && rows[0].Position() <= row.Position() {
      InsertedHolds(rows[1..], row);
      assert rows == [rows[0]] + rows[1..];
    }
  }

  lemma SeqsApplied(rows: seq<Row>, decision: Decision)
    ensures Seqs(Applied(rows, decision)) ==
            Seqs(rows) + match decision
                         case Show(row) => Seqs([row])
                         case Settle(_, event) => {event.seqNo}
                         case Publish(event, _) => {event.seqNo}
                         case _ => {}
  {
    hide Seqs, WithoutAttempt, Inserted;
    match decision
    case Show(row) => SeqsJoined(rows, [row]);
    case Settle(id, event) =>
      SeqsWithout(rows, id);
      SeqsInserted(WithoutAttempt(rows, id), event);
    case Abandon(id) => SeqsWithout(rows, id);
    case Publish(event, retire) =>
      SeqsJoined(rows, [Durable(event)]);
      SeqsOne(Durable(event));
      if retire.Some? {
        SeqsWithout(rows + [Durable(event)], retire.value);
      }
    case _ =>
  }

  lemma ShownStep(f: Follower, step: Step)
    requires Seqs(f.rows) == f.client.published
    ensures Seqs(f.Deliver(step).rows) == f.Deliver(step).client.published
  {
    hide Seqs;
    if !f.stale {
      match step {
        case Commit(event) => SeqsApplied(f.rows, f.client.AcceptDurable(event).1);
        case LiveFrame(frame) =>
          var decision := f.client.AcceptFrame(frame).1;
          SeqsApplied(f.rows, decision);
          if decision.Show? {
            SeqsOne(decision.row);
          }
      }
    }
  }

  /** Through any run, the window shows exactly the durable entries that count as published. */
  lemma {:induction false} ShownIsPublished(f: Follower, steps: seq<Step>)
    requires Seqs(f.rows) == f.client.published
    ensures Seqs(DeliverAll(f, steps).rows) == DeliverAll(f, steps).client.published
    decreases |steps|
  {
    hide Seqs;
    if steps != [] {
      ShownStep(f, steps[0]);
      ShownIsPublished(f.Deliver(steps[0]), steps[1..]);
    }
  }

  lemma OpenedShows(events: seq<Event>, baseline: Baseline)
    ensures Seqs(Opened(events, baseline).rows) == Opened(events, baseline).client.published
  {
    var rows := DurableRows(events);
    forall s
      ensures s in Seqs(rows) <==> exists e :: e in events && e.seqNo == s
    {
      if e :| e in events && e.seqNo == s {
        assert Durable(e) in rows;
      }
    }
    match baseline.active {
      case None => assert Opened(events, baseline).rows == rows;
      case Some(o) =>
        SeqsJoined(rows, OpeningRows(o, MaxSeq(events), ShownMembers(o)));
        NoSeqs(o, MaxSeq(events), ShownMembers(o));
    }
  }

  lemma {:induction false} NoSeqs(o: Opening, cursor: int, count: nat)
    requires count <= |o.stream|
    ensures Seqs(OpeningRows(o, cursor, count)) == {}
  {
    hide Fractional;
    if count > 0 {
      NoSeqs(o, cursor, count - 1);
      var row := Transient(Fractional(cursor, count), o.attemptId, o.turn, o.step, o.stream[count - 1]);
      SeqsJoined(OpeningRows(o, cursor, count - 1), [row]);
      SeqsOne(row);
    }
  }
}
