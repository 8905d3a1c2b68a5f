/** Whose transient rows a window shows: those of the active or retained attempt, and those an end left behind. */
module RowOwnership {
  import opened Options
  import opened Transcript
  import opened EventWindow
  import opened ClientStream
  import opened Follower

  /** The attempts of the transient rows. */
  function Attempts(rows: seq<Row>): set<AttemptId> {
    set row | row in rows && row.Transient? :: row.attemptId
  }

  /** The attempts whose rows a later end or step end still takes care of. */
  function Owners(c: Client): set<AttemptId> {
    (if c.active.Some? then {c.active.value.attemptId} else {})
    + (if c.retained.Some? then {c.retained.value.attemptId} else {})
  }

  /** Attempts that nothing but a replacement takes out of the window any more. */
  function Strays(f: Follower): set<AttemptId> {
    Attempts(f.rows) - Owners(f.client)
  }

  /** What an end leaves in the window: the rows of the active attempt, if it names a seq that is published already. */
  function LeftBy(f: Follower, step: WindowStep): set<AttemptId> {
    match step
    case Delivery(LiveFrame(End(revision, id, index, Committed(seqNo, _)))) =>
      var c := f.client;
      if revision == f.revision + 1 && c.active.Some? && c.active.value.attemptId == id
         && index == c.active.value.nextIndex && seqNo in c.published
      then Attempts(f.rows) * {id}
      else {}
    case _ => {}
  }

  function LeftBehind(f: Follower, steps: seq<WindowStep>): set<AttemptId>
    decreases |steps|
  {
    if steps == [] then {} else LeftBy(f, steps[0]) + LeftBehind(Follow(f, steps[0]), steps[1..])
  }

  /** Attempt identities are minted once. */
  predicate AllMinted(f: Follower, steps: seq<WindowStep>)
    decreases |steps|
  {
    steps != [] ==>
      && (steps[0].Delivery? && steps[0].step.LiveFrame? ==> Minted(f, steps[0].step.frame))
      && AllMinted(Follow(f, steps[0]), steps[1..])
  }

  // --- the rows of attempts -------------------------------------------------------------------------

  lemma AttemptsJoined(a: seq<Row>, b: seq<Row>)
    ensures Attempts(a + b) == Attempts(a) + Attempts(b)
  {
    assert forall row :: row in a + b <==> row in a || row in b;
  }

  lemma AttemptsOne(row: Row)
    ensures Attempts([row]) == if row.Transient? then {row.attemptId} else {}
  {
    if row.Transient? {
      assert row in [row];
    }
  }

  lemma NoAttempts(events: seq<Event>)
    ensures Attempts(DurableRows(events)) == {}
  {
  }

  lemma {:induction false} AttemptsWithout(rows: seq<Row>, id: AttemptId)
    ensures Attempts(WithoutAttempt(rows, id)) == Attempts(rows) - {id}
  {
    if rows != [] {
      var n := |rows| - 1;
      AttemptsWithout(rows[..n], id);
      assert rows == rows[..n] + [rows[n]];
      AttemptsJoined(rows[..n], [rows[n]]);
      AttemptsJoined(WithoutAttempt(rows[..n], id), [rows[n]]);
      AttemptsOne(rows[n]);
    }
  }

  lemma {:induction false} AttemptsInserted(rows: seq<Row>, event: Event)
    ensures Attempts(Inserted(rows, Durable(event))) == Attempts(rows)
  {
    AttemptsOne(Durable(event));
    if rows == [] {
    } else if rows[0].Position() > event.seqNo as real {
      AttemptsJoined([Durable(event)], rows);
    } else {
      AttemptsInserted(rows[1..], event);
      AttemptsJoined([rows[0]], Inserted(rows[1..], Durable(event)));
      AttemptsJoined([rows[0]], rows[1..]);
      assert rows == [rows[0]] + rows[1..];
    }
  }

  lemma {:induction false} ShownChunks(rows: seq<Row>, id: AttemptId)
    ensures ChunksOf(rows, id) == [] <==> id !in Attempts(rows)
  {
    if rows != [] {
      var n := |rows| - 1;
      ShownChunks(rows[..n], id);
      assert rows == rows[..n] + [rows[n]];
      AttemptsJoined(rows[..n], [rows[n]]);
      AttemptsOne(rows[n]);
    }
  }

  /** What a decision makes of the attempts shown. */
  lemma AttemptsApplied(rows: seq<Row>, decision: Decision)
    ensures Attempts(Applied(rows, decision)) ==
            match decision
            case Show(row) => Attempts(rows) + (if row.Transient? then {row.attemptId} else {})
            case Settle(id, _) => Attempts(rows) - {id}
            case Abandon(id) => Attempts(rows) - {id}
            case Publish(_, Some(id)) => Attempts(rows) - {id}
            case _ => Attempts(rows)
  {
    hide Attempts, WithoutAttempt, Inserted;
    match decision
    case Show(row) =>
      AttemptsJoined(rows, [row]);
      AttemptsOne(row);
    case Settle(id, event) =>
      AttemptsWithout(rows, id);
      AttemptsInserted(WithoutAttempt(rows, id), event);
    case Abandon(id) =>
      AttemptsWithout(rows, id);
    case Publish(event, retire) =>
      AttemptsJoined(rows, [Durable(event)]);
      AttemptsOne(Durable(event));
      if retire.Some? {
        AttemptsWithout(rows + [Durable(event)], retire.value);
      }
    case _ =>
  }

  // --- the steps ------------------------------------------------------------------------------------

  lemma CommitStrays(f: Follower, event: Event)
    requires Alone(f.client) && !f.stale
    ensures var after := f.Deliver(Commit(event));
            Alone(after.client) && (!after.stale ==> Strays(after) == Strays(f))
  {
    hide Attempts;
    AttemptsApplied(f.rows, f.client.AcceptDurable(event).1);
  }

  lemma FrameStrays(f: Follower, frame: Frame)
    requires Alone(f.client) && !f.stale && Minted(f, frame)
    ensures var after := f.Deliver(LiveFrame(frame));
            && Alone(after.client)
            && (!after.stale ==> Strays(after) == Strays(f) + LeftBy(f, Delivery(LiveFrame(frame))))
  {
    hide Attempts, ChunksOf;
    AttemptsApplied(f.rows, f.client.AcceptFrame(frame).1);
    ShownChunks(f.rows, frame.attemptId);
  }

  lemma StepStrays(f: Follower, step: WindowStep)
    requires Alone(f.client) && !f.stale
    requires step.Delivery? && step.step.LiveFrame? ==> Minted(f, step.step.frame)
    ensures var after := Follow(f, step);
            Alone(after.client) && (!after.stale ==> Strays(after) == Strays(f) + LeftBy(f, step))
  {
    hide Attempts, Alone, Owners;
    match step
    case Delivery(Commit(event)) => CommitStrays(f, event);
    case Delivery(LiveFrame(frame)) => FrameStrays(f, frame);
    case OlderPage(events) =>
      NoAttempts(events);
      AttemptsJoined(DurableRows(events), f.rows);
  }

  lemma {:induction false} StaleStays(f: Follower, steps: seq<WindowStep>)
    requires f.stale
    ensures FollowAll(f, steps).stale
    decreases |steps|
  {
    if steps != [] {
      StaleStays(Follow(f, steps[0]), steps[1..]);
    }
  }

  /** Nothing that was left behind is ever taken out again: the strays are those of before and whatever ends left. */
  lemma {:induction false} RunStrays(f: Follower, steps: seq<WindowStep>)
    requires Alone(f.client) && AllMinted(f, steps) && !FollowAll(f, steps).stale
    ensures Strays(FollowAll(f, steps)) == Strays(f) + LeftBehind(f, steps)
    decreases |steps|
  {
    hide Strays, LeftBy, Alone;
    if f.stale {
      StaleStays(f, steps);
    } else if steps != [] {
      StepStrays(f, steps[0]);
      var next := Follow(f, steps[0]);
      if next.stale {
        StaleStays(next, steps[1..]);
      }
      RunStrays(next, steps[1..]);
    }
  }

  lemma {:induction false} OpeningAttempts(o: Opening, cursor: int, count: nat)
    requires count <= |o.stream|
    ensures Attempts(OpeningRows(o, cursor, count)) <= {o.attemptId}
  {
    hide Fractional;
    if count > 0 {
      OpeningAttempts(o, cursor, count - 1);
      var row := Transient(Fractional(cursor, count), o.attemptId, o.turn, o.step, o.stream[count - 1]);
      AttemptsJoined(OpeningRows(o, cursor, count - 1), [row]);
      AttemptsOne(row);
    }
  }

  /**
   From an opening on, as long as no new baseline is asked for, every transient row is the active or the retained
   attempt's if and only if no end named a seq that was published already while rows of its attempt were shown.
   */
  lemma RowsHaveOwners(events: seq<Event>, baseline: Baseline, steps: seq<WindowStep>)
    requires var f := Opened(events, baseline); AllMinted(f, steps) && !FollowAll(f, steps).stale
    ensures var f := Opened(events, baseline);
            var after := FollowAll(f, steps);
            && Strays(after) == LeftBehind(f, steps)
            && (Attempts(after.rows) <= Owners(after.client) <==> LeftBehind(f, steps) == {})
  {
    hide Attempts, LeftBehind;
    var f := Opened(events, baseline);
    NoAttempts(events);
    match baseline.active {
      case None => assert f.rows == DurableRows(events);
      case Some(o) =>
        AttemptsJoined(DurableRows(events), OpeningRows(o, MaxSeq(events), ShownMembers(o)));
        OpeningAttempts(o, MaxSeq(events), ShownMembers(o));
    }
    assert Strays(f) == {};
    RunStrays(f, steps);
  }

  /** A page that already holds the settlement of the baseline's attempt: the attempt ends, and its row stays. */
  lemma StrayWitness() returns (f: Follower, end: Frame)
    ensures f == Opened([Event(0, AssistantMessage(1, 1, true, false))],
                        Baseline(1, Some(Opening("a", -1, 1, 1, 1, [Timed(0, "x")]))))
    ensures var after := FollowAll(f, [Delivery(LiveFrame(end))]);
            !after.stale && after.client.active.None? && after.client.retained.None? && Strays(after) == {"a"}
  {
    var event := Event(0, AssistantMessage(1, 1, true, false));
    var o := Opening("a", -1, 1, 1, 1, [Timed(0, "x")]);
    f := Opened([event], Baseline(1, Some(o)));
    end := End(2, "a", 1, Committed(0, true));
    var rows := OpeningRows(o, MaxSeq([event]), 1);
    assert event in [event];
    assert rows[0].attemptId == "a" && rows[0] in f.rows;
    var step := Delivery(LiveFrame(end));
    assert [step][1..] == [];
    assert FollowAll(f, [step]) == Follow(f, step);
  }
}
