/** The client half: live frames joined with the one durable settlement each attempt ends in. */
module ClientStream {
  import opened Options
  import opened Transcript

  datatype Attempt = Attempt(attemptId: AttemptId, startedAfterSeq: int, turn: nat, step: nat, nextIndex: nat)

  datatype Retained = Retained(attemptId: AttemptId, turn: nat, step: nat)

  /** What becomes of the window, if anything. */
  datatype Decision =
    | Nothing
    | Publish(event: Event, retire: Option<AttemptId>)
    | Settle(attemptId: AttemptId, settlement: Event)
    | Abandon(attemptId: AttemptId)
    | Show(row: Row)
    | Rebaseline

  /** The position of a transient row: the n-th one behind a durable cursor. */
  function Fractional(cursor: int, n: nat): real {
    (cursor + 1) as real - 1.0 / (n + 1) as real
  }

  datatype Client = Client(
    active: Option<Attempt>,
    retained: Option<Retained>,
    pending: map<nat, Event>,
    published: set<nat>,
    durableCursor: int,
    transientInGap: nat)
  {
    /** The open attempt a settlement belongs to. */
    predicate Settles(event: Event)
      requires event.IsSettlement()
    {
      && active.Some?
      && (event.kind.AssistantMessage? ==> event.kind.appended)
      && event.seqNo > active.value.startedAfterSeq
      && active.value.turn == event.kind.turn && active.value.step == event.kind.step
    }

    /** Publishing the end of the retained attempt's step retires its rows. */
    function PublishEvent(event: Event): (Client, Decision) {
      var shown := this.(published := published + {event.seqNo});
      if retained.Some? && event.kind.StepEnd? && event.kind.turn == retained.value.turn
          && event.kind.step == retained.value.step then
        (shown.(retained := None), Publish(event, Some(retained.value.attemptId)))
      else (shown, Publish(event, None))
    }

    function AcceptDurable(event: Event): (Client, Decision) {
      var cursor := if event.seqNo > durableCursor then event.seqNo else durableCursor;
      var moved := this.(durableCursor := cursor, transientInGap := 0);
      if event.IsSettlement() && moved.Settles(event) then
        if event.seqNo in pending then (moved, Rebaseline)
        else (moved.(pending := pending[event.seqNo := event]), Nothing)
      else moved.PublishEvent(event)
    }

    function NextPosition(): real {
      Fractional(durableCursor, transientInGap + 1)
    }

    function AcceptStart(id: AttemptId, startedAfterSeq: int, turn: nat, step: nat): (Client, Decision) {
      if active.Some? || retained.Some? || pending != map[] then (this, Rebaseline)
      else (this.(active := Some(Attempt(id, startedAfterSeq, turn, step, 0))), Nothing)
    }

    function AcceptChunk(id: AttemptId, index: nat, timed: Timed): (Client, Decision) {
      if active.None? || active.value.attemptId != id then (this, Nothing)
      else if index != active.value.nextIndex then (this, Rebaseline)
      else
        (this.(active := Some(active.value.(nextIndex := index + 1)), transientInGap := transientInGap + 1),
         Show(Transient(NextPosition(), id, active.value.turn, active.value.step, timed)))
    }

    function AcceptEnd(id: AttemptId, index: nat, outcome: Outcome): (Client, Decision) {
      if active.None? || active.value.attemptId != id then (this, Nothing)
      else
        var attempt, closed := active.value, this.(active := None);
        if index != attempt.nextIndex then (closed, Rebaseline)
        else
          match outcome
          case Abandoned => (closed, if pending == map[] then Abandon(id) else Rebaseline)
          case Committed(seqNo, isMessage) =>
            if seqNo in published then (closed, Nothing)
            else if seqNo !in pending || pending[seqNo].kind.AssistantMessage? != isMessage then (closed, Rebaseline)
            else
              var event := pending[seqNo];
              var taken := closed.(pending := pending - {seqNo});
              if event.kind.AssistantMessage? && !event.kind.interrupted then
                taken.(retained := Some(Retained(id, attempt.turn, attempt.step))).PublishEvent(event)
              else (taken.(published := published + {event.seqNo}), Settle(id, event))
    }

    function AcceptFrame(frame: Frame): (Client, Decision) {
      match frame
      case Start(_, id, after, turn, step) => AcceptStart(id, after, turn, step)
      case ChunkFrame(_, id, index, timed) => AcceptChunk(id, index, timed)
      case End(_, id, index, outcome) => AcceptEnd(id, index, outcome)
    }
  }

  function MaxSeq(events: seq<Event>): (m: int)
    ensures m >= -1 && forall e <- events :: e.seqNo <= m
  {
    if events == [] then -1
    else
      var rest, last := MaxSeq(events[..|events| - 1]), events[|events| - 1];
      if last.seqNo > rest then last.seqNo else rest
  }

  /** The rows of an opening's chunks after a durable cursor. */
  function OpeningRows(opening: Opening, cursor: int, count: nat): (rows: seq<Row>)
    requires count <= |opening.stream|
    ensures |rows| == count
  {
    if count == 0 then []
    else
      OpeningRows(opening, cursor, count - 1) +
      [Transient(Fractional(cursor, count),
                 opening.attemptId, opening.turn, opening.step, opening.stream[count - 1])]
  }

  /** How many stream members a replacement shows: it stops after the one before `nextIndex`. */
  function ShownMembers(opening: Opening): (n: nat)
    ensures n <= |opening.stream|
  {
    if |opening.stream| == 0 then 0
    else if opening.nextIndex < 1 then 1
    else if opening.nextIndex < |opening.stream| then opening.nextIndex
    else |opening.stream|
  }

  function Replaced(events: seq<Event>, baseline: Option<Opening>): Client {
    Client(
      match baseline
      case Some(o) => Some(Attempt(o.attemptId, o.startedAfterSeq, o.turn, o.step, o.nextIndex))
      case None => None,
      None, map[], set e <- events :: e.seqNo, MaxSeq(events),
      match baseline case Some(o) => ShownMembers(o) case None => 0)
  }

  function ReplacedRows(events: seq<Event>, baseline: Option<Opening>): seq<Row> {
    DurableRows(events) +
    match baseline
    case Some(o) => OpeningRows(o, MaxSeq(events), ShownMembers(o))
    case None => []
  }

  function DurableRows(events: seq<Event>): (rows: seq<Row>)
    ensures |rows| == |events| && forall i | 0 <= i < |rows| :: rows[i] == Durable(events[i])
  {
    seq(|events|, i requires 0 <= i < |events| => Durable(events[i]))
  }

  /** The fold as the client keeps it. */
  class ClientAssistantStream {
    var activeAttempt: Option<Attempt>
    var retainedAttempt: Option<Retained>
    var pending: map<nat, Event>
    var publishedSeqs: set<nat>
    var durableCursor: int
    var transientInGap: nat

    ghost function State(): Client
      reads this
    {
      Client(activeAttempt, retainedAttempt, pending, publishedSeqs, durableCursor, transientInGap)
    }

    constructor ()
      ensures State() == Client(None, None, map[], {}, -1, 0)
    {
      activeAttempt, retainedAttempt, pending, publishedSeqs := None, None, map[], {};
      durableCursor, transientInGap := -1, 0;
    }

    /** Start over from a page: its seqs are published, and what the baseline says is open is opened and shown. */
    method Replace(events: seq<Event>, baseline: Option<Opening>) returns (visible: seq<Row>)
      modifies this
      ensures State() == Replaced(events, baseline)
      ensures visible == ReplacedRows(events, baseline)
    {
      hide Fractional;
      pending, transientInGap, activeAttempt, retainedAttempt := map[], 0, None, None;
      visible := DurableRows(events);
      publishedSeqs := set e <- events :: e.seqNo;
      durableCursor := MaxSeq(events);
      match baseline {
        case None =>
        case Some(o) =>
          activeAttempt := Some(Attempt(o.attemptId, o.startedAfterSeq, o.turn, o.step, o.nextIndex));
          var index := 0;
          while index < |o.stream|
            invariant index <= ShownMembers(o) && transientInGap == index && (index == 0 || index < o.nextIndex)
            modifies this`transientInGap
            invariant visible == DurableRows(events) + OpeningRows(o, MaxSeq(events), index)
          {
            transientInGap := transientInGap + 1;
            visible := visible +
              [Transient(Fractional(durableCursor, transientInGap),
                         o.attemptId, o.turn, o.step, o.stream[index])];
            index := index + 1;
            if index >= o.nextIndex {
              break;
            }
          }
          assert index == ShownMembers(o);
      }
    }

    /** Publish a durable entry, retiring a retained attempt whose step it ends. */
    method PublishEntry(event: Event) returns (decision: Decision)
      modifies this
      ensures (State(), decision) == old(State()).PublishEvent(event)
    {
      publishedSeqs := publishedSeqs + {event.seqNo};
      if retainedAttempt.Some? && event.kind.StepEnd?
         && event.kind.turn == retainedAttempt.value.turn && event.kind.step == retainedAttempt.value.step {
        decision := Publish(event, Some(retainedAttempt.value.attemptId));
        retainedAttempt := None;
      } else {
        decision := Publish(event, None);
      }
    }

    /** Stage a settlement while its attempt is open; publish every other entry. */
    method AcceptDurable(event: Event) returns (decision: Decision)
      modifies this
      ensures (State(), decision) == old(State()).AcceptDurable(event)
    {
      durableCursor := if event.seqNo > durableCursor then event.seqNo else durableCursor;
      transientInGap := 0;
      if event.IsSettlement() && activeAttempt.Some?
         && (event.kind.AssistantMessage? ==> event.kind.appended)
         && event.seqNo > activeAttempt.value.startedAfterSeq
         && activeAttempt.value.turn == event.kind.turn && activeAttempt.value.step == event.kind.step {
        if event.seqNo in pending {
          return Rebaseline;
        }
        pending := pending[event.seqNo := event];
        return Nothing;
      }
      decision := PublishEntry(event);
    }

    /** Fold one frame and release the settlement it names. */
    method AcceptFrame(frame: Frame) returns (decision: Decision)
      modifies this
      ensures (State(), decision) == old(State()).AcceptFrame(frame)
    {
      decision := Nothing;
      match frame {
        case Start(_, id, after, turn, step) =>
          if activeAttempt.Some? || retainedAttempt.Some? || |pending| > 0 {
            return Rebaseline;
          }
          activeAttempt := Some(Attempt(id, after, turn, step, 0));
        case ChunkFrame(_, id, index, timed) =>
          if activeAttempt.None? || activeAttempt.value.attemptId != id {
            return;
          }
          var attempt := activeAttempt.value;
          if index != attempt.nextIndex {
            return Rebaseline;
          }
          activeAttempt := Some(attempt.(nextIndex := attempt.nextIndex + 1));
          transientInGap := transientInGap + 1;
          decision := Show(Transient(Fractional(durableCursor, transientInGap),
                                     id, attempt.turn, attempt.step, timed));
        case End(_, id, index, outcome) =>
          if activeAttempt.None? || activeAttempt.value.attemptId != id {
            return;
          }
          var attempt := activeAttempt.value;
          activeAttempt := None;
          if index != attempt.nextIndex {
            return Rebaseline;
          }
          decision := CloseAttempt(attempt, outcome);
      }
    }

    /** The end of a well-counted attempt. */
    method CloseAttempt(attempt: Attempt, outcome: Outcome) returns (decision: Decision)
      requires activeAttempt == None
      modifies this
      ensures (State(), decision) ==
              old(State()).(active := Some(attempt)).AcceptEnd(attempt.attemptId, attempt.nextIndex, outcome)
    {
      match outcome {
        case Abandoned =>
          decision := if |pending| == 0 then Abandon(attempt.attemptId) else Rebaseline;
        case Committed(seqNo, isMessage) =>
          if seqNo in publishedSeqs {
            return Nothing;
          }
          if seqNo !in pending || pending[seqNo].kind.AssistantMessage? != isMessage {
            return Rebaseline;
          }
          var event := pending[seqNo];
          pending := pending - {seqNo};
          if event.kind.AssistantMessage? && !event.kind.interrupted {
            retainedAttempt := Some(Retained(attempt.attemptId, attempt.turn, attempt.step));
            decision := PublishEntry(event);
          } else {
            publishedSeqs := publishedSeqs + {event.seqNo};
            decision := Settle(attempt.attemptId, event);
          }
      }
    }
  }
}
