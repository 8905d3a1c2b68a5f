/** Where one submitted message is in the Host inbox, followed through splices, projections and reconnects. */
module InboxReceipts {
  import opened Options

  type RequestId = string

  datatype Target = NextTurn | NextStep

  /** Inbox messages are known by the request that submitted them, if any. */
  type Messages = seq<Option<RequestId>>

  datatype Event =
    | Splice(target: Target, start: nat, removedCount: nat, inserted: Messages, canceled: bool)
    | TurnEdge // a request or the end of a turn
    | UserMessage(request: Option<RequestId>)
    | OtherEvent

  /** A list after one event. */
  function Spliced(before: Messages, event: Event, target: Target): Messages {
    if event.Splice? && event.target == target && event.start + event.removedCount <= |before| then
      before[..event.start] + event.inserted + before[event.start + event.removedCount..]
    else before
  }

  /** A list of the inbox after some events. */
  function ListOf(log: seq<Event>, target: Target): Messages {
    if log == [] then [] else Spliced(ListOf(log[..|log| - 1], target), log[|log| - 1], target)
  }

  function Other(target: Target): Target {
    if target.NextTurn? then NextStep else NextTurn
  }

  /** The inbox as of a seq. */
  function At(log: seq<Event>, s: int, target: Target): Messages
    requires -1 <= s < |log|
  {
    ListOf(log[..s + 1], target)
  }

  /** A request is at most once in the inbox. */
  ghost predicate Once(log: seq<Event>, s: int, id: RequestId)
    requires -1 <= s < |log|
  {
    forall t, u: Target, i, j {:trigger At(log, s, t)[i], At(log, s, u)[j]} ::
      0 <= i < |At(log, s, t)| && 0 <= j < |At(log, s, u)| && At(log, s, t)[i] == At(log, s, u)[j] == Some(id) ==>
          t == u && i == j
  }

  ghost predicate Absent(log: seq<Event>, s: int, id: RequestId)
    requires -1 <= s < |log|
  {
    forall t :: Some(id) !in At(log, s, t)
  }

  /** Splices stay inside their list, and a request is never in the inbox twice. */
  ghost predicate WellFormed(log: seq<Event>, id: RequestId) {
    && (forall s :: -1 <= s < |log| ==> Once(log, s, id))
    && (forall s {:trigger log[s]} :: 0 <= s < |log| && log[s].Splice? ==>
          log[s].start + log[s].removedCount <= |At(log, s - 1, log[s].target)|)
  }

  // --- the receipt ----------------------------------------------------------------------------------

  datatype Receipt = Receipt(target: Target, seqNo: int, index: Option<nat>)

  /** Follow one splice: a removed message has no index, one behind the splice moves. */
  function OnSplice(receipt: Option<Receipt>, event: Event, at: int): Option<Receipt>
    requires event.Splice?
  {
    match receipt
    case Some(Receipt(target, seqNo, Some(index))) =>
      if target != event.target || seqNo >= at then receipt
      else
        var removed := event.start <= index < event.start + event.removedCount;
        Some(Receipt(target, at,
          if removed then None
          else if index < event.start then Some(index)
          else Some(index + |event.inserted| - event.removedCount)))
    case _ => receipt
  }

  /** The last place of a request in some messages. */
  function Find(messages: Messages, id: RequestId): (k: Option<nat>)
    ensures k.Some? ==> k.value < |messages| && messages[k.value] == Some(id)
    ensures k.None? ==> Some(id) !in messages
  {
    if messages == [] then None
    else
      var n := |messages| - 1;
      assert messages == messages[..n] + [messages[n]];
      if messages[n] == Some(id) then Some(n) else Find(messages[..n], id)
  }

  /** See a message among those that appeared at a place, unless a later sight is known. */
  function OnInserted(receipt: Option<Receipt>, id: RequestId, target: Target, messages: Messages, start: nat,
      at: int): Option<Receipt> {
    match Find(messages, id)
    case Some(k) => if receipt.Some? && receipt.value.seqNo > at then receipt
        else Some(Receipt(target, at, Some(start + k)))
    case None => receipt
  }

  function OnEvent(receipt: Option<Receipt>, id: RequestId, event: Event, at: int): Option<Receipt> {
    if event.Splice? then
      OnInserted(OnSplice(receipt, event, at), id, event.target, event.inserted, event.start, at)
    else receipt
  }

  /** See the whole inbox as a projection of some seq. */
  function OnInbox(receipt: Option<Receipt>, id: RequestId, log: seq<Event>, s: int): Option<Receipt>
    requires -1 <= s < |log|
  {
    OnInserted(OnInserted(receipt, id, NextTurn, At(log, s, NextTurn), 0, s), id, NextStep, At(log, s, NextStep), 0, s)
  }

  /** Observe the events of a range in order. */
  function OnEvents(receipt: Option<Receipt>, id: RequestId, log: seq<Event>, lo: nat, hi: nat): Option<Receipt>
    requires lo <= hi <= |log|
    decreases hi - lo
  {
    if lo == hi then receipt else OnEvent(OnEvents(receipt, id, log, lo, hi - 1), id, log[hi - 1], hi - 1)
  }

  // --- one submission's run -------------------------------------------------------------------------

  /**
   One submission beside the Host log: the last event its client followed, the seq below which no projection is read
   any more, and what is known of its place. A submission that is being retired is no longer followed.
   */
  datatype Track = Track(log: seq<Event>, cursor: int, floor: int, receipt: Option<Receipt>, followed: bool)

  datatype Step =
    | HostAppends(event: Event)
    | FollowNext
    | ReadInbox(s: int)
    | ReplaceWindow(first: nat, cut: int)
    | Retire

  ghost predicate Possible(w: Track, id: RequestId, step: Step) {
    match step
    case HostAppends(event) => WellFormed(w.log + [event], id)
    case FollowNext => w.cursor + 1 < |w.log|
    case ReadInbox(s) => w.floor <= s < |w.log|
    case ReplaceWindow(first, cut) => w.cursor <= cut < |w.log| && first <= cut + 1
    case Retire => true
  }

  /** A canceled removal of the followed message fails the submission. */
  predicate Cancels(receipt: Option<Receipt>, event: Event, at: int) {
    && receipt.Some? && receipt.value.index.Some? && event.Splice? && event.target == receipt.value.target
    && receipt.value.seqNo < at && event.canceled
    && event.start <= receipt.value.index.value < event.start + event.removedCount
  }

  function Next(w: Track, id: RequestId, step: Step): Track
    requires -1 <= w.floor && -1 <= w.cursor < |w.log| && Possible(w, id, step)
  {
    match step
    case HostAppends(event) => w.(log := w.log + [event])
    case FollowNext =>
      var e := w.cursor + 1;
      w.(cursor := e, receipt := OnEvent(w.receipt, id, w.log[e], e),
         followed := w.followed && !Cancels(w.receipt, w.log[e], e))
    case ReadInbox(s) => w.(receipt := OnInbox(w.receipt, id, w.log, s))
    case ReplaceWindow(first, cut) =>
      if w.receipt.Some? && w.receipt.value.seqNo <= cut then w.(cursor := cut, floor := cut, followed := false)
      else
        w.(cursor := cut, floor := cut,
           receipt := OnInbox(OnEvents(w.receipt, id, w.log, first, cut + 1), id, w.log, cut))
    case Retire => w.(followed := false)
  }

  /** No followed event after a seq touches a list. */
  ghost predicate Untouched(log: seq<Event>, target: Target, after: int, cursor: int)
    requires -1 <= after && cursor < |log|
  {
    forall e {:trigger log[e]} :: after < e <= cursor ==> !(log[e].Splice? && log[e].target == target)
  }

  /** A place is right as of its own seq, and no event followed since touched its list. */
  ghost predicate Aims(log: seq<Event>, id: RequestId, cursor: int, receipt: Option<Receipt>)
    requires -1 <= cursor < |log|
  {
    receipt.Some? ==>
      && -1 <= receipt.value.seqNo < |log|
      && (receipt.value.index.Some? ==>
            && IsAt(At(log, receipt.value.seqNo, receipt.value.target), receipt.value.index.value, id)
            && Untouched(log, receipt.value.target, receipt.value.seqNo, cursor))
  }

  predicate IsAt(messages: Messages, i: nat, id: RequestId) {
    i < |messages| && messages[i] == Some(id)
  }

  /** Without a place, the request has been out of the inbox since the receipt, as far as events were followed. */
  ghost predicate Misses(log: seq<Event>, id: RequestId, cursor: int, floor: int, receipt: Option<Receipt>)
    requires -1 <= floor <= cursor < |log|
  {
    match receipt
    case None => AbsentFrom(log, id, floor, cursor)
    case Some(Receipt(target, seqNo, None)) =>
      seqNo <= cursor && AbsentFrom(log, id, if seqNo > floor then seqNo else floor, cursor)
    case _ => true
  }

  ghost predicate AbsentFrom(log: seq<Event>, id: RequestId, from: int, cursor: int)
    requires -1 <= from && cursor < |log|
  {
    forall s {:trigger Absent(log, s, id)} :: from <= s <= cursor ==> Absent(log, s, id)
  }

  ghost predicate Knows(log: seq<Event>, id: RequestId, cursor: int, floor: int, receipt: Option<Receipt>) {
    -1 <= floor <= cursor < |log| && Aims(log, id, cursor, receipt) && Misses(log, id, cursor, floor, receipt)
  }

  ghost predicate Tracks(w: Track, id: RequestId) {
    && WellFormed(w.log, id) && -1 <= w.floor <= w.cursor < |w.log|
    && (w.followed ==> Knows(w.log, id, w.cursor, w.floor, w.receipt))
  }

  // --- following events -----------------------------------------------------------------------------

  lemma AtStep(log: seq<Event>, s: nat, target: Target)
    requires s < |log|
    ensures At(log, s, target) == Spliced(At(log, s - 1, target), log[s], target)
  {
    assert log[..s + 1][..s] == log[..s];
  }

  lemma AtLonger(log: seq<Event>, more: seq<Event>, s: int, target: Target)
    requires -1 <= s < |log|
    ensures At(log + more, s, target) == At(log, s, target)
  {
    assert (log + more)[..s + 1] == log[..s + 1];
  }

  /** An untouched list is what it was. */
  lemma {:induction false} AtUntouched(log: seq<Event>, target: Target, after: int, cursor: int)
    requires -1 <= after <= cursor < |log| && Untouched(log, target, after, cursor)
    ensures At(log, cursor, target) == At(log, after, target)
    decreases cursor - after
  {
    if after < cursor {
      AtStep(log, cursor, target);
      AtUntouched(log, target, after, cursor - 1);
    }
  }

  /** A request that is in the inbox is in one place. */
  lemma OnePlace(log: seq<Event>, s: int, id: RequestId, t: Target, i: nat, u: Target, j: nat)
    requires -1 <= s < |log| && Once(log, s, id) && IsAt(At(log, s, t), i, id) && IsAt(At(log, s, u), j, id)
    ensures t == u && i == j
  {
    assert At(log, s, t)[i] == At(log, s, u)[j];
  }

  /** A splice inside its list, position by position. */
  lemma SplicedAt(before: Messages, event: Event, i: nat)
    requires event.Splice? && event.start + event.removedCount <= |before|
    ensures var after := Spliced(before, event, event.target);
            && |after| == |before| + |event.inserted| - event.removedCount
            && (i < event.start ==> after[i] == before[i])
            && (i < |event.inserted| ==> after[event.start + i] == event.inserted[i])
            && (event.start + event.removedCount <= i < |before| ==>
                after[i + |event.inserted| - event.removedCount] == before[i])
  {
  }

  lemma SplicedMembers(before: Messages, event: Event, target: Target, id: RequestId)
    requires Some(id) in Spliced(before, event, target)
    ensures Some(id) in before || (event.Splice? && event.target == target && Some(id) in event.inserted)
  {
  }

  /** A message removed by a splice that does not put it back is nowhere in the list. */
  lemma RemovedGone(before: Messages, event: Event, i: nat, id: RequestId)
    requires event.Splice? && event.start + event.removedCount <= |before| && Some(id) !in event.inserted
    requires event.start <= i < event.start + event.removedCount
    requires forall j :: 0 <= j < |before| && before[j] == Some(id) ==> j == i
    ensures Some(id) !in Spliced(before, event, event.target)
  {
  }

  lemma EventAims(log: seq<Event>, id: RequestId, cursor: int, receipt: Option<Receipt>)
    requires WellFormed(log, id) && -1 <= cursor && cursor + 1 < |log| && Aims(log, id, cursor, receipt)
    ensures Aims(log, id, cursor + 1, OnEvent(receipt, id, log[cursor + 1], cursor + 1))
  {
    hide At, Spliced, Find;
    var e, event := cursor + 1, log[cursor + 1];
    if event.Splice? {
      var before := At(log, cursor, event.target);
      AtStep(log, e, event.target);
      if Find(event.inserted, id).Some? {
        SplicedAt(before, event, Find(event.inserted, id).value);
      }
      if receipt.Some? && receipt.value.index.Some? && receipt.value.seqNo <= cursor
          && receipt.value.target == event.target {
        AtUntouched(log, event.target, receipt.value.seqNo, cursor);
        SplicedAt(before, event, receipt.value.index.value);
      }
    }
  }

  /** What is absent stays absent unless an event inserts it. */
  lemma AbsentNext(log: seq<Event>, id: RequestId, e: nat)
    requires e < |log| && Absent(log, e - 1, id) && !(log[e].Splice? && Some(id) in log[e].inserted)
    ensures Absent(log, e, id)
  {
    forall t
      ensures Some(id) !in At(log, e, t)
    {
      AtStep(log, e, t);
      assert Some(id) !in At(log, e - 1, t);
      if Some(id) in At(log, e, t) {
        SplicedMembers(At(log, e - 1, t), log[e], t, id);
      }
    }
  }

  lemma RemovedAbsent(log: seq<Event>, id: RequestId, e: nat, i: nat)
    requires WellFormed(log, id) && e < |log| && log[e].Splice? && IsAt(At(log, e - 1, log[e].target), i, id)
    requires log[e].start <= i < log[e].start + log[e].removedCount && Some(id) !in log[e].inserted
    ensures Absent(log, e, id)
  {
    var event := log[e];
    assert Once(log, e - 1, id);
    forall t
      ensures Some(id) !in At(log, e, t)
    {
      AtStep(log, e, t);
      var before := At(log, e - 1, t);
      forall j | 0 <= j < |before| && before[j] == Some(id)
        ensures t == event.target && j == i
      {
        OnePlace(log, e - 1, id, t, j, event.target, i);
      }
      if t == event.target {
        RemovedGone(before, event, i, id);
      }
    }
  }

  /** One event is followed exactly as the inbox changes. */
  lemma EventKnows(log: seq<Event>, id: RequestId, cursor: int, floor: int, receipt: Option<Receipt>)
    requires WellFormed(log, id) && cursor + 1 < |log| && Knows(log, id, cursor, floor, receipt)
    ensures Knows(log, id, cursor + 1, floor, OnEvent(receipt, id, log[cursor + 1], cursor + 1))
  {
    var e, event := cursor + 1, log[cursor + 1];
    EventAims(log, id, cursor, receipt);
    if receipt.None? || receipt.value.index.None? {
      assert Absent(log, cursor, id);
      if !(event.Splice? && Some(id) in event.inserted) {
        AbsentNext(log, id, e);
      }
    } else if event.Splice? && receipt.value.target == event.target && receipt.value.seqNo < e {
      var i := receipt.value.index.value;
      AtUntouched(log, event.target, receipt.value.seqNo, cursor);
      if event.start <= i < event.start + event.removedCount && Some(id) !in event.inserted {
        RemovedAbsent(log, id, e, i);
      }
    }
  }

  lemma {:induction false} EventsAim(log: seq<Event>, id: RequestId, lo: nat, hi: nat, receipt: Option<Receipt>)
    requires WellFormed(log, id) && lo <= hi <= |log| && (receipt.Some? ==> hi <= receipt.value.seqNo)
    requires lo - 1 < |log| && Aims(log, id, lo - 1, receipt)
    ensures Aims(log, id, hi - 1, OnEvents(receipt, id, log, lo, hi))
    ensures OnEvents(receipt, id, log, lo, hi).Some? && receipt.None? ==>
              OnEvents(receipt, id, log, lo, hi).value.seqNo < hi
    ensures receipt.Some? ==> OnEvents(receipt, id, log, lo, hi) == receipt
    decreases hi - lo
  {
    if lo < hi {
      EventsAim(log, id, lo, hi - 1, receipt);
      EventAims(log, id, hi - 2, OnEvents(receipt, id, log, lo, hi - 1));
    }
  }

  // --- seeing the whole inbox -----------------------------------------------------------------------

  /** Seeing the inbox of a seq gives the place the request has in it, unless something later is known. */
  lemma SeenInbox(log: seq<Event>, id: RequestId, s: int, receipt: Option<Receipt>)
    requires -1 <= s < |log| && Once(log, s, id)
    ensures Absent(log, s, id) || (receipt.Some? && receipt.value.seqNo > s) ==> OnInbox(receipt, id, log, s) == receipt
    ensures forall t, i: nat :: IsAt(At(log, s, t), i, id) && !(receipt.Some? && receipt.value.seqNo > s) ==>
              OnInbox(receipt, id, log, s) == Some(Receipt(t, s, Some(i)))
  {
    forall t, i: nat | IsAt(At(log, s, t), i, id) && !(receipt.Some? && receipt.value.seqNo > s)
      ensures OnInbox(receipt, id, log, s) == Some(Receipt(t, s, Some(i)))
    {
      var turn, step := Find(At(log, s, NextTurn), id), Find(At(log, s, NextStep), id);
      if turn.Some? {
        OnePlace(log, s, id, t, i, NextTurn, turn.value);
      }
      if step.Some? {
        OnePlace(log, s, id, t, i, NextStep, step.value);
      }
    }
    assert Absent(log, s, id) ==> Some(id) !in At(log, s, NextTurn) && Some(id) !in At(log, s, NextStep);
  }

  /** A projection of any seq from the floor on, seen early or late, is believed only where it adds something. */
  lemma InboxKnows(log: seq<Event>, id: RequestId, cursor: int, floor: int, receipt: Option<Receipt>, s: int)
    requires WellFormed(log, id) && Knows(log, id, cursor, floor, receipt) && floor <= s < |log|
    ensures Knows(log, id, cursor, floor, OnInbox(receipt, id, log, s))
  {
    SeenInbox(log, id, s, receipt);
    if t, i: nat :| IsAt(At(log, s, t), i, id) && !(receipt.Some? && receipt.value.seqNo > s) {
      if s <= cursor {
        assert !Absent(log, s, id);
        assert receipt.Some? && receipt.value.index.Some?;
        AtUntouched(log, receipt.value.target, receipt.value.seqNo, s);
        OnePlace(log, s, id, t, i, receipt.value.target, receipt.value.index.value);
      }
    } else {
      InInbox(log, id, s);
    }
  }

  lemma InInbox(log: seq<Event>, id: RequestId, s: int)
    requires -1 <= s < |log|
    ensures !Absent(log, s, id) ==> exists t, i: nat :: IsAt(At(log, s, t), i, id)
  {
    if t :| Some(id) in At(log, s, t) {
      var i :| 0 <= i < |At(log, s, t)| && At(log, s, t)[i] == Some(id);
      assert IsAt(At(log, s, t), i, id);
    }
  }

  /** A new window is followed from nothing: its events, then the inbox as of its end. */
  lemma WindowKnows(log: seq<Event>, id: RequestId, receipt: Option<Receipt>, first: nat, cut: int)
    requires WellFormed(log, id) && -1 <= cut < |log| && first <= cut + 1
    requires receipt.Some? ==>
             cut < receipt.value.seqNo < |log| && Aims(log, id, first - 1, receipt) && receipt.value.index.Some?
    ensures Knows(log, id, cut, cut, OnInbox(OnEvents(receipt, id, log, first, cut + 1), id, log, cut))
  {
    var followed := OnEvents(receipt, id, log, first, cut + 1);
    EventsAim(log, id, first, cut + 1, receipt);
    SeenInbox(log, id, cut, followed);
    if t, i: nat :| IsAt(At(log, cut, t), i, id) && followed.None? {
    } else {
      InInbox(log, id, cut);
      if followed.Some? && followed.value.seqNo <= cut && followed.value.index.Some? {
        AtUntouched(log, followed.value.target, followed.value.seqNo, cut);
        assert !Absent(log, cut, id);
      }
    }
  }

  lemma LongerKnows(log: seq<Event>, more: seq<Event>, id: RequestId, cursor: int, floor: int, receipt: Option<Receipt>)
    requires Knows(log, id, cursor, floor, receipt)
    ensures Knows(log + more, id, cursor, floor, receipt)
  {
    forall s, t | -1 <= s < |log|
      ensures At(log + more, s, t) == At(log, s, t)
    {
      AtLonger(log, more, s, t);
    }
    forall s | -1 <= s < |log|
      ensures Absent(log + more, s, id) == Absent(log, s, id)
    {
    }
  }

  lemma StepTracks(w: Track, id: RequestId, step: Step)
    requires Tracks(w, id) && Possible(w, id, step)
    ensures Tracks(Next(w, id, step), id)
  {
    if w.followed {
      match step
      case HostAppends(event) => LongerKnows(w.log, [event], id, w.cursor, w.floor, w.receipt);
      case FollowNext => EventKnows(w.log, id, w.cursor, w.floor, w.receipt);
      case ReadInbox(s) => InboxKnows(w.log, id, w.cursor, w.floor, w.receipt, s);
      case ReplaceWindow(first, cut) =>
        if !(w.receipt.Some? && w.receipt.value.seqNo <= cut) {
          WindowKnows(w.log, id, w.receipt, first, cut);
        }
      case Retire =>
    }
  }

  ghost predicate AllPossible(w: Track, id: RequestId, steps: seq<Step>)
    requires -1 <= w.floor && -1 <= w.cursor < |w.log|
    decreases |steps|
  {
    steps == [] ||
    (Possible(w, id, steps[0]) && AllPossible(Next(w, id, steps[0]), id, steps[1..]))
  }

  function Run(w: Track, id: RequestId, steps: seq<Step>): Track
    requires -1 <= w.floor && -1 <= w.cursor < |w.log| && AllPossible(w, id, steps)
    decreases |steps|
  {
    if steps == [] then w else Run(Next(w, id, steps[0]), id, steps[1..])
  }

  lemma {:induction false} RunTracks(w: Track, id: RequestId, steps: seq<Step>)
    requires Tracks(w, id) && AllPossible(w, id, steps)
    ensures Tracks(Run(w, id, steps), id)
    decreases |steps|
  {
    if steps != [] {
      StepTracks(w, id, steps[0]);
      RunTracks(Next(w, id, steps[0]), id, steps[1..]);
    }
  }

  /**
   Through any run that begins before the request reaches the Host, however old the projections that are still to come,
   a followed receipt names a place exactly when the message is there: as of the last followed event, or as of the later
   projection the receipt came from.
   */
  lemma ReceiptIsPosition(log: seq<Event>, id: RequestId, cursor: int, floor: int, steps: seq<Step>, target: Target,
      i: nat)
    requires WellFormed(log, id) && -1 <= floor <= cursor < |log|
    requires forall s :: -1 <= s < |log| ==> Absent(log, s, id)
    requires AllPossible(Track(log, cursor, floor, None, true), id, steps)
    requires Run(Track(log, cursor, floor, None, true), id, steps).followed
    ensures var w := Run(Track(log, cursor, floor, None, true), id, steps);
            var asOf := if w.receipt.Some? && w.receipt.value.seqNo > w.cursor then w.receipt.value.seqNo else w.cursor;
            && -1 <= asOf < |w.log|
            && (IsAt(At(w.log, asOf, target), i, id) <==>
                w.receipt.Some? && w.receipt.value.target == target && w.receipt.value.index == Some(i))
  {
    RunTracks(Track(log, cursor, floor, None, true), id, steps);
    var w := Run(Track(log, cursor, floor, None, true), id, steps);
    var asOf := if w.receipt.Some? && w.receipt.value.seqNo > w.cursor then w.receipt.value.seqNo else w.cursor;
    assert Once(w.log, asOf, id);
    if w.receipt.Some? && w.receipt.value.index.Some? {
      AtUntouched(w.log, w.receipt.value.target, w.receipt.value.seqNo, asOf);
      if IsAt(At(w.log, asOf, target), i, id) {
        OnePlace(w.log, asOf, id, target, i, w.receipt.value.target, w.receipt.value.index.value);
      }
    } else {
      assert Absent(w.log, asOf, id);
    }
  }
}
