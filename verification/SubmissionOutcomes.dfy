/** When a submitted prompt fails, is admitted and is retired, in terms of the Host log alone. */
module SubmissionOutcomes {
  import opened Options
  import opened InboxReceipts
  import opened Submissions

  /** A splice covers a place of its list at which a request's message is. */
  ghost predicate Covers(log: seq<Event>, id: RequestId, e: nat, i: nat)
    requires e < |log| && log[e].Splice?
  {
    IsAt(At(log, e - 1, log[e].target), i, id) && log[e].start <= i < log[e].start + log[e].removedCount
  }

  /** An event removes the message of a request from the inbox, as a cancellation or to process it. */
  ghost predicate Takes(log: seq<Event>, id: RequestId, e: int, canceled: bool) {
    0 <= e < |log| && log[e].Splice? && log[e].canceled == canceled && exists i: nat :: Covers(log, id, e, i)
  }

  /** Nothing is known yet of what an event does. */
  predicate Unseen(receipt: Option<Receipt>, e: int) {
    receipt.Some? ==> receipt.value.seqNo < e
  }

  /** A receipt without a place is that of a removal that was no cancellation. */
  ghost predicate Taken(log: seq<Event>, id: RequestId, receipt: Option<Receipt>) {
    receipt.Some? && receipt.value.index.None? ==> Takes(log, id, receipt.value.seqNo, false)
  }

  predicate Open(s: Settlement) {
    !s.retiring && !s.admitted
  }

  // --- one submission beside the log ------------------------------------------------------------------

  /** A submission, the last event its client followed, and the seq below which no projection is read any more. */
  datatype Sight = Sight(log: seq<Event>, cursor: int, floor: int, fate: Fate)

  datatype Move =
    | HostAppends(event: Event)
    | FollowNext(inboxSeq: int)
    | ReadInbox(s: int)
    | ReadCached(nextTurn: Messages, nextStep: Messages)
    | ReplaceWindow(first: nat, cut: int, inboxSeq: int)

  ghost predicate Possible(w: Sight, id: RequestId, move: Move) {
    match move
    case HostAppends(event) => WellFormed(w.log + [event], id)
    case FollowNext(_) => w.cursor + 1 < |w.log|
    case ReadInbox(s) => w.floor <= s < |w.log|
    case ReadCached(_, _) => true
    case ReplaceWindow(first, cut, _) => w.cursor <= cut < |w.log| && first <= cut + 1
  }

  function Next(w: Sight, id: RequestId, move: Move): Sight
    requires -1 <= w.floor && -1 <= w.cursor < |w.log| && Possible(w, id, move)
  {
    match move
    case HostAppends(event) => w.(log := w.log + [event])
    case FollowNext(inboxSeq) =>
      var e := w.cursor + 1;
      w.(cursor := e, fate := SeeEvent(w.fate, id, w.log[e], e, inboxSeq))
    case ReadInbox(s) =>
      if w.fate.None? then w
      else
        w.(fate := Some(SeeInbox(w.fate.value, id, At(w.log, s, NextTurn), At(w.log, s, NextStep), Some(s))))
    case ReadCached(nextTurn, nextStep) =>
      if w.fate.None? then w
      else w.(fate := Some(SeeInbox(w.fate.value, id, nextTurn, nextStep, None)))
    case ReplaceWindow(first, cut, inboxSeq) =>
      var baseline := Some(Baseline(At(w.log, cut, NextTurn), At(w.log, cut, NextStep), cut));
      Sight(w.log, cut, cut,
            if w.fate.None? then None
            else SeeWindow(w.fate.value, id, w.log, first, cut + 1, baseline, inboxSeq))
  }

  /** An open submission's receipt is truthful, and without a place it is that of a removal to process it. */
  ghost predicate Truthful(w: Sight, id: RequestId) {
    && WellFormed(w.log, id) && -1 <= w.floor <= w.cursor < |w.log|
    && (w.fate.Some? && Open(w.fate.value) ==>
          Knows(w.log, id, w.cursor, w.floor, w.fate.value.receipt) && Taken(w.log, id, w.fate.value.receipt))
  }

  // --- truth is kept ----------------------------------------------------------------------------------

  lemma TakesLonger(log: seq<Event>, more: seq<Event>, id: RequestId, e: int, canceled: bool)
    requires Takes(log, id, e, canceled)
    ensures Takes(log + more, id, e, canceled)
  {
    var i: nat :| Covers(log, id, e, i);
    AtLonger(log, more, e - 1, log[e].target);
    assert Covers(log + more, id, e, i);
  }

  /** A place that is known is where the message is when the next event comes. */
  lemma PlaceNow(log: seq<Event>, id: RequestId, cursor: int, receipt: Option<Receipt>)
    requires -1 <= cursor < |log| && Aims(log, id, cursor, receipt)
    requires receipt.Some? && receipt.value.index.Some? && receipt.value.seqNo <= cursor
    ensures IsAt(At(log, cursor, receipt.value.target), receipt.value.index.value, id)
  {
    AtUntouched(log, receipt.value.target, receipt.value.seqNo, cursor);
  }

  lemma EventTaken(log: seq<Event>, id: RequestId, cursor: int, receipt: Option<Receipt>)
    requires -1 <= cursor && cursor + 1 < |log| && Aims(log, id, cursor, receipt) && Taken(log, id, receipt)
    requires !Cancels(receipt, log[cursor + 1], cursor + 1)
    ensures Taken(log, id, OnEvent(receipt, id, log[cursor + 1], cursor + 1))
  {
    hide At, Find;
    if receipt.Some? && receipt.value.index.Some? && receipt.value.seqNo <= cursor {
      PlaceNow(log, id, cursor, receipt);
      var event, i := log[cursor + 1], receipt.value.index.value;
      if event.Splice? && event.target == receipt.value.target && event.start <= i < event.start + event.removedCount {
        PlaceCovered(log, id, cursor + 1, i);
      }
    }
  }

  lemma PlaceCovered(log: seq<Event>, id: RequestId, e: nat, i: nat)
    requires e < |log| && log[e].Splice? && IsAt(At(log, e - 1, log[e].target), i, id)
    requires log[e].start <= i < log[e].start + log[e].removedCount
    ensures Takes(log, id, e, log[e].canceled)
  {
    assert Covers(log, id, e, i);
  }

  lemma {:induction false} EventsTaken(s: Settlement, id: RequestId, log: seq<Event>, lo: nat, hi: nat, inboxSeq: int)
    requires lo <= hi <= |log| && WellFormed(log, id) && Aims(log, id, lo - 1, s.receipt) && Taken(log, id, s.receipt)
    ensures var end := SeeEvents(Some(s), id, log, lo, hi, inboxSeq);
            end.Some? && Open(end.value) ==>
              && Aims(log, id, hi - 1, end.value.receipt) && Taken(log, id, end.value.receipt)
    decreases hi - lo
  {
    hide Aims, Taken, Cancels, OnEvent;
    if lo < hi {
      EventsTaken(s, id, log, lo, hi - 1, inboxSeq);
      var before := SeeEvents(Some(s), id, log, lo, hi - 1, inboxSeq);
      var end := SeeEvents(Some(s), id, log, lo, hi, inboxSeq);
      if end.Some? && Open(end.value) {
        OpenBefore(before, id, log[hi - 1], hi - 1, inboxSeq);
        FateFollowsReceipt(before.value, id, log[hi - 1], hi - 1, inboxSeq);
        EventTaken(log, id, hi - 2, before.value.receipt);
        EventAims(log, id, hi - 2, before.value.receipt);
      }
    }
  }

  /** What is open was open before. */
  lemma OpenBefore(fate: Fate, id: RequestId, event: Event, at: int, inboxSeq: int)
    requires var after := SeeEvent(fate, id, event, at, inboxSeq); after.Some? && Open(after.value)
    ensures fate.Some? && Open(fate.value)
  {
  }

  /** Seen in order, the inbox gives an open submission the receipt of a projection. */
  lemma InboxReceipt(s: Settlement, id: RequestId, log: seq<Event>, sq: int)
    requires -1 <= sq < |log| && !s.retiring
    ensures var after := SeeInbox(s, id, At(log, sq, NextTurn), At(log, sq, NextStep), Some(sq));
            Open(after) ==> Open(s) && after.receipt == OnInbox(s.receipt, id, log, sq)
  {
    hide At, Find;
  }

  lemma InboxTaken(log: seq<Event>, id: RequestId, receipt: Option<Receipt>, sq: int)
    requires -1 <= sq < |log| && Taken(log, id, receipt)
    ensures Taken(log, id, OnInbox(receipt, id, log, sq))
  {
    hide At, Find, Takes;
  }

  lemma WindowTruthful(w: Sight, id: RequestId, first: nat, cut: int, inboxSeq: int)
    requires Truthful(w, id) && Possible(w, id, Move.ReplaceWindow(first, cut, inboxSeq))
    ensures Truthful(Next(w, id, Move.ReplaceWindow(first, cut, inboxSeq)), id)
  {
    hide WellFormed, Knows, Taken, SeeEvents, OnInbox, OnEvents;
    var after := Next(w, id, Move.ReplaceWindow(first, cut, inboxSeq));
    if after.fate.Some? && Open(after.fate.value) {
      var s := w.fate.value;
      WindowWasOpen(s, id, w.log, first, cut, inboxSeq);
      FateFollowsWindow(s, id, w.log, first, cut, inboxSeq);
      LaterPlace(w, id, first, cut);
      WindowKnows(w.log, id, s.receipt, first, cut);
      WindowTaken(s, id, w.log, first, cut, inboxSeq);
    }
  }

  /** A receipt newer than the window comes from a projection, and says where the message is. */
  lemma LaterPlace(w: Sight, id: RequestId, first: nat, cut: int)
    requires Truthful(w, id) && w.cursor <= cut < |w.log| && first <= cut + 1
    requires w.fate.Some? && Open(w.fate.value)
    requires w.fate.value.receipt.Some? ==> w.fate.value.receipt.value.seqNo > cut
    ensures var receipt := w.fate.value.receipt;
            && Aims(w.log, id, first - 1, receipt) && Taken(w.log, id, receipt)
            && (receipt.Some? ==> cut < receipt.value.seqNo < |w.log| && receipt.value.index.Some?)
  {
  }

  lemma WindowWasOpen(s: Settlement, id: RequestId, log: seq<Event>, lo: nat, cut: int, inboxSeq: int)
    requires -1 <= cut < |log| && lo <= cut + 1
    requires var end := SeeWindow(s, id, log, lo, cut + 1,
                 Some(Baseline(At(log, cut, NextTurn), At(log, cut, NextStep), cut)), inboxSeq);
             end.Some? && Open(end.value)
    ensures Open(s) && (s.receipt.Some? ==> s.receipt.value.seqNo > cut)
  {
    hide At, Find, SeeEvents;
    if s.receipt.Some? && s.receipt.value.seqNo <= cut {
      FateLatches(Some(Schedule(s)), id, log, lo, cut + 1, inboxSeq);
    } else if !Open(s) {
      FateLatches(Some(s), id, log, lo, cut + 1, inboxSeq);
    }
  }

  lemma WindowTaken(s: Settlement, id: RequestId, log: seq<Event>, lo: nat, cut: int, inboxSeq: int)
    requires WellFormed(log, id) && -1 <= cut < |log| && lo <= cut + 1
    requires Aims(log, id, lo - 1, s.receipt) && Taken(log, id, s.receipt)
    requires s.receipt.Some? ==> s.receipt.value.seqNo > cut
    requires var end := SeeWindow(s, id, log, lo, cut + 1,
                 Some(Baseline(At(log, cut, NextTurn), At(log, cut, NextStep), cut)), inboxSeq);
             end.Some? && Open(end.value)
    ensures Taken(log, id, OnInbox(OnEvents(s.receipt, id, log, lo, cut + 1), id, log, cut))
  {
    hide At, Find, Takes, SeeEvents, Aims, WellFormed, OnEvents, OnInbox, Taken;
    EventsTaken(s, id, log, lo, cut + 1, inboxSeq);
    FateFollowsEvents(s, id, log, lo, cut + 1, inboxSeq);
    InboxTaken(log, id, OnEvents(s.receipt, id, log, lo, cut + 1), cut);
  }

  lemma MoveTruthful(w: Sight, id: RequestId, move: Move)
    requires Truthful(w, id) && Possible(w, id, move)
    ensures Truthful(Next(w, id, move), id)
  {
    hide WellFormed, Knows, Taken, At, Takes;
    match move
    case HostAppends(event) =>
      if w.fate.Some? && Open(w.fate.value) {
        LongerKnows(w.log, [event], id, w.cursor, w.floor, w.fate.value.receipt);
        LongerTaken(w.log, [event], id, w.fate.value.receipt);
      }
    case FollowNext(inboxSeq) =>
      var e, after := w.cursor + 1, Next(w, id, move).fate;
      if after.Some? && Open(after.value) {
        OpenBefore(w.fate, id, w.log[e], e, inboxSeq);
        var receipt := w.fate.value.receipt;
        FateFollowsReceipt(w.fate.value, id, w.log[e], e, inboxSeq);
        EventKnows(w.log, id, w.cursor, w.floor, receipt);
        KnownAims(w.log, id, w.cursor, w.floor, receipt);
        EventTaken(w.log, id, w.cursor, receipt);
      }
    case ReadInbox(s) =>
      if w.fate.Some? && !w.fate.value.retiring {
        InboxReceipt(w.fate.value, id, w.log, s);
        if Open(w.fate.value) {
          InboxKnows(w.log, id, w.cursor, w.floor, w.fate.value.receipt, s);
          InboxTaken(w.log, id, w.fate.value.receipt, s);
        }
      } else if w.fate.Some? {
        RetiringStays(w.fate.value, id, At(w.log, s, NextTurn), At(w.log, s, NextStep), Some(s));
      }
    case ReadCached(nextTurn, nextStep) =>
      if w.fate.Some? {
        CachedKeeps(w.fate.value, id, nextTurn, nextStep);
      }
    case ReplaceWindow(first, cut, inboxSeq) =>
      WindowTruthful(w, id, first, cut, inboxSeq);
  }

  lemma KnownAims(log: seq<Event>, id: RequestId, cursor: int, floor: int, receipt: Option<Receipt>)
    requires Knows(log, id, cursor, floor, receipt)
    ensures Aims(log, id, cursor, receipt)
  {
  }

  lemma LongerTaken(log: seq<Event>, more: seq<Event>, id: RequestId, receipt: Option<Receipt>)
    requires Taken(log, id, receipt)
    ensures Taken(log + more, id, receipt)
  {
    if receipt.Some? && receipt.value.index.None? {
      TakesLonger(log, more, id, receipt.value.seqNo, false);
    }
  }

  lemma RetiringStays(s: Settlement, id: RequestId, nextTurn: Messages, nextStep: Messages, sequenced: Option<int>)
    requires s.retiring
    ensures SeeInbox(s, id, nextTurn, nextStep, sequenced).retiring
  {
  }

  lemma CachedKeeps(s: Settlement, id: RequestId, nextTurn: Messages, nextStep: Messages)
    ensures var after := SeeInbox(s, id, nextTurn, nextStep, None);
            Open(after) ==> Open(s) && after.receipt == s.receipt
  {
  }

  ghost predicate AllPossible(w: Sight, id: RequestId, moves: seq<Move>)
    requires -1 <= w.floor && -1 <= w.cursor < |w.log|
    decreases |moves|
  {
    moves == [] || (Possible(w, id, moves[0]) && AllPossible(Next(w, id, moves[0]), id, moves[1..]))
  }

  function Run(w: Sight, id: RequestId, moves: seq<Move>): Sight
    requires -1 <= w.floor && -1 <= w.cursor < |w.log| && AllPossible(w, id, moves)
    decreases |moves|
  {
    if moves == [] then w else Run(Next(w, id, moves[0]), id, moves[1..])
  }

  lemma {:induction false} RunTruthful(w: Sight, id: RequestId, moves: seq<Move>)
    requires Truthful(w, id) && AllPossible(w, id, moves)
    ensures Truthful(Run(w, id, moves), id)
    decreases |moves|
  {
    hide Truthful;
    if moves != [] {
      TruthfulRanges(w, id);
      MoveTruthful(w, id, moves[0]);
      RunTruthful(Next(w, id, moves[0]), id, moves[1..]);
    }
  }

  lemma TruthfulRanges(w: Sight, id: RequestId)
    requires Truthful(w, id)
    ensures -1 <= w.floor <= w.cursor < |w.log|
  {
  }

  // --- outcomes ---------------------------------------------------------------------------------------

  /**
   After any run that begins before the request reaches the Host, an open submission fails at an event exactly if that
   cancels its message in the inbox, or is a turn edge while the message, once seen, is in the inbox no more: then it
   was removed to be processed, and no user message came of it. A projection that shows more than the event does wins.
   */
  lemma FailsExactly(log: seq<Event>, id: RequestId, cursor: int, floor: int, queued: bool, moves: seq<Move>,
      inboxSeq: int)
    requires WellFormed(log, id) && -1 <= floor <= cursor < |log|
    requires forall s :: -1 <= s < |log| ==> Absent(log, s, id)
    requires AllPossible(Sight(log, cursor, floor, Some(Settlement(queued, false, false, false, None))), id, moves)
    ensures var w := Run(Sight(log, cursor, floor, Some(Settlement(queued, false, false, false, None))), id, moves);
            w.fate.Some? && Open(w.fate.value) && -1 <= w.cursor && w.cursor + 1 < |w.log| ==>
              var e, receipt := w.cursor + 1, w.fate.value.receipt;
              && (SeeEvent(w.fate, id, w.log[e], e, inboxSeq).None? <==>
                  && Unseen(receipt, e)
                  && (|| Takes(w.log, id, e, true)
                      || (w.log[e].TurnEdge? && receipt.Some? && Absent(w.log, w.cursor, id))))
              && (SeeEvent(w.fate, id, w.log[e], e, inboxSeq).None? && w.log[e].TurnEdge? ==>
                    Takes(w.log, id, receipt.value.seqNo, false))
  {
    hide SeeEvent;
    var start := Sight(log, cursor, floor, Some(Settlement(queued, false, false, false, None)));
    assert Truthful(start, id);
    RunTruthful(start, id, moves);
    var w := Run(start, id, moves);
    if w.fate.Some? && Open(w.fate.value) && w.cursor + 1 < |w.log| {
      FailsAt(w, id, inboxSeq);
    }
  }

  lemma FailsAt(w: Sight, id: RequestId, inboxSeq: int)
    requires Truthful(w, id) && w.fate.Some? && Open(w.fate.value) && w.cursor + 1 < |w.log|
    ensures var e, receipt := w.cursor + 1, w.fate.value.receipt;
            && (SeeEvent(w.fate, id, w.log[e], e, inboxSeq).None? <==>
                && Unseen(receipt, e)
                && (|| Takes(w.log, id, e, true)
                    || (w.log[e].TurnEdge? && receipt.Some? && Absent(w.log, w.cursor, id))))
            && (SeeEvent(w.fate, id, w.log[e], e, inboxSeq).None? && w.log[e].TurnEdge? ==>
                  Takes(w.log, id, receipt.value.seqNo, false))
  {
    hide SeeEvent, At, WellFormed;
    var e, s := w.cursor + 1, w.fate.value;
    FateFollowsReceipt(s, id, w.log[e], e, inboxSeq);
    CancelsExactly(w, id);
    LostExactly(w, id);
  }

  lemma CancelsExactly(w: Sight, id: RequestId)
    requires Truthful(w, id) && w.fate.Some? && Open(w.fate.value) && w.cursor + 1 < |w.log|
    ensures var e, receipt := w.cursor + 1, w.fate.value.receipt;
            Cancels(receipt, w.log[e], e) <==> Unseen(receipt, e) && Takes(w.log, id, e, true)
  {
    hide At;
    var e, receipt, event := w.cursor + 1, w.fate.value.receipt, w.log[w.cursor + 1];
    if receipt.Some? && receipt.value.index.Some? && receipt.value.seqNo <= w.cursor {
      PlaceNow(w.log, id, w.cursor, receipt);
      if Cancels(receipt, event, e) {
        PlaceCovered(w.log, id, e, receipt.value.index.value);
      }
    }
    if Unseen(receipt, e) && Takes(w.log, id, e, true) {
      var i: nat :| Covers(w.log, id, e, i);
      assert !Absent(w.log, w.cursor, id);
      OnePlace(w.log, w.cursor, id, event.target, i, receipt.value.target, receipt.value.index.value);
    }
  }

  lemma LostExactly(w: Sight, id: RequestId)
    requires Truthful(w, id) && w.fate.Some? && Open(w.fate.value) && w.cursor + 1 < |w.log|
    ensures var e, receipt := w.cursor + 1, w.fate.value.receipt;
            Lost(w.fate.value, e) <==> receipt.Some? && Unseen(receipt, e) && Absent(w.log, w.cursor, id)
  {
    hide At;
    var receipt := w.fate.value.receipt;
    if receipt.Some? && receipt.value.index.Some? && receipt.value.seqNo <= w.cursor {
      PlaceNow(w.log, id, w.cursor, receipt);
    }
  }

  /** An event admits a submission exactly if it is a user message of that request; what is admitted never fails. */
  lemma AdmittedExactly(s: Settlement, id: RequestId, event: Event, at: int, inboxSeq: int)
    requires !s.retiring
    ensures var fate := SeeEvent(Some(s), id, event, at, inboxSeq);
            && (fate.Some? && fate.value.admitted <==> s.admitted || event == UserMessage(Some(id)))
            && (s.admitted ==> fate.Some?)
  {
  }

  /**
   An event has a submission retired as observed exactly if it is its user message and the inbox is as new as the
   removal the client knows of; a window has those retired that it already covers.
   */
  lemma RetiredExactly(s: Settlement, id: RequestId, event: Event, at: int, inboxSeq: int)
    requires !s.retiring
    ensures var fate := SeeEvent(Some(s), id, event, at, inboxSeq);
            fate.Some? && fate.value.retiring <==>
            event == UserMessage(Some(id))
            && !(s.receipt.Some? && s.receipt.value.index.None? && inboxSeq < s.receipt.value.seqNo)
    ensures SeeCovered(s, at).retiring <==> s.receipt.Some? && s.receipt.value.seqNo <= at
  {
    hide Find;
  }

  /** A projected inbox has those retired that it shows as queued, and those admitted that it catches up with. */
  lemma InboxRetires(s: Settlement, id: RequestId, nextTurn: Messages, nextStep: Messages, sequenced: Option<int>)
    requires !s.retiring
    ensures var after := SeeInbox(s, id, nextTurn, nextStep, sequenced);
            var sq := if sequenced.Some? then sequenced.value else -1;
            after.retiring <==>
              || (s.queued && (Some(id) in nextTurn || Some(id) in nextStep))
              || (s.admitted
                  && !(after.receipt.Some? && after.receipt.value.index.None? && sq < after.receipt.value.seqNo))
  {
    hide Find;
  }

  /** A sight of its message accepts a submission: as one of those an event inserts, or in a projected inbox. */
  lemma AcceptedExactly(s: Settlement, id: RequestId, event: Event, at: int, inboxSeq: int)
    requires !s.retiring
    ensures var fate := SeeEvent(Some(s), id, event, at, inboxSeq);
            fate.Some? ==>
            (fate.value.accepted <==>
             s.accepted || (event.Splice? && Some(id) in event.inserted && Unseen(s.receipt, at + 1)))
  {
  }
}
