/** The local echoes of submitted prompts, from their first sight in the Host to their one retirement. */
module Submissions {
  import opened Options
  import opened InboxReceipts
  import opened Sequences

  datatype Settlement = Settlement(queued: bool, accepted: bool, retiring: bool, admitted: bool,
      receipt: Option<Receipt>)

  type Settlements = map<RequestId, Settlement>

  /** What a submitter is told. */
  datatype Notice = Accepted(id: RequestId) | Retired(id: RequestId, observed: bool)

  // --- what each observation means for one submission -------------------------------------------------

  /** A submission's settlement, or none when it is finished. */
  type Fate = Option<Settlement>

  function Accept(s: Settlement): Settlement {
    s.(accepted := true)
  }

  function Fail(s: Settlement): Fate {
    if s.retiring || s.admitted then Some(s) else None
  }

  function Schedule(s: Settlement): Settlement {
    s.(retiring := true)
  }

  /** The inbox shows some messages at a place, as of a seq. */
  function SeeInserted(s: Settlement, id: RequestId, target: Target, messages: Messages, start: nat,
      at: int): Settlement {
    if s.retiring || Find(messages, id).None? || (s.receipt.Some? && s.receipt.value.seqNo > at) then s
    else Accept(s).(receipt := OnInserted(s.receipt, id, target, messages, start, at))
  }

  function SeeSplice(s: Settlement, event: Event, at: int): Fate
    requires event.Splice?
  {
    if Cancels(s.receipt, event, at) then Fail(s) else Some(s.(receipt := OnSplice(s.receipt, event, at)))
  }

  /** One message of an inbox list, unless a later sight of it is known. */
  function SeeMessage(s: Settlement, id: RequestId, message: Option<RequestId>, target: Target, place: nat,
      at: int): Settlement {
    if message != Some(id) || s.retiring || (s.receipt.Some? && s.receipt.value.seqNo > at) then s
    else Accept(s.(receipt := Some(Receipt(target, at, Some(place)))))
  }

  lemma SeeInsertedNext(s: Settlement, id: RequestId, target: Target, messages: Messages, k: nat, start: nat, at: int)
    requires k < |messages| && at >= -1
    ensures SeeInserted(s, id, target, messages[..k + 1], start, at)
            == SeeMessage(SeeInserted(s, id, target, messages[..k], start, at), id, messages[k], target, start + k, at)
  {
    assert messages[..k + 1] == messages[..k] + [messages[k]];
  }

  lemma SeeNoMessages(s: Settlement, id: RequestId, target: Target, start: nat, at: int)
    ensures SeeInserted(s, id, target, [], start, at) == s
  {
  }

  predicate Lost(s: Settlement, at: int) {
    !s.admitted && s.receipt.Some? && s.receipt.value.index.None? && s.receipt.value.seqNo < at
  }

  /** An admitted submission retires once no stale inbox can show it again. */
  function Settle(s: Settlement, inboxSeq: int): Settlement {
    if !s.admitted || (s.receipt.Some? && s.receipt.value.index.None? && inboxSeq < s.receipt.value.seqNo) then s
    else Schedule(s)
  }

  function SeeEvent(fate: Fate, id: RequestId, event: Event, at: int, inboxSeq: int): Fate {
    if fate.None? then None
    else
      var s := fate.value;
      match event
      case Splice(target, start, _, inserted, _) =>
        (match SeeSplice(s, event, at)
         case Some(t) => Some(SeeInserted(t, id, target, inserted, start, at))
         case None => None)
      case TurnEdge => if Lost(s, at) then Fail(s) else fate
      case UserMessage(request) =>
        if request != Some(id) || s.retiring then fate else Some(Settle(s.(admitted := true), inboxSeq))
      case OtherEvent => fate
  }

  /** Queued echoes retire as soon as the inbox shows them. */
  function SeeQueued(s: Settlement, id: RequestId, messages: Messages): Settlement {
    if s.queued && Some(id) in messages then Schedule(s) else s
  }

  function SeeList(s: Settlement, id: RequestId, target: Target, messages: Messages,
      sequenced: Option<int>): Settlement {
    var t := if sequenced.Some? then SeeInserted(s, id, target, messages, 0, sequenced.value) else s;
    SeeQueued(t, id, messages)
  }

  /** The projected inbox: both lists are seen, then what is admitted settles. */
  function SeeInbox(s: Settlement, id: RequestId, nextTurn: Messages, nextStep: Messages,
      sequenced: Option<int>): Settlement {
    Settle(SeeList(SeeList(s, id, NextTurn, nextTurn, sequenced), id, NextStep, nextStep, sequenced),
           if sequenced.Some? then sequenced.value else -1)
  }

  /** The events of a range of the Host log, in order. */
  function SeeEvents(fate: Fate, id: RequestId, log: seq<Event>, lo: nat, hi: nat, inboxSeq: int): Fate
    requires lo <= hi <= |log|
    decreases hi - lo
  {
    if lo == hi then fate
    else SeeEvent(SeeEvents(fate, id, log, lo, hi - 1, inboxSeq), id, log[hi - 1], hi - 1, inboxSeq)
  }

  /** The inbox that comes with a window, as of the window's end. */
  datatype Baseline = Baseline(nextTurn: Messages, nextStep: Messages, asOf: int)

  /** A submission whose message a baseline already covers is observed. */
  function SeeCovered(s: Settlement, asOf: int): Settlement {
    if s.receipt.Some? && s.receipt.value.seqNo <= asOf then Schedule(s) else s
  }

  function SeeBaselineSeq(s: Settlement, baseline: Option<Baseline>): Settlement {
    if baseline.Some? then SeeCovered(s, baseline.value.asOf) else s
  }

  function SeeBaselineInbox(s: Settlement, id: RequestId, baseline: Option<Baseline>): Settlement {
    match baseline
    case None => s
    case Some(Baseline(nextTurn, nextStep, asOf)) =>
      SeeInserted(SeeInserted(s, id, NextTurn, nextTurn, 0, asOf), id, NextStep, nextStep, 0, asOf)
  }

  /** A replaced window: what the baseline already covers retires, then its events and its inbox are seen. */
  function SeeWindow(s: Settlement, id: RequestId, log: seq<Event>, lo: nat, hi: nat, baseline: Option<Baseline>,
      inboxSeq: int): Fate
    requires lo <= hi <= |log|
  {
    match SeeEvents(Some(SeeBaselineSeq(s, baseline)), id, log, lo, hi, inboxSeq)
    case None => None
    case Some(t) => Some(SeeBaselineInbox(t, id, baseline))
  }

  /** A submission that is neither retiring nor admitted is followed exactly as its receipt is. */
  lemma FateFollowsReceipt(s: Settlement, id: RequestId, event: Event, at: int, inboxSeq: int)
    requires !s.retiring && !s.admitted
    ensures var fate := SeeEvent(Some(s), id, event, at, inboxSeq);
            && (fate.None? <==> Cancels(s.receipt, event, at) || (event.TurnEdge? && Lost(s, at)))
            && (fate.Some? ==> fate.value.receipt == OnEvent(s.receipt, id, event, at))
            && (fate.Some? && fate.value.receipt.Some? && s.receipt.None? ==> fate.value.accepted)
  {
  }

  lemma {:induction false} NoneSeesNothing(id: RequestId, log: seq<Event>, lo: nat, hi: nat, inboxSeq: int)
    requires lo <= hi <= |log|
    ensures SeeEvents(None, id, log, lo, hi, inboxSeq) == None
    decreases hi - lo
  {
    if lo < hi {
      NoneSeesNothing(id, log, lo, hi - 1, inboxSeq);
    }
  }

  /** Retiring and admitted submissions stay so until they are gone. */
  lemma {:induction false} FateLatches(fate: Fate, id: RequestId, log: seq<Event>, lo: nat, hi: nat, inboxSeq: int)
    requires lo <= hi <= |log|
    requires fate.None? || fate.value.retiring || fate.value.admitted
    ensures var end := SeeEvents(fate, id, log, lo, hi, inboxSeq); end.None? || end.value.retiring || end.value.admitted
    decreases hi - lo
  {
    if lo < hi {
      FateLatches(fate, id, log, lo, hi - 1, inboxSeq);
    }
  }

  /** While a submission is open through a range of events, its receipt follows them. */
  lemma {:induction false} FateFollowsEvents(s: Settlement, id: RequestId, log: seq<Event>, lo: nat, hi: nat,
      inboxSeq: int)
    requires lo <= hi <= |log|
    ensures var end := SeeEvents(Some(s), id, log, lo, hi, inboxSeq);
            end.Some? && !end.value.retiring && !end.value.admitted ==>
                end.value.receipt == OnEvents(s.receipt, id, log, lo, hi)
    decreases hi - lo
  {
    if lo < hi {
      FateFollowsEvents(s, id, log, lo, hi - 1, inboxSeq);
      var before := SeeEvents(Some(s), id, log, lo, hi - 1, inboxSeq);
      if before.Some? && !before.value.retiring && !before.value.admitted {
        FateFollowsReceipt(before.value, id, log[hi - 1], hi - 1, inboxSeq);
      }
    }
  }

  /** A window that leaves a submission open leaves it with the receipt of a replaced window. */
  lemma FateFollowsWindow(s: Settlement, id: RequestId, log: seq<Event>, lo: nat, cut: int, inboxSeq: int)
    requires -1 <= cut < |log| && lo <= cut + 1
    ensures var end := SeeWindow(s, id, log, lo, cut + 1,
            Some(Baseline(At(log, cut, NextTurn), At(log, cut, NextStep), cut)), inboxSeq);
            end.Some? && !end.value.retiring && !end.value.admitted ==>
              && !(s.receipt.Some? && s.receipt.value.seqNo <= cut)
              && end.value.receipt == OnInbox(OnEvents(s.receipt, id, log, lo, cut + 1), id, log, cut)
  {
    if s.receipt.Some? && s.receipt.value.seqNo <= cut {
      FateLatches(Some(Schedule(s)), id, log, lo, cut + 1, inboxSeq);
    } else {
      FateFollowsEvents(s, id, log, lo, cut + 1, inboxSeq);
    }
  }

  // --- filters ----------------------------------------------------------------------------------------

  function Without(ids: seq<RequestId>, id: RequestId): seq<RequestId> {
    if ids == [] then []
    else if ids[0] == id then Without(ids[1..], id)
    else [ids[0]] + Without(ids[1..], id)
  }

  function AcceptedOf(ids: seq<RequestId>, settlements: Settlements): seq<RequestId> {
    if ids == [] then []
    else if ids[0] in settlements && settlements[ids[0]].accepted then [ids[0]] + AcceptedOf(ids[1..], settlements)
    else AcceptedOf(ids[1..], settlements)
  }

  function Kept(ids: seq<RequestId>, settlements: Settlements): seq<RequestId> {
    if ids == [] then []
    else if ids[0] in settlements then [ids[0]] + Kept(ids[1..], settlements)
    else Kept(ids[1..], settlements)
  }

  lemma {:induction false} AcceptedOfSnoc(ids: seq<RequestId>, id: RequestId, settlements: Settlements)
    ensures AcceptedOf(ids + [id], settlements)
            == AcceptedOf(ids, settlements) + (if id in settlements && settlements[id].accepted then [id] else [])
  {
    if ids == [] {
      assert ([id])[1..] == [];
    } else {
      assert (ids + [id])[1..] == ids[1..] + [id];
      AcceptedOfSnoc(ids[1..], id, settlements);
    }
  }

  lemma {:induction false} AcceptedOfAgree(ids: seq<RequestId>, a: Settlements, b: Settlements)
    requires forall id <- ids :: (id in a && a[id].accepted) == (id in b && b[id].accepted)
    ensures AcceptedOf(ids, a) == AcceptedOf(ids, b)
  {
    if ids != [] {
      AcceptedOfAgree(ids[1..], a, b);
    }
  }

  lemma {:induction false} WithoutMembers(ids: seq<RequestId>, id: RequestId)
    requires Distinct(ids)
    ensures Distinct(Without(ids, id)) && forall x :: x in Without(ids, id) <==> x in ids && x != id
  {
    if ids != [] {
      assert forall x :: x in ids <==> x == ids[0] || x in ids[1..];
      assert ids[0] !in ids[1..];
      WithoutMembers(ids[1..], id);
    }
  }

  lemma {:induction false} WithoutAccepted(ids: seq<RequestId>, id: RequestId, settlements: Settlements)
    requires id in settlements && !settlements[id].accepted
    ensures AcceptedOf(Without(ids, id), settlements - {id}) == AcceptedOf(ids, settlements)
  {
    if ids != [] {
      WithoutAccepted(ids[1..], id, settlements);
    }
  }

  lemma {:induction false} KeptAll(ids: seq<RequestId>, settlements: Settlements)
    requires forall id <- ids :: id in settlements
    ensures Kept(ids, settlements) == ids
  {
    if ids != [] {
      KeptAll(ids[1..], settlements);
    }
  }

  lemma {:induction false} KeptAgain(ids: seq<RequestId>, a: Settlements, b: Settlements)
    requires b.Keys <= a.Keys
    ensures Kept(Kept(ids, a), b) == Kept(ids, b)
  {
    if ids != [] {
      KeptAgain(ids[1..], a, b);
    }
  }

  lemma {:induction false} WithoutKeeps(ids: seq<RequestId>, id: RequestId, settlements: Settlements)
    requires forall x <- ids :: x in settlements
    ensures Without(ids, id) == Kept(ids, settlements - {id})
  {
    if ids != [] {
      WithoutKeeps(ids[1..], id, settlements);
    }
  }

  // --- the ledger -------------------------------------------------------------------------------------

  /** How often a submitter was told. */
  function TimesAccepted(notices: seq<Notice>, id: RequestId): nat {
    multiset(notices)[Accepted(id)]
  }

  function TimesRetired(notices: seq<Notice>, id: RequestId): nat {
    multiset(notices)[Retired(id, true)] + multiset(notices)[Retired(id, false)]
  }

  function TimesFailed(notices: seq<Notice>, id: RequestId): nat {
    multiset(notices)[Retired(id, false)]
  }

  function TimesObserved(notices: seq<Notice>, id: RequestId): nat {
    multiset(notices)[Retired(id, true)]
  }

  /** Nobody was told since that a submission was observed. */
  ghost predicate Unobserved(before: seq<Notice>, after: seq<Notice>) {
    before <= after && forall id :: TimesObserved(after, id) == TimesObserved(before, id)
  }

  /** An open submission is accepted at most once and not retired; a closed one was retired exactly once. */
  ghost predicate Accounted(notices: seq<Notice>, settlements: Settlements, begun: set<RequestId>) {
    && settlements.Keys <= begun
    && (forall id {:trigger id in begun} :: id !in begun ==>
        TimesAccepted(notices, id) == TimesRetired(notices, id) == 0)
    && (forall id {:trigger id in settlements} {:trigger id in begun} :: id in begun && id !in settlements ==>
          TimesAccepted(notices, id) <= 1 && TimesRetired(notices, id) == 1)
    && (forall id {:trigger id in settlements} :: id in settlements ==>
          && TimesAccepted(notices, id) == (if settlements[id].accepted then 1 else 0)
          && TimesRetired(notices, id) == 0)
  }

  lemma Noted(notices: seq<Notice>, notice: Notice, id: RequestId)
    ensures TimesAccepted(notices + [notice], id)
            == TimesAccepted(notices, id) + (if notice == Accepted(id) then 1 else 0)
    ensures TimesRetired(notices + [notice], id)
            == TimesRetired(notices, id) + (if notice.Retired? && notice.id == id then 1 else 0)
  {
  }

  lemma AccountAccepted(notices: seq<Notice>, settlements: Settlements, begun: set<RequestId>, id: RequestId)
    requires Accounted(notices, settlements, begun) && id in settlements && !settlements[id].accepted
    ensures Accounted(notices + [Accepted(id)], settlements[id := Accept(settlements[id])], begun)
  {
    hide TimesAccepted, TimesRetired;
    forall x {
      Noted(notices, Accepted(id), x);
    }
  }

  lemma AccountRetired(notices: seq<Notice>, settlements: Settlements, begun: set<RequestId>, id: RequestId,
      observed: bool)
    requires Accounted(notices, settlements, begun) && id in settlements
    ensures Accounted(notices + [Retired(id, observed)], settlements - {id}, begun)
  {
    hide TimesAccepted, TimesRetired;
    forall x {
      Noted(notices, Retired(id, observed), x);
    }
  }

  lemma NobodyTold(notices: seq<Notice>)
    ensures Unobserved(notices, notices)
  {
  }

  lemma FailureUnobserved(notices: seq<Notice>, id: RequestId)
    ensures Unobserved(notices, notices + [Retired(id, false)])
  {
  }

  /** Whose submission went, was told of a failure once, and nobody else was. */
  ghost predicate ToldOfFailure(before: seq<Notice>, held: Settlements, after: seq<Notice>, stillOpen: Settlements) {
    forall id :: TimesFailed(after, id) == TimesFailed(before, id) + if id in held && id !in stillOpen then 1 else 0
  }

  /** Unless one was observed, the submissions that are no longer open are those that were told of a failure. */
  lemma FailuresTold(before: seq<Notice>, held: Settlements, after: seq<Notice>, stillOpen: Settlements,
      begun: set<RequestId>)
    requires Accounted(before, held, begun) && Accounted(after, stillOpen, begun) && Unobserved(before, after)
    requires stillOpen.Keys <= held.Keys
    ensures ToldOfFailure(before, held, after, stillOpen)
  {
    forall id
      ensures TimesFailed(after, id) == TimesFailed(before, id) + if id in held && id !in stillOpen then 1 else 0
    {
      assert TimesObserved(after, id) == TimesObserved(before, id);
      if id !in begun {
        assert TimesRetired(before, id) == TimesRetired(after, id) == 0;
      }
    }
  }

  /** Echoes only ever leave the list, in the order they have. */
  ghost predicate Remain(before: seq<RequestId>, held: Settlements, after: seq<RequestId>, stillOpen: Settlements) {
    after == Kept(before, stillOpen) && stillOpen.Keys <= held.Keys
  }

  ghost function FateIn(settlements: Settlements, id: RequestId): Fate {
    if id in settlements then Some(settlements[id]) else None
  }

  /** Every submission has seen a range of events, each on its own. */
  ghost predicate Saw(before: Settlements, after: Settlements, log: seq<Event>, lo: nat, hi: nat, inboxSeq: int)
    requires lo <= hi <= |log|
  {
    forall id :: FateIn(after, id) == SeeEvents(FateIn(before, id), id, log, lo, hi, inboxSeq)
  }

  lemma SawNothing(settlements: Settlements, log: seq<Event>, lo: nat, inboxSeq: int)
    requires lo <= |log|
    ensures Saw(settlements, settlements, log, lo, lo, inboxSeq)
  {
  }

  lemma SawNext(before: Settlements, between: Settlements, after: Settlements, log: seq<Event>, lo: nat, k: nat,
      inboxSeq: int)
    requires lo <= k < |log| && Saw(before, between, log, lo, k, inboxSeq)
    requires forall id :: FateIn(after, id) == SeeEvent(FateIn(between, id), id, log[k], k, inboxSeq)
    ensures Saw(before, after, log, lo, k + 1, inboxSeq)
  {
    hide FateIn, SeeEvent;
  }

  lemma SawAll(before: Settlements, after: Settlements, log: seq<Event>, lo: nat, hi: nat, inboxSeq: int)
    requires lo <= hi <= |log| && Saw(before, after, log, lo, hi, inboxSeq)
    ensures forall id :: FateIn(after, id) == SeeEvents(FateIn(before, id), id, log, lo, hi, inboxSeq)
  {
    hide FateIn, SeeEvents;
  }

  /** Only what is open matters. */
  lemma RemainSame(ids: seq<RequestId>, a: Settlements, b: Settlements)
    requires a.Keys == b.Keys
    ensures forall after, c {:trigger Remain(ids, a, after, c)} {:trigger Remain(ids, b, after, c)} ::
              Remain(ids, a, after, c) == Remain(ids, b, after, c)
  {
  }

  lemma RemainOpen(a: seq<RequestId>, x: Settlements, b: seq<RequestId>, y: Settlements)
    requires Remain(a, x, b, y)
    ensures y.Keys <= x.Keys
  {
  }

  lemma RemainAgain(a: seq<RequestId>, x: Settlements, b: seq<RequestId>, y: Settlements, c: seq<RequestId>,
      z: Settlements)
    requires Remain(a, x, b, y) && Remain(b, y, c, z)
    ensures Remain(a, x, c, z)
  {
    KeptAgain(a, y, z);
  }

  /** Retirement alone tells nobody anything. */
  lemma AccountScheduled(notices: seq<Notice>, settlements: Settlements, begun: set<RequestId>, id: RequestId,
      s: Settlement)
    requires Accounted(notices, settlements, begun) && id in settlements && s.accepted == settlements[id].accepted
    ensures Accounted(notices, settlements[id := s], begun)
  {
    hide TimesAccepted, TimesRetired;
  }

  class SubmissionLedger {
    var pendingSubmissions: seq<RequestId>
    var acceptedSubmissions: seq<RequestId>
    var settlements: Settlements
    var frames: seq<RequestId> // retirements waiting for their animation frame
    var notices: seq<Notice>
    ghost var begun: set<RequestId>

    ghost predicate Valid()
      reads this
    {
      && Distinct(pendingSubmissions) && (forall id :: id in pendingSubmissions <==> id in settlements)
      && acceptedSubmissions == AcceptedOf(pendingSubmissions, settlements)
      && Distinct(frames) && (forall id :: id in frames <==> id in settlements && settlements[id].retiring)
      && Accounted(notices, settlements, begun)
    }

    constructor ()
      ensures Valid() && settlements == map[] && notices == []
    {
      pendingSubmissions, acceptedSubmissions, settlements, frames, notices, begun := [], [], map[], [], [], {};
    }

    /** Register one local echo under a newly minted identity. */
    method BeginSubmission(id: RequestId, queued: bool)
      requires Valid() && id !in begun
      modifies this
      ensures Valid() && pendingSubmissions == old(pendingSubmissions) + [id] && begun == old(begun) + {id}
      ensures settlements == old(settlements)[id := Settlement(queued, false, false, false, None)]
      ensures acceptedSubmissions == old(acceptedSubmissions) && frames == old(frames) && notices == old(notices)
    {
      assert id !in settlements;
      AcceptedOfAgree(pendingSubmissions, settlements,
          settlements[id := Settlement(queued, false, false, false, None)]);
      AcceptedOfSnoc(pendingSubmissions, id, settlements[id := Settlement(queued, false, false, false, None)]);
      pendingSubmissions := pendingSubmissions + [id];
      settlements := settlements[id := Settlement(queued, false, false, false, None)];
      begun := begun + {id};
    }

    /** The Host took a prompt, as its reply or its inbox shows; what is already known is not told again. */
    method AcceptPrompt(id: RequestId)
      requires Valid()
      modifies this`settlements, this`acceptedSubmissions, this`notices
      ensures Valid() && Unobserved(old(notices), notices)
      ensures settlements == if id in old(settlements) then old(settlements)[id := Accept(old(settlements)[id])]
              else old(settlements)
    {
      if id !in settlements || settlements[id].accepted {
        return;
      }
      AccountAccepted(notices, settlements, begun, id);
      settlements := settlements[id := settlements[id].(accepted := true)];
      acceptedSubmissions := AcceptedOf(pendingSubmissions, settlements);
      notices := notices + [Accepted(id)];
    }

    /** Every submission ends here: its echo goes, then its submitter is told. */
    method FinishSubmission(id: RequestId, observed: bool)
      requires id in settlements && settlements[id].retiring && id !in frames && Accounted(notices, settlements, begun)
      requires Distinct(pendingSubmissions) && (forall x :: x in pendingSubmissions <==> x in settlements)
      requires acceptedSubmissions == AcceptedOf(pendingSubmissions, settlements)
      requires Distinct(frames) && (forall x :: x in frames <==> x != id && x in settlements && settlements[x].retiring)
      modifies this`settlements, this`acceptedSubmissions, this`notices, this`pendingSubmissions
      ensures Valid() && settlements == old(settlements) - {id} && notices == old(notices) + [Retired(id, observed)]
      ensures Remain(old(pendingSubmissions), old(settlements), pendingSubmissions, settlements)
              && old(notices) <= notices
    {
      hide Accounted, AcceptedOf, Kept, Without, Distinct;
      WithoutMembers(pendingSubmissions, id);
      WithoutKeeps(pendingSubmissions, id, settlements);
      AccountRetired(notices, settlements, begun, id, observed);
      var accepted := settlements[id].accepted;
      if !accepted {
        WithoutAccepted(pendingSubmissions, id, settlements);
      }
      settlements := settlements - {id};
      pendingSubmissions := Without(pendingSubmissions, id);
      if accepted {
        acceptedSubmissions := AcceptedOf(pendingSubmissions, settlements);
      }
      notices := notices + [Retired(id, observed)];
    }

    /** End a submission that failed, if nothing has settled it. */
    method RetireFailedSubmission(id: RequestId)
      requires Valid()
      modifies this`settlements, this`acceptedSubmissions, this`notices, this`pendingSubmissions
      ensures Valid() && Remain(old(pendingSubmissions), old(settlements), pendingSubmissions, settlements)
              && Unobserved(old(notices), notices)
      ensures FateIn(settlements, id) == if FateIn(old(settlements), id).Some?
              then Fail(FateIn(old(settlements), id).value) else None
      ensures forall x :: x != id ==> FateIn(settlements, x) == FateIn(old(settlements), x)
    {
      hide SubmissionLedger.Valid, Accounted, AcceptedOf, Kept, Distinct, Remain, Without, Unobserved;
      NothingGone();
      NobodyTold(notices);
      if id !in settlements || settlements[id].retiring || settlements[id].admitted {
        return;
      }
      AboutToFail(id);
      FailureUnobserved(notices, id);
      settlements := settlements[id := Schedule(settlements[id])];
      RemainSame(old(pendingSubmissions), old(settlements), settlements);
      FinishSubmission(id, false);
      assert FateIn(settlements, id) == None;
    }

    /** Once it is marked, an open submission can be finished. */
    lemma AboutToFail(id: RequestId)
      requires Valid() && id in settlements && !settlements[id].retiring
      ensures var after := settlements[id := Schedule(settlements[id])];
              && Accounted(notices, after, begun) && acceptedSubmissions == AcceptedOf(pendingSubmissions, after)
              && Distinct(pendingSubmissions) && (forall x :: x in pendingSubmissions <==> x in after)
              && Distinct(frames) && id !in frames
              && (forall x :: x in frames <==> x != id && x in after && after[x].retiring)
    {
      AccountScheduled(notices, settlements, begun, id, Schedule(settlements[id]));
      AcceptedOfAgree(pendingSubmissions, settlements, settlements[id := Schedule(settlements[id])]);
      hide Accounted, AcceptedOf;
    }

    /** Note that a submission was observed; it ends with the next frame. */
    method ScheduleObservedRetirement(id: RequestId)
      requires Valid()
      modifies this`settlements, this`frames
      ensures Valid()
      ensures settlements == if id in old(settlements) then old(settlements)[id := Schedule(old(settlements)[id])]
              else old(settlements)
    {
      if id !in settlements || settlements[id].retiring {
        return;
      }
      AccountScheduled(notices, settlements, begun, id, Schedule(settlements[id]));
      AcceptedOfAgree(pendingSubmissions, settlements, settlements[id := Schedule(settlements[id])]);
      hide Accounted, AcceptedOf;
      settlements := settlements[id := settlements[id].(retiring := true)];
      frames := frames + [id];
    }

    /** A frame always finds the settlement it was scheduled for. */
    method RunFrame()
      requires Valid() && frames != []
      modifies this`settlements, this`acceptedSubmissions, this`notices, this`pendingSubmissions, this`frames
      ensures Valid() && frames == old(frames)[1..] && settlements == old(settlements) - {old(frames)[0]}
      ensures notices == old(notices) + [Retired(old(frames)[0], true)]
              && Remain(old(pendingSubmissions), old(settlements), pendingSubmissions, settlements)
              && old(notices) <= notices
    {
      var id := frames[0];
      frames := frames[1..];
      FinishSubmission(id, true);
    }

    /** What is known of a submission changes, but not its acceptance or retirement. */
    method Update(id: RequestId, s: Settlement)
      requires Valid() && id in settlements
      requires s.accepted == settlements[id].accepted && s.retiring == settlements[id].retiring
      modifies this`settlements
      ensures Valid() && settlements == old(settlements)[id := s]
    {
      AccountScheduled(notices, settlements, begun, id, s);
      AcceptedOfAgree(pendingSubmissions, settlements, settlements[id := s]);
      hide Accounted, AcceptedOf;
      settlements := settlements[id := s];
    }

    method ObserveInsertion(message: Option<RequestId>, target: Target, place: nat, at: int)
      requires Valid()
      modifies this`settlements, this`acceptedSubmissions, this`notices
      ensures Valid() && Unobserved(old(notices), notices) && settlements.Keys == old(settlements).Keys
      ensures forall id <- settlements ::
              settlements[id] == SeeMessage(old(settlements)[id], id, message, target, place, at)
    {
      hide Accounted, AcceptedOf;
      if message.None? || message.value !in settlements {
        return;
      }
      var s := settlements[message.value];
      if s.retiring || (s.receipt.Some? && s.receipt.value.seqNo > at) {
        return;
      }
      Update(message.value, s.(receipt := Some(Receipt(target, at, Some(place)))));
      AcceptPrompt(message.value);
    }

    /** Learn where submitted messages appeared in an inbox list. */
    method ObserveInsertions(target: Target, messages: Messages, start: nat, at: int)
      requires Valid() && at >= -1
      modifies this`settlements, this`acceptedSubmissions, this`notices
      ensures Valid() && Unobserved(old(notices), notices) && settlements.Keys == old(settlements).Keys
      ensures forall id <- settlements ::
              settlements[id] == SeeInserted(old(settlements)[id], id, target, messages, start, at)
    {
      hide SubmissionLedger.Valid, Accounted, AcceptedOf, Distinct, Find, SeeInserted, SeeMessage;
      forall id <- settlements {
        SeeNoMessages(settlements[id], id, target, start, at);
      }
      assert messages[..0] == [];
      for k := 0 to |messages|
        invariant Valid() && Unobserved(old(notices), notices) && settlements.Keys == old(settlements).Keys
        invariant forall id <- settlements ::
                    settlements[id] == SeeInserted(old(settlements)[id], id, target, messages[..k], start, at)
      {
        forall id <- settlements
          ensures SeeInserted(old(settlements)[id], id, target, messages[..k + 1], start, at)
                  == SeeMessage(settlements[id], id, messages[k], target, start + k, at)
        {
          SeeInsertedNext(old(settlements)[id], id, target, messages, k, start, at);
        }
        ObserveInsertion(messages[k], target, start + k, at);
      }
      assert messages[..|messages|] == messages;
    }

    /** Admitted submissions end once no inbox that may still come is from before their admission. */
    method RetireAdmittedSubmission(id: RequestId, inboxSeq: int)
      requires Valid()
      modifies this`settlements, this`frames
      ensures Valid()
      ensures settlements == if id in old(settlements)
              then old(settlements)[id := Settle(old(settlements)[id], inboxSeq)] else old(settlements)
    {
      hide Accounted, AcceptedOf, Kept;
      if id !in settlements || !settlements[id].admitted {
        return;
      }
      var receipt := settlements[id].receipt;
      if receipt.Some? && receipt.value.index.None? && inboxSeq < receipt.value.seqNo {
        return;
      }
      ScheduleObservedRetirement(id);
    }

    method ObserveAdmitted(request: Option<RequestId>, inboxSeq: int)
      requires Valid()
      modifies this`settlements, this`frames
      ensures Valid() && settlements.Keys == old(settlements).Keys
      ensures forall id <- settlements ::
                Some(settlements[id]) == SeeEvent(Some(old(settlements)[id]), id, UserMessage(request), 0, inboxSeq)
    {
      hide Accounted, AcceptedOf, Kept;
      if request.None? || request.value !in settlements || settlements[request.value].retiring {
        return;
      }
      var id := request.value;
      Update(id, settlements[id].(admitted := true));
      RetireAdmittedSubmission(id, inboxSeq);
    }

    method ObserveQueued(messages: Messages)
      requires Valid()
      modifies this`settlements, this`frames
      ensures Valid() && settlements.Keys == old(settlements).Keys
      ensures forall id <- settlements :: settlements[id] == SeeQueued(old(settlements)[id], id, messages)
    {
      hide SubmissionLedger.Valid, Accounted, AcceptedOf, Kept;
      for k := 0 to |messages|
        invariant Valid() && settlements.Keys == old(settlements).Keys
        invariant forall id <- settlements :: settlements[id] == SeeQueued(old(settlements)[id], id, messages[..k])
      {
        assert messages[..k + 1] == messages[..k] + [messages[k]];
        if messages[k].Some? {
          var id := messages[k].value;
          if id in settlements && !settlements[id].retiring && settlements[id].queued {
            ScheduleObservedRetirement(id);
          }
        }
      }
      assert messages[..|messages|] == messages;
    }

    method FollowOne(id: RequestId, event: Event, at: int)
      requires Valid() && event.Splice? && id in settlements
      modifies this`settlements, this`acceptedSubmissions, this`notices, this`pendingSubmissions
      ensures Valid() && Remain(old(pendingSubmissions), old(settlements), pendingSubmissions, settlements)
              && Unobserved(old(notices), notices)
      ensures FateIn(settlements, id) == SeeSplice(old(settlements)[id], event, at)
      ensures forall x :: x != id ==> FateIn(settlements, x) == FateIn(old(settlements), x)
    {
      hide Accounted, AcceptedOf, Kept;
      var receipt := settlements[id].receipt;
      if Cancels(receipt, event, at) {
        RetireFailedSubmission(id);
      } else {
        Update(id, settlements[id].(receipt := OnSplice(receipt, event, at)));
        KeptAll(pendingSubmissions, settlements);
      }
    }

    /** Move every receipt over a splice of its list. */
    method FollowSplice(event: Event, at: int)
      requires Valid() && event.Splice?
      modifies this`settlements, this`acceptedSubmissions, this`notices, this`pendingSubmissions
      ensures Valid() && Remain(old(pendingSubmissions), old(settlements), pendingSubmissions, settlements)
              && Unobserved(old(notices), notices)
      ensures forall id :: FateIn(settlements, id) == if FateIn(old(settlements), id).Some?
              then SeeSplice(FateIn(old(settlements), id).value, event, at) else None
    {
      hide SubmissionLedger.Valid, Remain, SeeSplice;
      var ids := pendingSubmissions;
      NothingGone();
      for k := 0 to |ids|
        invariant Valid() && Remain(old(pendingSubmissions), old(settlements), pendingSubmissions, settlements)
                  && Unobserved(old(notices), notices)
        invariant forall j :: 0 <= j < k ==>
                  FateIn(settlements, ids[j]) == SeeSplice(old(settlements)[ids[j]], event, at)
        invariant forall j :: k <= j < |ids| ==> FateIn(settlements, ids[j]) == Some(old(settlements)[ids[j]])
      {
        ghost var pending, between := pendingSubmissions, settlements;
        FollowOne(ids[k], event, at);
        RemainAgain(old(pendingSubmissions), old(settlements), pending, between, pendingSubmissions, settlements);
      }
      RemainOpen(old(pendingSubmissions), old(settlements), pendingSubmissions, settlements);
      forall id
        ensures FateIn(settlements, id) == if FateIn(old(settlements), id).Some?
                then SeeSplice(FateIn(old(settlements), id).value, event, at) else None
      {
        if id in old(settlements) {
          var j :| 0 <= j < |ids| && ids[j] == id;
        }
      }
    }

    /** A request or a turn's end with no inbox place left behind means the message was lost. */
    method RetireLost(at: int)
      requires Valid()
      modifies this`settlements, this`acceptedSubmissions, this`notices, this`pendingSubmissions
      ensures Valid() && Remain(old(pendingSubmissions), old(settlements), pendingSubmissions, settlements)
              && Unobserved(old(notices), notices)
      ensures forall id :: FateIn(settlements, id) == SeeEvent(FateIn(old(settlements), id), id, TurnEdge, at, -1)
    {
      hide SubmissionLedger.Valid, Remain;
      var ids := pendingSubmissions;
      NothingGone();
      for k := 0 to |ids|
        invariant Valid() && Remain(old(pendingSubmissions), old(settlements), pendingSubmissions, settlements)
                  && Unobserved(old(notices), notices)
        invariant forall j :: 0 <= j < k ==>
                  FateIn(settlements, ids[j]) == SeeEvent(Some(old(settlements)[ids[j]]), ids[j], TurnEdge, at, -1)
        invariant forall j :: k <= j < |ids| ==> FateIn(settlements, ids[j]) == Some(old(settlements)[ids[j]])
      {
        var id := ids[k];
        ghost var pending, between := pendingSubmissions, settlements;
        if Lost(settlements[id], at) {
          RetireFailedSubmission(id);
          RemainAgain(old(pendingSubmissions), old(settlements), pending, between, pendingSubmissions, settlements);
        }
      }
      RemainOpen(old(pendingSubmissions), old(settlements), pendingSubmissions, settlements);
      forall id
        ensures FateIn(settlements, id) == SeeEvent(FateIn(old(settlements), id), id, TurnEdge, at, -1)
      {
        if id in old(settlements) {
          var j :| 0 <= j < |ids| && ids[j] == id;
        }
      }
    }

    /** One event of the followed log. */
    method ObserveEvent(event: Event, at: int, inboxSeq: int)
      requires Valid() && at >= 0
      modifies this`settlements, this`acceptedSubmissions, this`notices, this`pendingSubmissions, this`frames
      ensures Valid() && Remain(old(pendingSubmissions), old(settlements), pendingSubmissions, settlements)
              && Unobserved(old(notices), notices)
      ensures ToldOfFailure(old(notices), old(settlements), notices, settlements)
      ensures forall id :: FateIn(settlements, id) == SeeEvent(FateIn(old(settlements), id), id, event, at, inboxSeq)
    {
      hide Accounted, AcceptedOf, Kept, ToldOfFailure;
      KeptAll(pendingSubmissions, settlements);
      if settlements == map[] {
        FailuresTold(notices, settlements, notices, settlements, begun);
        return;
      }
      match event {
        case Splice(target, start, _, inserted, _) =>
          FollowSplice(event, at);
          ghost var pending, between := pendingSubmissions, settlements;
          KeptAll(pendingSubmissions, settlements);
          ObserveInsertions(target, inserted, start, at);
          KeptAll(pendingSubmissions, settlements);
          RemainAgain(old(pendingSubmissions), old(settlements), pending, between, pendingSubmissions, settlements);
        case TurnEdge =>
          RetireLost(at);
        case UserMessage(request) =>
          ObserveAdmitted(request, inboxSeq);
          KeptAll(pendingSubmissions, settlements);
        case OtherEvent =>
      }
      RemainOpen(old(pendingSubmissions), old(settlements), pendingSubmissions, settlements);
      FailuresTold(old(notices), old(settlements), notices, settlements, begun);
    }

    /** The projected inbox changed; a cached one has no seq and places nothing. */
    method ObserveInbox(nextTurn: Messages, nextStep: Messages, sequenced: Option<int>)
      requires Valid() && (sequenced.Some? ==> sequenced.value >= -1)
      modifies this`settlements, this`acceptedSubmissions, this`notices, this`pendingSubmissions, this`frames
      ensures Valid() && Remain(old(pendingSubmissions), old(settlements), pendingSubmissions, settlements)
              && Unobserved(old(notices), notices) && settlements.Keys == old(settlements).Keys
      ensures forall id <- settlements ::
                settlements[id] == SeeInbox(old(settlements)[id], id, nextTurn, nextStep, sequenced)
    {
      hide Accounted, AcceptedOf, Kept;
      KeptAll(pendingSubmissions, settlements);
      if sequenced.Some? {
        ObserveInsertions(NextTurn, nextTurn, 0, sequenced.value);
      }
      ObserveQueued(nextTurn);
      if sequenced.Some? {
        ObserveInsertions(NextStep, nextStep, 0, sequenced.value);
      }
      ObserveQueued(nextStep);
      SettleAdmitted(if sequenced.Some? then sequenced.value else -1);
      KeptAll(pendingSubmissions, settlements);
    }

    method SettleAdmitted(inboxSeq: int)
      requires Valid()
      modifies this`settlements, this`frames
      ensures Valid() && settlements.Keys == old(settlements).Keys
      ensures forall id <- settlements :: settlements[id] == Settle(old(settlements)[id], inboxSeq)
    {
      hide Accounted, AcceptedOf, Kept;
      var ids := pendingSubmissions;
      assert Distinct(ids) && forall id :: id in ids <==> id in settlements;
      hide SubmissionLedger.Valid;
      for k := 0 to |ids|
        invariant Valid() && settlements.Keys == old(settlements).Keys
        invariant forall j :: 0 <= j < k ==> settlements[ids[j]] == Settle(old(settlements)[ids[j]], inboxSeq)
        invariant forall j :: k <= j < |ids| ==> settlements[ids[j]] == old(settlements)[ids[j]]
      {
        RetireAdmittedSubmission(ids[k], inboxSeq);
      }
      forall id <- settlements
        ensures settlements[id] == Settle(old(settlements)[id], inboxSeq)
      {
        var j :| 0 <= j < |ids| && ids[j] == id;
      }
    }

    /** Submissions a window's baseline already covers are observed. */
    method ScheduleCovered(asOf: int)
      requires Valid()
      modifies this`settlements, this`frames
      ensures Valid() && settlements.Keys == old(settlements).Keys
      ensures forall id <- settlements :: settlements[id] == SeeCovered(old(settlements)[id], asOf)
    {
      hide Accounted, AcceptedOf, Kept;
      var ids := pendingSubmissions;
      assert Distinct(ids) && forall id :: id in ids <==> id in settlements;
      hide SubmissionLedger.Valid;
      for k := 0 to |ids|
        invariant Valid() && settlements.Keys == old(settlements).Keys
        invariant forall j :: 0 <= j < k ==> settlements[ids[j]] == SeeCovered(old(settlements)[ids[j]], asOf)
        invariant forall j :: k <= j < |ids| ==> settlements[ids[j]] == old(settlements)[ids[j]]
      {
        var receipt := settlements[ids[k]].receipt;
        if receipt.Some? && receipt.value.seqNo <= asOf {
          ScheduleObservedRetirement(ids[k]);
        }
      }
      forall id <- settlements
        ensures settlements[id] == SeeCovered(old(settlements)[id], asOf)
      {
        var j :| 0 <= j < |ids| && ids[j] == id;
      }
    }

    /** The events of a range of the log. */
    method ObserveEvents(log: seq<Event>, lo: nat, hi: nat, inboxSeq: int)
      requires Valid() && lo <= hi <= |log|
      modifies this`settlements, this`acceptedSubmissions, this`notices, this`pendingSubmissions, this`frames
      ensures Valid() && Remain(old(pendingSubmissions), old(settlements), pendingSubmissions, settlements)
              && Unobserved(old(notices), notices)
      ensures forall id :: FateIn(settlements, id) == SeeEvents(FateIn(old(settlements), id), id, log, lo, hi, inboxSeq)
    {
      hide SubmissionLedger.Valid, Remain, Saw, SeeEvent, SeeEvents, FateIn;
      NothingGone();
      var k := lo;
      SawNothing(settlements, log, lo, inboxSeq);
      while k < hi
        invariant lo <= k <= hi && Valid()
                  && Remain(old(pendingSubmissions), old(settlements), pendingSubmissions, settlements)
                  && Unobserved(old(notices), notices)
        invariant Saw(old(settlements), settlements, log, lo, k, inboxSeq)
      {
        ghost var pending, between := pendingSubmissions, settlements;
        ObserveEvent(log[k], k, inboxSeq);
        RemainAgain(old(pendingSubmissions), old(settlements), pending, between, pendingSubmissions, settlements);
        SawNext(old(settlements), between, settlements, log, lo, k, inboxSeq);
        k := k + 1;
      }
      SawAll(old(settlements), settlements, log, lo, hi, inboxSeq);
    }

    method ObserveBaseline(baseline: Option<Baseline>)
      requires Valid() && (baseline.Some? ==> baseline.value.asOf >= -1)
      modifies this`settlements, this`acceptedSubmissions, this`notices
      ensures Valid() && Unobserved(old(notices), notices) && settlements.Keys == old(settlements).Keys
      ensures forall id <- settlements :: settlements[id] == SeeBaselineInbox(old(settlements)[id], id, baseline)
    {
      hide SubmissionLedger.Valid, SeeInserted;
      if baseline.Some? {
        ObserveInsertions(NextTurn, baseline.value.nextTurn, 0, baseline.value.asOf);
        ObserveInsertions(NextStep, baseline.value.nextStep, 0, baseline.value.asOf);
      }
    }

    lemma AreAccounted()
      requires Valid()
      ensures Accounted(notices, settlements, begun)
    {
    }

    lemma NothingGone()
      requires Valid()
      ensures Remain(pendingSubmissions, settlements, pendingSubmissions, settlements)
      ensures Distinct(pendingSubmissions) && forall id :: id in pendingSubmissions <==> id in settlements
    {
      KeptAll(pendingSubmissions, settlements);
    }

    /** A replaced window of the log, with or without a projection baseline. */
    method InstallWindow(log: seq<Event>, lo: nat, hi: nat, baseline: Option<Baseline>, inboxSeq: int)
      requires Valid() && lo <= hi <= |log| && (baseline.Some? ==> baseline.value.asOf >= -1)
      modifies this`settlements, this`acceptedSubmissions, this`notices, this`pendingSubmissions, this`frames
      ensures Valid() && Remain(old(pendingSubmissions), old(settlements), pendingSubmissions, settlements)
              && Unobserved(old(notices), notices)
      ensures ToldOfFailure(old(notices), old(settlements), notices, settlements)
      ensures forall id :: FateIn(settlements, id) == if FateIn(old(settlements), id).Some?
                                         then SeeWindow(FateIn(old(settlements), id).value, id, log, lo, hi,
                                             baseline, inboxSeq) else None
    {
      hide SubmissionLedger.Valid, Remain, SeeEvents, SeeBaselineInbox, SeeCovered, ToldOfFailure;
      AreAccounted();
      if baseline.Some? {
        ScheduleCovered(baseline.value.asOf);
      }
      assert forall id <- settlements :: settlements[id] == SeeBaselineSeq(old(settlements)[id], baseline);
      RemainSame(old(pendingSubmissions), old(settlements), settlements);
      ghost var covered := settlements;
      ObserveEvents(log, lo, hi, inboxSeq);
      ghost var pending, between := pendingSubmissions, settlements;
      assert forall id :: FateIn(between, id) == SeeEvents(FateIn(covered, id), id, log, lo, hi, inboxSeq);
      ObserveBaseline(baseline);
      forall id
        ensures FateIn(settlements, id) == if FateIn(old(settlements), id).Some?
                              then SeeWindow(FateIn(old(settlements), id).value, id, log, lo, hi, baseline, inboxSeq)
                                  else None
      {
        assert FateIn(between, id) == SeeEvents(FateIn(covered, id), id, log, lo, hi, inboxSeq);
        NoneSeesNothing(id, log, lo, hi, inboxSeq);
      }
      NothingGone();
      RemainSame(pendingSubmissions, between, settlements);
      RemainAgain(old(pendingSubmissions), old(settlements), pending, between, pendingSubmissions, settlements);
      AreAccounted();
      RemainOpen(old(pendingSubmissions), old(settlements), pendingSubmissions, settlements);
      FailuresTold(old(notices), old(settlements), notices, settlements, begun);
    }
  }
}
