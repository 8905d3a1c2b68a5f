/** One client following one Host: reconnects, durable settlements and the order of the window. */
module Follower {
  import opened Options
  import opened Sequences
  import opened Transcript
  import opened HostStream
  import opened ClientStream
  import opened EventWindow

  /** What the connection delivers, in its own order. */
  datatype Step = LiveFrame(frame: Frame) | Commit(event: Event)

  /** A client and its window; a stale one has asked for a new baseline and is about to be replaced. */
  datatype Follower = Follower(client: Client, rows: seq<Row>, revision: nat, stale: bool)
  {
    function Deliver(step: Step): Follower {
      if stale then this
      else
        match step
        case Commit(event) =>
          var (next, decision) := client.AcceptDurable(event);
          Follower(next, Applied(rows, decision), revision, decision.Rebaseline?)
        case LiveFrame(frame) =>
          if frame.revision != revision + 1 then this.(stale := true)
          else
            var (next, decision) := client.AcceptFrame(frame);
            Follower(next, Applied(rows, decision), frame.revision, decision.Rebaseline?)
    }
  }

  /** What a decision does to the window. */
  function Applied(rows: seq<Row>, decision: Decision): seq<Row> {
    match decision
    case Nothing => rows
    case Rebaseline => rows
    case Show(row) => rows + [row]
    case Settle(id, event) => Settled(rows, id, Some(event))
    case Abandon(id) => Settled(rows, id, None)
    case Publish(event, retire) =>
      var longer := rows + [Durable(event)];
      if retire.Some? then Settled(longer, retire.value, None) else longer
  }

  /** A connection opened on a history page and the Host's baseline. */
  function Opened(events: seq<Event>, baseline: Baseline): Follower {
    Follower(Replaced(events, baseline.active), ReplacedRows(events, baseline.active), baseline.revision, false)
  }

  function DeliverAll(f: Follower, steps: seq<Step>): Follower
    decreases |steps|
  {
    if steps == [] then f else DeliverAll(f.Deliver(steps[0]), steps[1..])
  }

  /** The Host folds the same frames; it and the wire read one durable cursor when an attempt starts. */
  function HostStep(host: Host, step: Step): Host {
    match step
    case Commit(_) => host
    case LiveFrame(frame) => host.Accept(frame, if frame.Start? then frame.startedAfterSeq else -1)
  }

  function HostAll(host: Host, steps: seq<Step>): Host
    decreases |steps|
  {
    if steps == [] then host else HostAll(HostStep(host, steps[0]), steps[1..])
  }

  // --- reconnecting -------------------------------------------------------------------------------

  /** The chunks the window shows of one attempt. */
  function ChunksOf(rows: seq<Row>, id: AttemptId): seq<Timed> {
    if rows == [] then []
    else
      var n := |rows| - 1;
      var init := ChunksOf(rows[..n], id);
      if rows[n].Transient? && rows[n].attemptId == id then init + [rows[n].timed] else init
  }

  /** The client holds the Host's active attempt: its identity, place, next index and every chunk. */
  ghost predicate Mirrors(host: Host, f: Follower) {
    && f.revision == host.revision
    && match host.active
       case None => f.client.active.None?
       case Some(o) =>
         && f.client.active == Some(Attempt(o.attemptId, o.startedAfterSeq, o.turn, o.step, o.nextIndex))
         && ChunksOf(f.rows, o.attemptId) == o.stream
  }

  ghost predicate Simulates(host: Host, f: Follower) {
    f.stale || Mirrors(host, f)
  }

  /** An active attempt and one whose rows wait for the end of its step never coexist. */
  predicate Alone(c: Client) {
    c.active.None? || c.retained.None?
  }

  /** A chunk or end that names an attempt other than the active one. */
  predicate Foreign(f: Follower, frame: Frame) {
    !frame.Start? && f.client.active.Some? && frame.attemptId != f.client.active.value.attemptId
  }

  /** Attempt identities are minted once: no row of a starting attempt is shown yet. */
  predicate Minted(f: Follower, frame: Frame) {
    frame.Start? ==> ChunksOf(f.rows, frame.attemptId) == []
  }

  lemma {:induction false} ChunksConcat(a: seq<Row>, b: seq<Row>, id: AttemptId)
    ensures ChunksOf(a + b, id) == ChunksOf(a, id) + ChunksOf(b, id)
  {
    if b == [] {
      assert a + b == a;
    } else {
      var n := |b| - 1;
      assert (a + b)[..|a + b| - 1] == a + b[..n];
      ChunksConcat(a, b[..n], id);
    }
  }

  lemma {:induction false} NoDurableChunks(events: seq<Event>, id: AttemptId)
    ensures ChunksOf(DurableRows(events), id) == []
  {
    if events != [] {
      var n := |events| - 1;
      assert DurableRows(events)[..n] == DurableRows(events[..n]);
      NoDurableChunks(events[..n], id);
    }
  }

  lemma {:induction false} OpeningChunks(o: Opening, cursor: int, count: nat)
    requires count <= |o.stream|
    ensures ChunksOf(OpeningRows(o, cursor, count), o.attemptId) == o.stream[..count]
  {
    if count > 0 {
      var rows := OpeningRows(o, cursor, count);
      var before := OpeningRows(o, cursor, count - 1);
      OpeningChunks(o, cursor, count - 1);
      ChunksConcat(before, rows[|rows| - 1..], o.attemptId);
      assert rows == before + rows[|rows| - 1..];
    }
  }

  /** A connection opened from the snapshot at any moment mirrors the Host at that moment. */
  lemma OpenedMirrors(events: seq<Event>, host: Host)
    requires host.Counted()
    ensures Mirrors(host, Opened(events, host.Snapshot())) && Alone(Opened(events, host.Snapshot()).client)
  {
    match host.active {
      case None =>
      case Some(o) =>
        var cursor, count := MaxSeq(events), ShownMembers(o);
        ChunksConcat(DurableRows(events), OpeningRows(o, cursor, count), o.attemptId);
        NoDurableChunks(events, o.attemptId);
        OpeningChunks(o, cursor, count);
        assert o.stream[..count] == o.stream;
    }
  }

  lemma CommitKeepsMirror(host: Host, f: Follower, event: Event)
    requires Mirrors(host, f) && !f.stale && Alone(f.client)
    ensures Simulates(host, f.Deliver(Commit(event))) && Alone(f.Deliver(Commit(event)).client)
  {
    if host.active.Some? {
      ChunksConcat(f.rows, [Durable(event)], host.active.value.attemptId);
      assert ChunksOf([Durable(event)], host.active.value.attemptId) == [];
    }
  }

  lemma StartKeepsMirror(host: Host, f: Follower, frame: Frame)
    requires Mirrors(host, f) && !f.stale && Alone(f.client) && frame.Start? && Minted(f, frame)
    ensures Simulates(HostStep(host, LiveFrame(frame)), f.Deliver(LiveFrame(frame)))
    ensures Alone(f.Deliver(LiveFrame(frame)).client)
  {
  }

  lemma ChunkKeepsMirror(host: Host, f: Follower, frame: Frame)
    requires Mirrors(host, f) && !f.stale && Alone(f.client) && frame.ChunkFrame? && host.Counted()
    ensures Simulates(HostStep(host, LiveFrame(frame)), f.Deliver(LiveFrame(frame)))
            <==> (frame.revision == f.revision + 1 ==> !Foreign(f, frame))
    ensures Alone(f.Deliver(LiveFrame(frame)).client)
  {
    var c := f.client;
    if c.active.Some? && c.active.value.attemptId == frame.attemptId && frame.index == c.active.value.nextIndex {
      var row := Transient(c.NextPosition(), frame.attemptId, c.active.value.turn, c.active.value.step, frame.timed);
      ChunksConcat(f.rows, [row], frame.attemptId);
      assert [row][..0] == [];
      assert ChunksOf([row], frame.attemptId) == [frame.timed];
    }
  }

  lemma EndKeepsMirror(host: Host, f: Follower, frame: Frame)
    requires Mirrors(host, f) && !f.stale && Alone(f.client) && frame.End?
    ensures Simulates(HostStep(host, LiveFrame(frame)), f.Deliver(LiveFrame(frame)))
            <==> (frame.revision == f.revision + 1 ==> !Foreign(f, frame))
    ensures Alone(f.Deliver(LiveFrame(frame)).client)
  {
  }

  /**
   One frame keeps client and Host together, unless the client asks for a new baseline, exactly when it does not
   name another attempt: on such a frame the Host drops its attempt and the client goes on.
   */
  lemma FrameKeepsMirror(host: Host, f: Follower, frame: Frame)
    requires Mirrors(host, f) && !f.stale && Alone(f.client) && host.Counted() && Minted(f, frame)
    ensures Simulates(HostStep(host, LiveFrame(frame)), f.Deliver(LiveFrame(frame)))
            <==> (frame.revision == f.revision + 1 ==> !Foreign(f, frame))
    ensures Alone(f.Deliver(LiveFrame(frame)).client)
  {
    match frame
    case Start(_, _, _, _, _) => StartKeepsMirror(host, f, frame);
    case ChunkFrame(_, _, _, _) => ChunkKeepsMirror(host, f, frame);
    case End(_, _, _, _) => EndKeepsMirror(host, f, frame);
  }

  /** The Host's frames as its Agent emits them: in sequence they name the active attempt, and starts are minted. */
  predicate Trusted(f: Follower, steps: seq<Step>)
    decreases |steps|
  {
    steps != [] ==>
    && (steps[0].LiveFrame? && !f.stale && steps[0].frame.revision == f.revision + 1 ==> !Foreign(f, steps[0].frame))
    && (steps[0].LiveFrame? ==> Minted(f, steps[0].frame))
    && Trusted(f.Deliver(steps[0]), steps[1..])
  }

  lemma {:induction false} RunMirrors(host: Host, f: Follower, steps: seq<Step>)
    requires Simulates(host, f) && Alone(f.client) && host.Counted() && Trusted(f, steps)
    ensures Simulates(HostAll(host, steps), DeliverAll(f, steps))
    decreases |steps|
  {
    if steps != [] {
      var step := steps[0];
      if !f.stale {
        match step {
          case Commit(event) => CommitKeepsMirror(host, f, event);
          case LiveFrame(frame) => FrameKeepsMirror(host, f, frame);
        }
      }
      RunMirrors(HostStep(host, step), f.Deliver(step), steps[1..]);
    }
  }

  /** The Host fold is the same one whether it is run at once or in two parts. */
  lemma {:induction false} HostAllConcat(host: Host, early: seq<Step>, late: seq<Step>)
    ensures HostAll(host, early + late) == HostAll(HostAll(host, early), late)
    decreases |early|
  {
    if early == [] {
      assert early + late == late;
    } else {
      assert (early + late)[1..] == early[1..] + late;
      HostAllConcat(HostStep(host, early[0]), early[1..], late);
    }
  }

  lemma {:induction false} HostAllCounted(host: Host, steps: seq<Step>)
    requires host.Counted()
    ensures HostAll(host, steps).Counted()
    decreases |steps|
  {
    if steps != [] {
      HostAllCounted(HostStep(host, steps[0]), steps[1..]);
    }
  }

  /**
   A client that opens from the Host's snapshot at any point and follows the rest ends with the same active attempt,
   next index and chunks as one that saw every frame.
   */
  lemma ReconnectSimulation(host: Host, whole: Follower, early: seq<Step>, late: seq<Step>, page: seq<Event>)
    requires Mirrors(host, whole) && Alone(whole.client) && host.Counted()
    requires Trusted(whole, early + late)
    requires Trusted(Opened(page, HostAll(host, early).Snapshot()), late)
    ensures var a := DeliverAll(whole, early + late);
            var b := DeliverAll(Opened(page, HostAll(host, early).Snapshot()), late);
            !a.stale && !b.stale ==>
              && a.client.active == b.client.active && a.revision == b.revision
              && (a.client.active.Some? ==>
                    var id := a.client.active.value.attemptId;
                    && ChunksOf(a.rows, id) == ChunksOf(b.rows, id)
                    && a.client.active.value.nextIndex == |ChunksOf(a.rows, id)|)
  {
    var middle := HostAll(host, early);
    HostAllCounted(host, early);
    HostAllCounted(middle, late);
    OpenedMirrors(page, middle);
    RunMirrors(middle, Opened(page, middle.Snapshot()), late);
    RunMirrors(host, whole, early + late);
    HostAllConcat(host, early, late);
  }

  /** A skipped revision leaves neither side an active attempt: the client reconnects to a baseline without one. */
  lemma GapClearsBoth(host: Host, f: Follower, gap: Frame, page: seq<Event>)
    requires Mirrors(host, f) && !f.stale && Skips(host, gap)
    ensures f.Deliver(LiveFrame(gap)).stale
    ensures var after := HostStep(host, LiveFrame(gap));
            after.active.None? && Opened(page, after.Snapshot()).client.active.None?
  {
  }

  // --- durable entries ------------------------------------------------------------------------------

  /** One client over a run of deliveries, with what it decided. */
  function RunClient(c: Client, steps: seq<Step>): (Client, seq<Decision>) {
    if steps == [] then (c, [])
    else
      var n := |steps| - 1;
      var (before, decisions) := RunClient(c, steps[..n]);
      var (after, decision) :=
        match steps[n]
        case Commit(event) => before.AcceptDurable(event)
        case LiveFrame(frame) => before.AcceptFrame(frame);
      (after, decisions + [decision])
  }

  /** The durable entries that decisions make visible. */
  function ShownSeqs(decisions: seq<Decision>): seq<nat> {
    if decisions == [] then []
    else
      var n := |decisions| - 1;
      var init := ShownSeqs(decisions[..n]);
      match decisions[n]
      case Publish(event, _) => init + [event.seqNo]
      case Settle(_, event) => init + [event.seqNo]
      case _ => init
  }

  function CommittedSeqs(steps: seq<Step>): seq<nat> {
    if steps == [] then []
    else
      var n := |steps| - 1;
      var init := CommittedSeqs(steps[..n]);
      match steps[n]
      case Commit(event) => init + [event.seqNo]
      case _ => init
  }

  /** Accepted entries are the disjoint union of those shown, each once, and those still pending. */
  ghost predicate Conserves(c: Client, page: set<nat>, shown: seq<nat>, committed: seq<nat>) {
    && Alone(c)
    && Distinct(shown)
    && (forall s <- shown :: s !in page && s !in c.pending)
    && c.published == page + (set s <- shown)
    && (forall s :: s in committed <==> s in shown || s in c.pending)
    && (forall s <- c.pending :: s !in page && c.pending[s].seqNo == s && c.pending[s].IsSettlement())
  }

  lemma {:induction false} Conservation(c: Client, page: set<nat>, steps: seq<Step>)
    requires Conserves(c, page, [], [])
    requires Distinct(CommittedSeqs(steps)) && forall s <- CommittedSeqs(steps) :: s !in page
    ensures var (after, decisions) := RunClient(c, steps);
            Conserves(after, page, ShownSeqs(decisions), CommittedSeqs(steps))
  {
    hide Client.AcceptDurable, Client.AcceptFrame, Conserves;
    if steps != [] {
      var n := |steps| - 1;
      var init := steps[..n];
      assert CommittedSeqs(init) <= CommittedSeqs(steps);
      assert Distinct(CommittedSeqs(init));
      Conservation(c, page, init);
      var (before, decisions) := RunClient(c, init);
      match steps[n] {
        case Commit(event) =>
          assert CommittedSeqs(steps)[|CommittedSeqs(init)|] == event.seqNo;
          CommitConserves(before, page, ShownSeqs(decisions), CommittedSeqs(init), event);
          var (_, decision) := before.AcceptDurable(event);
          ShownSnoc(decisions, decision);
        case LiveFrame(frame) =>
          FrameConserves(before, page, ShownSeqs(decisions), CommittedSeqs(init), frame);
          var (_, decision) := before.AcceptFrame(frame);
          ShownSnoc(decisions, decision);
      }
    }
  }

  function ShowsSeq(decision: Decision): seq<nat> {
    match decision
    case Publish(event, _) => [event.seqNo]
    case Settle(_, event) => [event.seqNo]
    case _ => []
  }

  lemma ShownSnoc(decisions: seq<Decision>, decision: Decision)
    ensures ShownSeqs(decisions + [decision]) == ShownSeqs(decisions) + ShowsSeq(decision)
  {
    assert (decisions + [decision])[..|decisions|] == decisions;
  }

  lemma CommitConserves(c: Client, page: set<nat>, shown: seq<nat>, committed: seq<nat>, event: Event)
    requires Conserves(c, page, shown, committed)
    requires event.seqNo !in page && event.seqNo !in committed
    ensures var (after, decision) := c.AcceptDurable(event);
            Conserves(after, page, shown + ShowsSeq(decision), committed + [event.seqNo])
  {
  }

  lemma FrameConserves(c: Client, page: set<nat>, shown: seq<nat>, committed: seq<nat>, frame: Frame)
    requires Conserves(c, page, shown, committed)
    ensures var (after, decision) := c.AcceptFrame(frame);
            Conserves(after, page, shown + ShowsSeq(decision), committed)
  {
    match frame {
      case End(_, id, index, outcome) => EndConserves(c, page, shown, committed, id, index, outcome);
      case _ => assert shown + [] == shown;
    }
  }

  lemma EndConserves(c: Client, page: set<nat>, shown: seq<nat>, committed: seq<nat>, id: AttemptId, index: nat,
      outcome: Outcome)
    requires Conserves(c, page, shown, committed)
    ensures var (after, decision) := c.AcceptEnd(id, index, outcome);
            Conserves(after, page, shown + ShowsSeq(decision), committed)
  {
    assert shown + [] == shown;
  }

  /** A replaced client starts with its page published and nothing pending. */
  lemma ReplacedConserves(events: seq<Event>, baseline: Option<Opening>)
    ensures Conserves(Replaced(events, baseline), set e <- events :: e.seqNo, [], [])
  {
  }

  /**
   When an end leaves settlements pending without asking for a new baseline: exactly when it was committed at the
   expected index and named either an entry already published, or one of several pending ones, of the kind it says.
   */
  lemma EndStrands(c: Client, id: AttemptId, index: nat, outcome: Outcome)
    requires c.active.Some? && c.active.value.attemptId == id
    ensures var (after, decision) := c.AcceptEnd(id, index, outcome);
            after.pending != map[] && decision != Rebaseline <==>
            && outcome.Committed? && index == c.active.value.nextIndex
            && if outcome.seqNo in c.published then c.pending != map[]
               else
                 && outcome.seqNo in c.pending && c.pending.Keys != {outcome.seqNo}
                 && c.pending[outcome.seqNo].kind.AssistantMessage? == outcome.isMessage
  {
    var (after, decision) := c.AcceptEnd(id, index, outcome);
    assert after.pending == map[] <==> after.pending.Keys == {};
    if outcome.Committed? && outcome.seqNo in c.pending && outcome.seqNo !in c.published {
      assert (c.pending - {outcome.seqNo}).Keys == c.pending.Keys - {outcome.seqNo};
    }
  }

  /** Two settlements of one step, of which the end names the first: the other stays behind and nothing is asked for. */
  lemma EndStrandsWitness()
    ensures var steps := [LiveFrame(Start(1, "a", -1, 1, 1)),
                          Commit(Event(0, AssistantAttempt(1, 1))),
                          Commit(Event(1, AssistantMessage(1, 1, true, false))),
                          LiveFrame(End(2, "a", 0, Committed(0, false)))];
            var f := DeliverAll(Opened([], Baseline(0, None)), steps);
            !f.stale && f.client.active.None? && f.client.pending.Keys == {1}
  {
  }

  /**
   After any run since the last replacement, a start is accepted exactly when no attempt is active or retained and
   every entry committed in the run was published beside the page: a stranded settlement is never passed over.
   */
  lemma StartNeverStrands(c: Client, page: set<nat>, steps: seq<Step>, frame: Frame)
    requires Conserves(c, page, [], []) && frame.Start?
    requires Distinct(CommittedSeqs(steps)) && forall s <- CommittedSeqs(steps) :: s !in page
    ensures var (after, decisions) := RunClient(c, steps);
            after.AcceptFrame(frame).1 != Rebaseline <==>
            && after.active.None? && after.retained.None?
            && after.published == page + (set s <- CommittedSeqs(steps))
            && forall s <- CommittedSeqs(steps) :: s in ShownSeqs(decisions)
  {
    hide RunClient, ShownSeqs, CommittedSeqs, Distinct;
    Conservation(c, page, steps);
    var (after, decisions) := RunClient(c, steps);
    if s :| s in after.pending {
      assert s in CommittedSeqs(steps) && s !in after.published;
    } else {
      assert after.pending == map[];
    }
  }

  // --- the order of the window ------------------------------------------------------------------------

  /** The window ascends and lies before the next transient position, and only the newest entry may be pending. */
  ghost predicate Ordered(f: Follower) {
    var c := f.client;
    && c.durableCursor >= -1
    && Ascending(f.rows)
    && Before(f.rows, c.NextPosition())
    && (forall s <- c.pending :: s == c.durableCursor && c.pending[s].seqNo == s)
    && (c.pending != map[] ==> c.transientInGap == 0 && Before(f.rows, c.durableCursor as real))
  }

  /** The journal is contiguous, and the end of a settled attempt precedes any other entry or frame. */
  predicate Prompt(f: Follower, step: Step) {
    && (step.Commit? ==> step.event.seqNo == f.client.durableCursor + 1)
    && (f.client.pending != map[] ==>
          && step.LiveFrame? && step.frame.End?
          && f.client.active.Some? && f.client.active.value.attemptId == step.frame.attemptId
          && step.frame.outcome.Committed? && step.frame.outcome.seqNo in f.client.pending)
  }

  /** A transient row lies strictly between the last durable seq and the next one, each behind the one before. */
  lemma NextPositions(c: Client)
    ensures c.durableCursor as real < c.NextPosition() < (c.durableCursor + 1) as real
    ensures c.NextPosition() < c.(transientInGap := c.transientInGap + 1).NextPosition()
  {
    Reciprocals(c.transientInGap + 2);
  }

  lemma Reciprocals(n: nat)
    requires n >= 2
    ensures 0.0 < 1.0 / (n + 1) as real < 1.0 / n as real < 1.0
  {
    var a, b := 1.0 / n as real, 1.0 / (n + 1) as real;
    assert a * n as real == 1.0 && b * (n + 1) as real == 1.0;
  }

  lemma AppendAscends(rows: seq<Row>, row: Row, position: real)
    requires Ascending(rows) && Before(rows, row.Position()) && row.Position() < position
    ensures Ascending(rows + [row]) && Before(rows + [row], position)
  {
  }

  lemma BeforeLater(rows: seq<Row>, position: real, later: real)
    requires Before(rows, position) && position <= later
    ensures Before(rows, later)
  {
  }

  lemma RetireOrdered(rows: seq<Row>, id: AttemptId, position: real)
    requires Ascending(rows) && Before(rows, position)
    ensures Ascending(Settled(rows, id, None)) && Before(Settled(rows, id, None), position)
  {
    WithoutAscends(rows, id);
    var kept := WithoutAttempt(rows, id);
    forall i | 0 <= i < |kept|
      ensures kept[i].Position() < position
    {
      assert kept[i] in rows;
    }
  }

  lemma SettleOrdered(rows: seq<Row>, id: AttemptId, event: Event, position: real)
    requires Ascending(rows) && Before(rows, event.seqNo as real) && event.seqNo as real < position
    ensures Ascending(Settled(rows, id, Some(event))) && Before(Settled(rows, id, Some(event)), position)
  {
    RetireOrdered(rows, id, event.seqNo as real);
    var kept := WithoutAttempt(rows, id);
    assert forall r <- kept :: r.Position() != event.seqNo as real;
    InsertedAscends(kept, Durable(event));
    var all := Inserted(kept, Durable(event));
    forall i | 0 <= i < |all|
      ensures all[i].Position() < position
    {
      assert all[i] in all;
    }
  }

  lemma PublishOrdered(rows: seq<Row>, event: Event, retire: Option<AttemptId>, position: real)
    requires Ascending(rows) && Before(rows, event.seqNo as real) && event.seqNo as real < position
    ensures var after := Applied(rows, Publish(event, retire)); Ascending(after) && Before(after, position)
  {
    AppendAscends(rows, Durable(event), position);
    if retire.Some? {
      RetireOrdered(rows + [Durable(event)], retire.value, position);
    }
  }

  lemma CommitOrdered(f: Follower, event: Event)
    requires Ordered(f) && !f.stale && Prompt(f, Commit(event))
    ensures f.Deliver(Commit(event)).stale || Ordered(f.Deliver(Commit(event)))
  {
    var next := f.Deliver(Commit(event)).client;
    NextPositions(f.client);
    NextPositions(next);
    BeforeLater(f.rows, f.client.NextPosition(), event.seqNo as real);
    BeforeLater(f.rows, f.client.NextPosition(), next.NextPosition());
    var (_, decision) := f.client.AcceptDurable(event);
    if decision.Publish? {
      PublishOrdered(f.rows, event, decision.retire, next.NextPosition());
    }
  }

  lemma FrameOrdered(f: Follower, frame: Frame)
    requires Ordered(f) && !f.stale && Prompt(f, LiveFrame(frame))
    ensures f.Deliver(LiveFrame(frame)).stale || Ordered(f.Deliver(LiveFrame(frame)))
  {
    hide Ascending, Before, Settled;
    var c := f.client;
    var (next, decision) := c.AcceptFrame(frame);
    NextPositions(c);
    match decision {
      case Show(row) =>
        AppendAscends(f.rows, row, next.NextPosition());
      case Publish(event, retire) =>
        PublishOrdered(f.rows, event, retire, c.NextPosition());
      case Settle(id, event) =>
        SettleOrdered(f.rows, id, event, c.NextPosition());
      case Abandon(id) =>
        RetireOrdered(f.rows, id, c.NextPosition());
      case _ =>
    }
  }

  /** What changes a window between two replacements: a delivery, or an older page that the Session prepends. */
  datatype WindowStep = Delivery(step: Step) | OlderPage(events: seq<Event>)

  function Follow(f: Follower, step: WindowStep): Follower {
    match step
    case Delivery(s) => f.Deliver(s)
    case OlderPage(events) => f.(rows := DurableRows(events) + f.rows)
  }

  function FollowAll(f: Follower, steps: seq<WindowStep>): Follower
    decreases |steps|
  {
    if steps == [] then f else FollowAll(Follow(f, steps[0]), steps[1..])
  }

  ghost predicate InSequence(events: seq<Event>) {
    forall i, j :: 0 <= i < j < |events| ==> events[i].seqNo < events[j].seqNo
  }

  /** A page in order that lies before the window, and before anything that still waits for its place in it. */
  ghost predicate LiesBefore(f: Follower, events: seq<Event>) {
    && InSequence(events)
    && (forall e <- events :: e.seqNo <= f.client.durableCursor && e.seqNo !in f.client.pending)
    && forall e, r :: e in events && r in f.rows ==> e.seqNo as real < r.Position()
  }

  /** The journal's order, at every step as long as no new baseline is asked for. */
  ghost predicate AllPrompt(f: Follower, steps: seq<WindowStep>)
    decreases |steps|
  {
    steps != [] ==>
      && (f.stale || match steps[0] case Delivery(s) => Prompt(f, s) case OlderPage(events) => LiesBefore(f, events))
      && AllPrompt(Follow(f, steps[0]), steps[1..])
  }

  lemma PageOrdered(f: Follower, events: seq<Event>)
    requires Ordered(f) && LiesBefore(f, events)
    ensures Ordered(Follow(f, OlderPage(events)))
  {
    var c, page, rows := f.client, DurableRows(events), DurableRows(events) + f.rows;
    NextPositions(c);
    forall i | 0 <= i < |rows|
      ensures rows[i].Position() < c.NextPosition()
      ensures c.pending != map[] ==> rows[i].Position() < c.durableCursor as real
    {
      if i < |page| {
        assert events[i] in events;
      } else {
        assert rows[i] == f.rows[i - |page|];
      }
    }
    forall i, j | 0 <= i < j < |rows|
      ensures rows[i].Position() < rows[j].Position()
    {
      if i < |page| <= j {
        assert events[i] in events && f.rows[j - |page|] in f.rows;
      }
    }
  }

  /** Through every such run the window stays strictly ascending. */
  lemma {:induction false} WindowAscends(f: Follower, steps: seq<WindowStep>)
    requires (f.stale || Ordered(f)) && AllPrompt(f, steps)
    ensures FollowAll(f, steps).stale || Ordered(FollowAll(f, steps))
    decreases |steps|
  {
    if steps != [] {
      if !f.stale {
        match steps[0] {
          case Delivery(Commit(event)) => CommitOrdered(f, event);
          case Delivery(LiveFrame(frame)) => FrameOrdered(f, frame);
          case OlderPage(events) => PageOrdered(f, events);
        }
      }
      WindowAscends(Follow(f, steps[0]), steps[1..]);
    }
  }

  /** An opening page in order gives a window in order. */
  lemma OpenedOrdered(events: seq<Event>, host: Host)
    requires InSequence(events)
    ensures Ordered(Opened(events, host.Snapshot()))
  {
    var rows, cursor := DurableRows(events), MaxSeq(events);
    forall i | 0 <= i < |rows|
      ensures rows[i].Position() <= cursor as real
    {
      assert events[i] in events;
    }
    match host.active {
      case None => NextPositions(Opened(events, host.Snapshot()).client);
      case Some(o) => OpeningOrdered(rows, o, cursor, ShownMembers(o));
    }
  }

  lemma {:induction false} OpeningOrdered(rows: seq<Row>, o: Opening, cursor: int, count: nat)
    requires count <= |o.stream| && Ascending(rows)
    requires forall i :: 0 <= i < |rows| ==> rows[i].Position() <= cursor as real
    ensures Ascending(rows + OpeningRows(o, cursor, count))
    ensures Before(rows + OpeningRows(o, cursor, count), Fractional(cursor, count + 1))
  {
    Reciprocals(count + 2);
    if count == 0 {
      assert rows + OpeningRows(o, cursor, 0) == rows;
    } else {
      OpeningOrdered(rows, o, cursor, count - 1);
      var init := rows + OpeningRows(o, cursor, count - 1);
      var row := Transient(Fractional(cursor, count), o.attemptId, o.turn, o.step,
          o.stream[count - 1]);
      Reciprocals(count + 1);
      AppendAscends(init, row, Fractional(cursor, count + 1));
      assert rows + OpeningRows(o, cursor, count) == init + [row];
    }
  }

  // --- the Session that drives both ---------------------------------------------------------------------

  /** The part of a Session that follows one connection. */
  class FollowedSession {
    const assistantStream: ClientAssistantStream
    const eventSource: MutableSessionEventSource
    var restarting: bool

    ghost function Rows(): seq<Row>
      reads eventSource
    {
      eventSource.Rows()
    }

    ghost predicate Valid()
      reads eventSource
    {
      eventSource.Valid()
    }

    constructor ()
      ensures Valid() && fresh(assistantStream) && fresh(eventSource) && !restarting
    {
      assistantStream := new ClientAssistantStream();
      eventSource := new MutableSessionEventSource();
      restarting := false;
    }

    /** Replace the window with a history page and adopt its baseline. */
    method InstallWindow(events: seq<Event>, hasMore: bool, baseline: Option<Opening>)
      requires Valid()
      modifies this`restarting, assistantStream, eventSource
      ensures Valid() && !restarting
      ensures assistantStream.State() == Replaced(events, baseline) && Rows() == ReplacedRows(events, baseline)
    {
      var visible := assistantStream.Replace(events, baseline);
      eventSource.ReplaceAll(visible, hasMore);
      restarting := false;
    }

    /** Carry out a decision; a new baseline is only asked for. */
    method PublishAssistantEntry(decision: Decision)
      requires Valid()
      modifies this`restarting, eventSource
      ensures Valid() && Rows() == Applied(old(Rows()), decision)
      ensures restarting == (old(restarting) || decision.Rebaseline?)
    {
      match decision {
        case Nothing =>
        case Rebaseline => restarting := true;
        case Settle(id, event) => eventSource.Settle(id, Some(event));
        case Abandon(id) => eventSource.Settle(id, None);
        case Show(row) => eventSource.AppendRow(row);
        case Publish(event, retire) =>
          eventSource.AppendRow(Durable(event));
          if retire.Some? {
            eventSource.Settle(retire.value, None);
          }
      }
    }

    /** Prepend an older page; the fold is not concerned. */
    method PrependWindow(events: seq<Event>, hasMore: bool)
      requires Valid()
      modifies eventSource
      ensures Valid() && assistantStream.State() == old(assistantStream.State())
      ensures Rows() == DurableRows(events) + old(Rows())
    {
      eventSource.PrependPage(DurableRows(events), hasMore);
    }

    /** The Session does to its fold and window what the follower model says. */
    method Accept(step: Step, ghost revision: nat)
      requires Valid() && !restarting && (step.LiveFrame? ==> step.frame.revision == revision + 1)
      modifies this`restarting, assistantStream, eventSource
      ensures Valid()
      ensures var next := old(Follower(assistantStream.State(), Rows(), revision, false)).Deliver(step);
              assistantStream.State() == next.client && Rows() == next.rows && restarting == next.stale
    {
      var decision;
      match step {
        case Commit(event) => decision := assistantStream.AcceptDurable(event);
        case LiveFrame(frame) => decision := assistantStream.AcceptFrame(frame);
      }
      PublishAssistantEntry(decision);
    }
  }
}
