/** Creating and reusing Sessions: requests whose awaits interleave with each other and with the rest of the Host. */
module Creation {
  import opened Options

  type SessionId = string

  datatype Event = TurnStart | Selected(preset: string)

  /** Who may append to a Session: nobody, a resume or process elsewhere, one request's resume, or its live Agent. */
  datatype Writer = Free | Elsewhere | HeldBy(request: nat) | Live(owned: bool)

  datatype Session = Session(cwd: string, subagent: bool, preset: Option<string>, log: seq<Event>, writer: Writer)

  /** No turn has started. */
  predicate Blank(session: Session) {
    TurnStart !in session.log
  }

  function PresetIn(log: seq<Event>, initial: Option<string>): Option<string> {
    if log == [] then initial
    else match log[|log| - 1]
         case Selected(preset) => Some(preset)
         case TurnStart => PresetIn(log[..|log| - 1], initial)
  }

  function PresetOf(session: Session): Option<string> {
    PresetIn(session.log, session.preset)
  }

  /** A Session is a subagent's by its header, or because its live Agent has a parent for owner. */
  predicate SubagentOwned(session: Session) {
    session.subagent || (session.writer.Live? && session.writer.owned)
  }

  datatype Request = Request(named: Option<SessionId>, cwd: string, preset: Option<string>, after: Option<nat>,
      at: Point)

  /** What the composed preset is for. */
  datatype Purpose = ReuseLive | CreateNamed | Observed(reusable: bool) | Mint

  /** The await a request is suspended at. */
  datatype Point =
    | Queued
    | Claiming
    | Observing
    | Composing(purpose: Purpose)
    | Selecting(chosen: string)
    | Resuming(target: Option<string>)
    | Checking(target: Option<string>)
    | Mounting(target: Option<string>)
    | Creating(named: bool, target: Option<string>)
    | Succeeded(id: SessionId, reused: bool)
    | Failed
  {
    predicate Settled() {
      Succeeded? || Failed?
    }
  }

  datatype World = World(
    roster: bool, // whether preset selection is composed into the Host
    sessions: map<SessionId, Session>,
    requests: seq<Request>, // in arrival order
    claims: map<SessionId, nat>) // the last request in each identity's chain

  datatype Step =
    | Arrive(named: Option<SessionId>, cwd: string, preset: Option<string>)
    | Begin(i: nat)
    | Claim(i: nat, attached: bool)
    | Observe(i: nat, placement: bool)
    | Compose(i: nat, resolved: string, placement: bool)
    | ComposeFails(i: nat)
    | Select(i: nat)
    | Acquire(i: nat)
    | Check(i: nat)
    | Mount(i: nat)
    | Create(i: nat, id: SessionId)
    | Fail(i: nat)
    | Forget(i: nat)
    | OtherCreates(id: SessionId, session: Session)
    | TurnStarts(id: SessionId)
    | OtherSelects(id: SessionId, chosen: string)
    | Changes(id: SessionId, writer: Writer)

  function At(w: World, i: nat): Point
    requires i < |w.requests|
  {
    w.requests[i].at
  }

  function Moved(w: World, i: nat, at: Point): World
    requires i < |w.requests|
  {
    w.(requests := w.requests[i := w.requests[i].(at := at)])
  }

  function Changed(w: World, id: SessionId, session: Session): World {
    w.(sessions := w.sessions[id := session])
  }

  /** A request that holds a live Agent across an await. */
  predicate Uses(request: Request, id: SessionId) {
    request.named == Some(id) && (request.at == Composing(ReuseLive) || request.at.Selecting?)
  }

  /**
   Only a writer's owner gives it up, and the Agent a request is about to reuse is not closed under it. An Agent's owner
   is fixed when the Agent is published; a live Agent only stops being owned, when its parent leaves.
   */
  ghost predicate MayChange(w: World, id: SessionId, writer: Writer)
    requires id in w.sessions
  {
    match w.sessions[id].writer
    case Free => writer.Elsewhere?
    case Elsewhere => writer.Free? || writer.Live?
    case HeldBy(_) => false
    case Live(owned) =>
      if writer.Live? then writer.owned ==> owned
      else writer.Free? && forall request <- w.requests :: !Uses(request, id)
  }

  /** What may happen next: arrivals, the resumption of one request, and anything the rest of the Host does. */
  ghost predicate Possible(w: World, step: Step) {
    match step
    case Arrive(_, _, _) => true
    case Begin(i) =>
      && i < |w.requests| && At(w, i) == Queued
      && (w.requests[i].after.Some? ==>
            w.requests[i].after.value < |w.requests| && At(w, w.requests[i].after.value).Settled())
    case Claim(i, attached) =>
      && i < |w.requests| && At(w, i) == Claiming && w.requests[i].named.Some?
      && (IsLive(w, w.requests[i].named.value) ==> attached)
    case Observe(i, _) => i < |w.requests| && At(w, i) == Observing && w.requests[i].named.Some?
    case Compose(i, _, _) => i < |w.requests| && At(w, i).Composing? && Named(w, i)
    case ComposeFails(i) => i < |w.requests| && At(w, i).Composing?
    case Select(i) => i < |w.requests| && At(w, i).Selecting? && Named(w, i)
    case Acquire(i) => i < |w.requests| && At(w, i).Resuming? && Named(w, i)
    case Check(i) => i < |w.requests| && At(w, i).Checking? && Named(w, i)
    case Mount(i) => i < |w.requests| && At(w, i).Mounting? && Named(w, i)
    case Create(i, id) =>
      i < |w.requests| && At(w, i).Creating?
          && (if At(w, i).named then w.requests[i].named == Some(id) else id !in w.sessions)
    case Fail(i) =>
      && i < |w.requests| && MayFail(At(w, i)) && (Holding(At(w, i)) ==> Named(w, i))
    case Forget(i) => i < |w.requests| && At(w, i).Settled() && w.requests[i].named.Some?
    case OtherCreates(id, session) => id !in w.sessions && Proper(session.log) && !session.writer.HeldBy?
    case TurnStarts(id) => id in w.sessions && (w.sessions[id].writer.Elsewhere? || w.sessions[id].writer.Live?)
    case OtherSelects(id, _) => id in w.sessions && w.sessions[id].writer.Live? && Blank(w.sessions[id])
    case Changes(id, writer) => id in w.sessions && MayChange(w, id, writer)
  }

  predicate MayFail(at: Point) {
    at.Observing? || at.Selecting? || at.Resuming? || at.Creating? || Holding(at)
  }

  /** A request whose resume holds the writer. */
  predicate Holding(at: Point) {
    at.Checking? || at.Mounting?
  }

  predicate IsLive(w: World, id: SessionId) {
    id in w.sessions && w.sessions[id].writer.Live?
  }

  /** A purpose that concerns a stored Session still finds it. */
  predicate Named(w: World, i: nat)
    requires i < |w.requests|
  {
    var at := At(w, i);
    (at.Composing? && (at.purpose.Mint? || at.purpose.CreateNamed?))
    || (w.requests[i].named.Some? && w.requests[i].named.value in w.sessions)
  }

  // --- the segments between awaits ----------------------------------------------------------------------

  function ArriveNext(w: World, named: Option<SessionId>, cwd: string, preset: Option<string>): World {
    if named.None? then w.(requests := w.requests + [Request(None, cwd, preset, None, Composing(Mint))])
    else
      var after := if named.value in w.claims then Some(w.claims[named.value]) else None;
      w.(requests := w.requests + [Request(named, cwd, preset, after, Queued)],
         claims := w.claims[named.value := |w.requests|])
  }

  function ClaimNext(w: World, i: nat, attached: bool): Point
    requires i < |w.requests| && w.requests[i].named.Some?
  {
    var id := w.requests[i].named.value;
    if id in w.sessions && attached && SubagentOwned(w.sessions[id]) then Failed
    else if IsLive(w, id) then
      if w.sessions[id].cwd != w.requests[i].cwd then Failed else Composing(ReuseLive)
    else Observing
  }

  function ObserveNext(w: World, i: nat, placement: bool): Point
    requires i < |w.requests| && w.requests[i].named.Some?
  {
    var id := w.requests[i].named.value;
    if id !in w.sessions then Composing(CreateNamed)
    else if w.sessions[id].subagent || w.sessions[id].cwd != w.requests[i].cwd then Failed
    else Composing(Observed(placement && Blank(w.sessions[id])))
  }

  function Target(w: World, resolved: string): Option<string> {
    if w.roster then Some(resolved) else None
  }

  predicate PresetApplicable(w: World, i: nat)
    requires i < |w.requests|
  {
    w.requests[i].preset.None? || w.roster
  }

  function ComposeNext(w: World, i: nat, resolved: string, placement: bool): Point
    requires i < |w.requests| && At(w, i).Composing? && Named(w, i)
  {
    var target := Target(w, resolved);
    match At(w, i).purpose
    case Mint => Creating(false, target)
    case CreateNamed => Creating(true, target)
    case Observed(reusable) =>
      if !reusable then Creating(false, target)
      else if !PresetApplicable(w, i) then Failed
      else Resuming(target)
    case ReuseLive =>
      var id := w.requests[i].named.value;
      if !placement || !Blank(w.sessions[id]) then Creating(false, target)
      else if !PresetApplicable(w, i) then Failed
      else if target.None? || target == PresetOf(w.sessions[id]) then Succeeded(id, true)
      else Selecting(target.value)
  }

  function Append(session: Session, event: Event): Session {
    session.(log := session.log + [event])
  }

  /** The registry selects a preset only for a blank Session. */
  function SelectNext(w: World, i: nat): World
    requires i < |w.requests| && At(w, i).Selecting? && Named(w, i)
  {
    var id, chosen := w.requests[i].named.value, At(w, i).chosen;
    if !Blank(w.sessions[id]) then Moved(w, i, Creating(false, Some(chosen)))
    else Moved(Changed(w, id, Append(w.sessions[id], Selected(chosen))), i, Succeeded(id, true))
  }

  function AcquireNext(w: World, i: nat): World
    requires i < |w.requests| && At(w, i).Resuming? && Named(w, i)
  {
    var id, target := w.requests[i].named.value, At(w, i).target;
    if w.sessions[id].writer.Free? then Moved(Changed(w, id, w.sessions[id].(writer := HeldBy(i))), i, Checking(target))
    else if IsLive(w, id) then Moved(w, i, Claiming)
    else Moved(w, i, Creating(false, target))
  }

  function CheckNext(w: World, i: nat): World
    requires i < |w.requests| && At(w, i).Checking? && Named(w, i)
  {
    var id, target := w.requests[i].named.value, At(w, i).target;
    if Blank(w.sessions[id]) then Moved(w, i, Mounting(target))
    else Moved(Changed(w, id, w.sessions[id].(writer := Free)), i, Creating(false, target))
  }

  /** The preset is mounted; a change is recorded before the Agent is published. */
  function MountNext(w: World, i: nat): World
    requires i < |w.requests| && At(w, i).Mounting? && Named(w, i)
  {
    var id, target := w.requests[i].named.value, At(w, i).target;
    var session := w.sessions[id];
    var chosen :=
      if target.Some? && PresetOf(session) != target then Append(session, Selected(target.value)) else session;
    Moved(Changed(w, id, chosen.(writer := Live(false))), i, Succeeded(id, true))
  }

  function CreateNext(w: World, i: nat, id: SessionId): World
    requires i < |w.requests| && At(w, i).Creating?
  {
    if id in w.sessions then Moved(w, i, Failed)
    else Moved(Changed(w, id, Session(w.requests[i].cwd, false, At(w, i).target, [], Live(false))), i,
        Succeeded(id, false))
  }

  /** A failed await ends the request; a failed resume gives the writer back. */
  function FailNext(w: World, i: nat): World
    requires i < |w.requests| && (Holding(At(w, i)) ==> Named(w, i))
  {
    if Holding(At(w, i)) then
      var id := w.requests[i].named.value;
      Moved(Changed(w, id, w.sessions[id].(writer := Free)), i, Failed)
    else Moved(w, i, Failed)
  }

  function Next(w: World, step: Step): World
    requires Possible(w, step)
  {
    match step
    case Arrive(named, cwd, preset) => ArriveNext(w, named, cwd, preset)
    case Begin(i) => Moved(w, i, Claiming)
    case Claim(i, attached) => Moved(w, i, ClaimNext(w, i, attached))
    case Observe(i, placement) => Moved(w, i, ObserveNext(w, i, placement))
    case Compose(i, resolved, placement) => Moved(w, i, ComposeNext(w, i, resolved, placement))
    case ComposeFails(i) => Moved(w, i, Failed)
    case Select(i) => SelectNext(w, i)
    case Acquire(i) => AcquireNext(w, i)
    case Check(i) => CheckNext(w, i)
    case Mount(i) => MountNext(w, i)
    case Create(i, id) => CreateNext(w, i, id)
    case Fail(i) => FailNext(w, i)
    case Forget(i) =>
      var id := w.requests[i].named.value;
      if id in w.claims && w.claims[id] == i then w.(claims := w.claims - {id}) else w
    case OtherCreates(id, session) => Changed(w, id, session)
    case TurnStarts(id) => Changed(w, id, Append(w.sessions[id], TurnStart))
    case OtherSelects(id, chosen) => Changed(w, id, Append(w.sessions[id], Selected(chosen)))
    case Changes(id, writer) => Changed(w, id, w.sessions[id].(writer := writer))
  }

  // --- what every step keeps ----------------------------------------------------------------------------

  /** No preset is selected once a turn has started. */
  ghost predicate Proper(log: seq<Event>) {
    forall i, j :: 0 <= i < j < |log| && log[j].Selected? ==> log[i] != TurnStart
  }

  /** What a suspended request may rely on. */
  ghost predicate Sound(w: World, i: nat)
    requires i < |w.requests|
  {
    var request, at := w.requests[i], w.requests[i].at;
    match at
    case Succeeded(id, _) => id in w.sessions && w.sessions[id].cwd == request.cwd
    case Composing(ReuseLive) => Suits(w, request) && w.sessions[request.named.value].writer == Live(false)
    case Composing(Observed(_)) => Suits(w, request)
    case Selecting(_) => Suits(w, request) && w.sessions[request.named.value].writer == Live(false)
    case Resuming(target) => Suits(w, request) && (w.roster ==> target.Some?)
    case Checking(target) =>
      Suits(w, request) && w.sessions[request.named.value].writer == HeldBy(i) && (w.roster ==> target.Some?)
    case Mounting(target) =>
      && (w.roster ==> target.Some?) && Suits(w, request)
      && w.sessions[request.named.value].writer == HeldBy(i) && Blank(w.sessions[request.named.value])
    case _ => true
  }

  /** The named Session is stored, is no subagent's, and belongs to the requested directory. */
  ghost predicate Suits(w: World, request: Request) {
    && request.named.Some? && request.named.value in w.sessions
    && !w.sessions[request.named.value].subagent && w.sessions[request.named.value].cwd == request.cwd
  }

  predicate Same(w: World, i: nat, j: nat)
    requires i < |w.requests| && j < |w.requests|
  {
    w.requests[i].named.Some? && w.requests[i].named == w.requests[j].named
  }

  predicate SettledAt(w: World, i: nat)
    requires i < |w.requests|
  {
    At(w, i).Settled()
  }

  predicate NamedBy(w: World, i: nat, id: SessionId)
    requires i < |w.requests|
  {
    w.requests[i].named == Some(id)
  }

  /** A request waits for the one directly before it in its chain, unless all earlier ones had settled. */
  ghost predicate Chained(w: World, j: nat)
    requires j < |w.requests|
  {
    match w.requests[j].after
    case Some(p) =>
      && p < j && Same(w, p, j)
      && forall i: nat {:trigger Same(w, i, j)} :: p < i < j ==> !Same(w, i, j)
    case None => forall i: nat {:trigger Same(w, i, j)} :: i < j && Same(w, i, j) ==> SettledAt(w, i)
  }

  /** Requests naming one identity start in arrival order, each after the last one settled. */
  ghost predicate InOrder(w: World) {
    && (forall j: nat {:trigger Chained(w, j)} :: j < |w.requests| ==> Chained(w, j))
    && (forall i: nat, j: nat {:trigger Same(w, i, j)} ::
          i < j < |w.requests| && Same(w, i, j) && At(w, j) != Queued ==> SettledAt(w, i))
  }

  /** The chain's end is its last arrival, and an identity without one has nothing unsettled. */
  ghost predicate Tails(w: World) {
    && (forall id <- w.claims ::
          && w.claims[id] < |w.requests| && NamedBy(w, w.claims[id], id)
          && forall i: nat {:trigger NamedBy(w, i, id)} :: w.claims[id] < i < |w.requests| ==> !NamedBy(w, i, id))
    && (forall i: nat, id {:trigger NamedBy(w, i, id)} ::
          i < |w.requests| && NamedBy(w, i, id) && !SettledAt(w, i) ==> id in w.claims)
  }

  ghost predicate AllSound(w: World) {
    && (forall i {:trigger w.requests[i]} :: 0 <= i < |w.requests| ==> Sound(w, i))
    && (forall id <- w.sessions :: Proper(w.sessions[id].log))
  }

  ghost predicate Valid(w: World) {
    InOrder(w) && Tails(w) && AllSound(w)
  }

  // --- order --------------------------------------------------------------------------------------------

  /** Requests keep their identity and place in the chain, and settle for good. */
  ghost predicate Progressed(w: World, after: World) {
    && |after.requests| == |w.requests|
    && forall k: nat {:trigger Kept(w, after, k)} :: k < |w.requests| ==> Kept(w, after, k)
  }

  ghost predicate Kept(w: World, after: World, k: nat)
    requires k < |after.requests| == |w.requests|
  {
    && after.requests[k].named == w.requests[k].named && after.requests[k].after == w.requests[k].after
    && (SettledAt(w, k) ==> SettledAt(after, k))
  }

  lemma StillSame(w: World, after: World, i: nat, j: nat)
    requires Progressed(w, after) && i < |w.requests| && j < |w.requests|
    ensures Same(after, i, j) == Same(w, i, j) && (SettledAt(w, i) ==> SettledAt(after, i))
  {
    assert Kept(w, after, i) && Kept(w, after, j);
  }

  lemma ChainedStill(w: World, after: World, j: nat)
    requires Progressed(w, after) && j < |w.requests| && Chained(w, j)
    ensures Chained(after, j)
  {
    assert Kept(w, after, j);
    forall i: nat | i < j
      ensures Same(after, i, j) == Same(w, i, j) && (SettledAt(w, i) ==> SettledAt(after, i))
    {
      StillSame(w, after, i, j);
    }
  }

  /** Progress keeps the order if what it starts has nothing unsettled before it. */
  lemma ProgressKeepsOrder(w: World, after: World)
    requires InOrder(w) && Progressed(w, after)
    requires forall j: nat, i: nat ::
             i < j < |w.requests| && At(w, j) == Queued && At(after, j) != Queued && Same(w, i, j) ==> SettledAt(w, i)
    ensures InOrder(after)
  {
    forall j: nat | j < |after.requests|
      ensures Chained(after, j)
    {
      assert Chained(w, j);
      ChainedStill(w, after, j);
    }
    forall i: nat, j: nat | i < j < |after.requests| && Same(after, i, j) && At(after, j) != Queued
      ensures SettledAt(after, i)
    {
      StillSame(w, after, i, j);
    }
  }

  lemma ProgressKeepsTails(w: World, after: World)
    requires Tails(w) && Progressed(w, after) && after.claims == w.claims
    ensures Tails(after)
  {
    forall i: nat, id | i < |w.requests|
      ensures NamedBy(after, i, id) == NamedBy(w, i, id) && (SettledAt(w, i) ==> SettledAt(after, i))
    {
      assert Kept(w, after, i);
    }
  }

  /** One request moving on, never back out of a settled point, keeps the order. */
  lemma MoveKeepsOrder(w: World, after: World, i: nat)
    requires InOrder(w) && Tails(w) && i < |w.requests| && !SettledAt(w, i)
    requires |after.requests| == |w.requests| && after.claims == w.claims
    requires after.requests == w.requests[i := w.requests[i].(at := after.requests[i].at)]
    requires At(w, i) == Queued ==> forall k: nat {:trigger Same(w, k, i)} :: k < i && Same(w, k, i) ==> SettledAt(w, k)
    ensures InOrder(after) && Tails(after)
  {
    forall k: nat | k < |w.requests|
      ensures Kept(w, after, k)
    {
    }
    ProgressKeepsOrder(w, after);
    ProgressKeepsTails(w, after);
  }

  /** A request whose predecessor settled has only settled requests of its identity before it. */
  lemma BeginAfterAll(w: World, i: nat)
    requires InOrder(w) && Possible(w, Begin(i))
    ensures forall k: nat {:trigger Same(w, k, i)} :: k < i && Same(w, k, i) ==> SettledAt(w, k)
  {
    assert Chained(w, i);
    forall k: nat | k < i && Same(w, k, i)
      ensures SettledAt(w, k)
    {
      match w.requests[i].after
      case None =>
      case Some(p) =>
        if k < p {
          assert Same(w, p, i);
          assert Same(w, k, p);
        }
    }
  }

  lemma ArriveKeepsOrder(w: World, named: Option<SessionId>, cwd: string, preset: Option<string>)
    requires InOrder(w) && Tails(w)
    ensures InOrder(ArriveNext(w, named, cwd, preset)) && Tails(ArriveNext(w, named, cwd, preset))
  {
    var after, n := ArriveNext(w, named, cwd, preset), |w.requests|;
    forall i: nat, j: nat | i < n && j < n
      ensures Same(after, i, j) == Same(w, i, j) && SettledAt(after, i) == SettledAt(w, i)
    {
    }
    forall i: nat, id | i < n
      ensures NamedBy(after, i, id) == NamedBy(w, i, id)
    {
    }
    forall j: nat | j < |after.requests|
      ensures Chained(after, j)
    {
      if j < n {
        assert Chained(w, j);
      } else if named.Some? {
        ArrivalChained(w, after, named.value, n);
      }
    }
  }

  lemma ArrivalChained(w: World, after: World, id: SessionId, n: nat)
    requires Tails(w) && n == |w.requests| && |after.requests| == n + 1 && after.requests[..n] == w.requests
    requires after.requests[n].named == Some(id)
    requires after.requests[n].after == if id in w.claims then Some(w.claims[id]) else None
    ensures Chained(after, n)
  {
    forall i: nat | i < n
      ensures Same(after, i, n) == NamedBy(w, i, id) && SettledAt(after, i) == SettledAt(w, i)
    {
      assert after.requests[..n][i] == after.requests[i];
    }
  }

  lemma ForgetKeepsOrder(w: World, i: nat)
    requires InOrder(w) && Tails(w) && Possible(w, Forget(i))
    ensures InOrder(Next(w, Forget(i))) && Tails(Next(w, Forget(i)))
  {
    var after := Next(w, Forget(i));
    var id := w.requests[i].named.value;
    SameOrder(w, after);
    forall k: nat, x | k < |w.requests|
      ensures NamedBy(after, k, x) == NamedBy(w, k, x)
    {
    }
    if id in w.claims && w.claims[id] == i {
      forall k: nat | k < |w.requests| && NamedBy(w, k, id)
        ensures SettledAt(w, k)
      {
        if k < i {
          assert Same(w, k, i);
        }
      }
    }
  }

  /** Order is only a matter of the requests. */
  lemma SameOrder(w: World, after: World)
    requires InOrder(w) && after.requests == w.requests
    ensures InOrder(after) && (Tails(w) && after.claims == w.claims ==> Tails(after))
  {
    forall k: nat | k < |w.requests|
      ensures Kept(w, after, k)
    {
    }
    ProgressKeepsOrder(w, after);
    if Tails(w) && after.claims == w.claims {
      ProgressKeepsTails(w, after);
    }
  }

  // --- soundness ----------------------------------------------------------------------------------------

  /** What a step may do to a stored Session: its header stays, and what a request relies on stays. */
  ghost predicate Mild(w: World, after: World, i: nat, id: SessionId)
    requires id in w.sessions
  {
    var session := w.sessions[id];
    && id in after.sessions && after.sessions[id].cwd == session.cwd && after.sessions[id].subagent == session.subagent
    && (session.writer.HeldBy? && session.writer.request != i ==> after.sessions[id] == session)
    && (session.writer == Live(false) ==>
          after.sessions[id].writer == Live(false) || forall request <- w.requests :: !Uses(request, id))
  }

  lemma OtherSound(w: World, after: World, i: nat, k: nat)
    requires k < |w.requests| == |after.requests| && k != i && after.requests[k] == w.requests[k]
    requires Sound(w, k) && after.roster == w.roster && forall id <- w.sessions :: Mild(w, after, i, id)
    ensures Sound(after, k)
  {
    var request := w.requests[k];
    assert request in w.requests;
    if request.named.Some? && request.named.value in w.sessions {
      assert Mild(w, after, i, request.named.value);
    }
    if request.at.Succeeded? {
      assert Mild(w, after, i, request.at.id);
    }
  }

  lemma ProperAppend(session: Session, event: Event)
    requires Proper(session.log) && (event.Selected? ==> Blank(session))
    ensures Proper(Append(session, event).log)
  {
  }

  lemma {:induction false} AppendedPreset(session: Session, preset: string)
    ensures PresetOf(Append(session, Selected(preset))) == Some(preset)
  {
    assert (session.log + [Selected(preset)])[|session.log|] == Selected(preset);
  }

  /** A step of one request that moves it and changes at most one Session. */
  lemma RequestStepSound(w: World, after: World, i: nat, id: SessionId)
    requires AllSound(w) && i < |w.requests|
    requires && after.roster == w.roster && |after.requests| == |w.requests|
             && (forall k: nat :: k < |w.requests| && k != i ==> after.requests[k] == w.requests[k])
             && (after.sessions == w.sessions
                 || (id in after.sessions && after.sessions == w.sessions[id := after.sessions[id]]))
             && (id in w.sessions ==> Mild(w, after, i, id))
             && (id in after.sessions ==> Proper(after.sessions[id].log))
             && Sound(after, i)
    ensures AllSound(after)
  {
    hide Sound, Proper;
    forall x | x in w.sessions
      ensures Mild(w, after, i, x)
    {
    }
    forall k: nat | k < |after.requests|
      ensures Sound(after, k)
    {
      if k != i {
        assert w.requests[k] == w.requests[k];
        OtherSound(w, after, i, k);
      }
    }
  }

  lemma MovesOnly(w: World, i: nat, at: Point)
    requires AllSound(w) && i < |w.requests| && Sound(Moved(w, i, at), i)
    ensures AllSound(Moved(w, i, at))
  {
    var after := Moved(w, i, at);
    forall k: nat | k < |after.requests|
      ensures Sound(after, k)
    {
      if k != i {
        assert w.requests[k] == w.requests[k];
        OtherSound(w, after, i, k);
      }
    }
  }

  lemma SelectSound(w: World, i: nat)
    requires AllSound(w) && Possible(w, Select(i))
    ensures AllSound(Next(w, Select(i)))
  {
    assert Sound(w, i);
    var id := w.requests[i].named.value;
    if Blank(w.sessions[id]) {
      ProperAppend(w.sessions[id], Selected(At(w, i).chosen));
    }
    RequestStepSound(w, Next(w, Select(i)), i, id);
  }

  lemma AcquireSound(w: World, i: nat)
    requires AllSound(w) && Possible(w, Acquire(i))
    ensures AllSound(Next(w, Acquire(i)))
  {
    assert Sound(w, i);
    RequestStepSound(w, Next(w, Acquire(i)), i, w.requests[i].named.value);
  }

  lemma CheckSound(w: World, i: nat)
    requires AllSound(w) && Possible(w, Check(i))
    ensures AllSound(Next(w, Check(i)))
  {
    assert Sound(w, i);
    RequestStepSound(w, Next(w, Check(i)), i, w.requests[i].named.value);
  }

  lemma MountSound(w: World, i: nat)
    requires AllSound(w) && Possible(w, Mount(i))
    ensures AllSound(Next(w, Mount(i)))
  {
    assert Sound(w, i);
    var id, target := w.requests[i].named.value, At(w, i).target;
    if target.Some? {
      ProperAppend(w.sessions[id], Selected(target.value));
    }
    RequestStepSound(w, Next(w, Mount(i)), i, id);
  }

  lemma CreateSound(w: World, i: nat, id: SessionId)
    requires AllSound(w) && Possible(w, Create(i, id))
    ensures AllSound(Next(w, Create(i, id)))
  {
    if id in w.sessions {
      MovesOnly(w, i, Failed);
    } else {
      RequestStepSound(w, Next(w, Create(i, id)), i, id);
    }
  }

  lemma FailSound(w: World, i: nat)
    requires AllSound(w) && Possible(w, Fail(i))
    ensures AllSound(Next(w, Fail(i)))
  {
    assert Sound(w, i);
    if Holding(At(w, i)) {
      RequestStepSound(w, Next(w, Fail(i)), i, w.requests[i].named.value);
    } else {
      MovesOnly(w, i, Failed);
    }
  }

  /** Whatever the rest of the Host does to a Session. */
  lemma OutsideSound(w: World, id: SessionId, session: Session)
    requires AllSound(w) && Proper(session.log)
    requires id in w.sessions ==> Mild(w, Changed(w, id, session), |w.requests|, id)
    ensures AllSound(Changed(w, id, session))
  {
    var after := Changed(w, id, session);
    forall x | x in w.sessions
      ensures Mild(w, after, |w.requests|, x)
    {
    }
    forall k: nat | k < |after.requests|
      ensures Sound(after, k)
    {
      assert w.requests[k] == w.requests[k];
      OtherSound(w, after, |w.requests|, k);
    }
  }

  lemma ArriveSound(w: World, named: Option<SessionId>, cwd: string, preset: Option<string>)
    requires AllSound(w)
    ensures AllSound(ArriveNext(w, named, cwd, preset))
  {
    var after := ArriveNext(w, named, cwd, preset);
    forall k: nat | k < |after.requests|
      ensures Sound(after, k)
    {
      if k < |w.requests| {
        assert after.requests[k] == w.requests[k] && Sound(w, k);
      }
    }
  }

  lemma StepSound(w: World, step: Step)
    requires Valid(w) && Possible(w, step)
    ensures AllSound(Next(w, step))
  {
    hide InOrder, Tails, Proper;
    match step
    case Arrive(named, cwd, preset) => ArriveSound(w, named, cwd, preset);
    case Begin(i) => MovesOnly(w, i, Claiming);
    case Claim(i, attached) => ClaimSound(w, i, attached);
    case Observe(i, placement) => ObserveSound(w, i, placement);
    case Compose(i, resolved, placement) => ComposeSound(w, i, resolved, placement);
    case ComposeFails(i) => MovesOnly(w, i, Failed);
    case Select(i) => SelectSound(w, i);
    case Acquire(i) => AcquireSound(w, i);
    case Check(i) => CheckSound(w, i);
    case Mount(i) => MountSound(w, i);
    case Create(i, id) => CreateSound(w, i, id);
    case Fail(i) => FailSound(w, i);
    case Forget(i) => ForgetSound(w, i);
    case OtherCreates(id, session) => OutsideSound(w, id, session);
    case TurnStarts(id) => AppendSound(w, id, TurnStart);
    case OtherSelects(id, chosen) => AppendSound(w, id, Selected(chosen));
    case Changes(id, writer) => OutsideSound(w, id, w.sessions[id].(writer := writer));
  }

  lemma AppendSound(w: World, id: SessionId, event: Event)
    requires AllSound(w) && id in w.sessions && (w.sessions[id].writer.Elsewhere? || w.sessions[id].writer.Live?)
    requires event.Selected? ==> Blank(w.sessions[id])
    ensures AllSound(Changed(w, id, Append(w.sessions[id], event)))
  {
    ProperAppend(w.sessions[id], event);
    OutsideSound(w, id, Append(w.sessions[id], event));
  }

  lemma ClaimSound(w: World, i: nat, attached: bool)
    requires AllSound(w) && Possible(w, Claim(i, attached))
    ensures AllSound(Next(w, Claim(i, attached)))
  {
    MovesOnly(w, i, ClaimNext(w, i, attached));
  }

  lemma ObserveSound(w: World, i: nat, placement: bool)
    requires AllSound(w) && Possible(w, Observe(i, placement))
    ensures AllSound(Next(w, Observe(i, placement)))
  {
    MovesOnly(w, i, ObserveNext(w, i, placement));
  }

  lemma ComposeSound(w: World, i: nat, resolved: string, placement: bool)
    requires AllSound(w) && Possible(w, Compose(i, resolved, placement))
    ensures AllSound(Next(w, Compose(i, resolved, placement)))
  {
    assert Sound(w, i);
    MovesOnly(w, i, ComposeNext(w, i, resolved, placement));
  }

  lemma ForgetSound(w: World, i: nat)
    requires AllSound(w) && Possible(w, Forget(i))
    ensures AllSound(Next(w, Forget(i)))
  {
    var after := Next(w, Forget(i));
    forall k: nat | k < |after.requests|
      ensures Sound(after, k)
    {
      assert Sound(w, k);
    }
  }

  // --- runs ---------------------------------------------------------------------------------------------

  /** The request a step resumes. */
  function Resumed(step: Step): Option<nat> {
    match step
    case Begin(i) => Some(i)
    case Claim(i, _) => Some(i)
    case Observe(i, _) => Some(i)
    case Compose(i, _, _) => Some(i)
    case ComposeFails(i) => Some(i)
    case Select(i) => Some(i)
    case Acquire(i) => Some(i)
    case Check(i) => Some(i)
    case Mount(i) => Some(i)
    case Create(i, _) => Some(i)
    case Fail(i) => Some(i)
    case _ => None
  }

  lemma ResumedMoves(w: World, step: Step, i: nat)
    requires Possible(w, step) && Resumed(step) == Some(i)
    ensures i < |w.requests| && !SettledAt(w, i) && (At(w, i) == Queued ==> step == Begin(i))
    ensures var after := Next(w, step);
            && |after.requests| == |w.requests| && after.claims == w.claims
            && after.requests == w.requests[i := w.requests[i].(at := after.requests[i].at)]
  {
  }

  lemma RequestSound(w: World, i: nat)
    requires Valid(w) && i < |w.requests|
    ensures Sound(w, i)
  {
  }

  lemma StepOrder(w: World, step: Step)
    requires Valid(w) && Possible(w, step)
    ensures InOrder(Next(w, step)) && Tails(Next(w, step))
  {
    hide AllSound, InOrder, Tails;
    if step.Arrive? {
      ArriveKeepsOrder(w, step.named, step.cwd, step.preset);
    } else if step.Forget? {
      ForgetKeepsOrder(w, step.i);
    } else if Resumed(step).Some? {
      var i := Resumed(step).value;
      ResumedMoves(w, step, i);
      if step.Begin? {
        BeginAfterAll(w, i);
      }
      MoveKeepsOrder(w, Next(w, step), i);
    } else {
      SameOrder(w, Next(w, step));
    }
  }

  lemma StepValid(w: World, step: Step)
    requires Valid(w) && Possible(w, step)
    ensures Valid(Next(w, step))
  {
    hide AllSound, InOrder, Tails;
    StepSound(w, step);
    StepOrder(w, step);
  }

  ghost predicate AllPossible(w: World, steps: seq<Step>)
    decreases |steps|
  {
    steps == [] || (Possible(w, steps[0]) && AllPossible(Next(w, steps[0]), steps[1..]))
  }

  ghost function Run(w: World, steps: seq<Step>): World
    requires AllPossible(w, steps)
    decreases |steps|
  {
    if steps == [] then w else Run(Next(w, steps[0]), steps[1..])
  }

  lemma {:induction false} RunValid(w: World, steps: seq<Step>)
    requires Valid(w) && AllPossible(w, steps)
    ensures Valid(Run(w, steps))
    decreases |steps|
  {
    hide Valid;
    if steps != [] {
      StepValid(w, steps[0]);
      RunValid(Next(w, steps[0]), steps[1..]);
    }
  }

  /** A Host before any creation request. */
  ghost predicate Initial(w: World) {
    w.requests == [] && w.claims == map[] && forall id <- w.sessions :: Proper(w.sessions[id].log)
  }

  /**
   Through any interleaving: requests naming one identity start in arrival order, each after the last one settled;
   every success has the requested directory; and no preset is ever selected after a turn started.
   */
  lemma RunsAreSafe(w: World, steps: seq<Step>)
    requires Initial(w) && AllPossible(w, steps)
    ensures var end := Run(w, steps);
            && (forall i: nat, j: nat :: i < j < |end.requests| && Same(end, i, j) && At(end, j) != Queued ==>
              SettledAt(end, i))
            && (forall i: nat :: i < |end.requests| && At(end, i).Succeeded? ==>
                  At(end, i).id in end.sessions && end.sessions[At(end, i).id].cwd == end.requests[i].cwd)
            && (forall id <- end.sessions :: Proper(end.sessions[id].log))
  {
    RunValid(w, steps);
    var end := Run(w, steps);
    forall i: nat | i < |end.requests| && At(end, i).Succeeded?
      ensures At(end, i).id in end.sessions && end.sessions[At(end, i).id].cwd == end.requests[i].cwd
    {
      assert Sound(end, i);
    }
  }

  /**
   In the step that hands a stored Session to a request, the Session is blank, of the requested directory, owned by
   no subagent routing before or after, and afterwards runs the composed preset.
   */
  lemma ReuseDecision(w: World, step: Step, i: nat, id: SessionId)
    requires Valid(w) && Possible(w, step) && Resumed(step) == Some(i)
    requires At(Next(w, step), i) == Succeeded(id, true)
    ensures w.requests[i].named == Some(id) && id in w.sessions && Blank(w.sessions[id]) && !w.sessions[id].subagent
    ensures w.sessions[id].cwd == w.requests[i].cwd && Blank(Next(w, step).sessions[id])
    ensures !SubagentOwned(w.sessions[id]) && !SubagentOwned(Next(w, step).sessions[id])
    ensures Next(w, step).sessions[id].writer == Live(false)
    ensures w.roster ==> Wanted(w, step, i).Some? && PresetOf(Next(w, step).sessions[id]) == Wanted(w, step, i)
  {
    hide Valid, InOrder, Tails, AllSound;
    ResumedMoves(w, step, i);
    RequestSound(w, i);
    if step.Select? {
      AppendedPreset(w.sessions[id], At(w, i).chosen);
    } else if step.Mount? && At(w, i).target.Some? {
      AppendedPreset(w.sessions[id], At(w, i).target.value);
    }
  }

  /** The preset composed for a request that a step may hand a Session to. */
  function Wanted(w: World, step: Step, i: nat): Option<string>
    requires i < |w.requests|
  {
    match At(w, i)
    case Composing(_) => if step.Compose? then Target(w, step.resolved) else None
    case Selecting(chosen) => Some(chosen)
    case Mounting(target) => target
    case _ => None
  }

  /** A log grows by a preset selection only while the Session is blank. */
  lemma SelectionsOnBlank(w: World, step: Step, id: SessionId)
    requires Valid(w) && Possible(w, step) && id in w.sessions
    ensures id in Next(w, step).sessions && w.sessions[id].log <= Next(w, step).sessions[id].log
    ensures var before, after := w.sessions[id].log, Next(w, step).sessions[id].log;
            forall k :: |before| <= k < |after| && after[k].Selected? ==> Blank(w.sessions[id])
  {
    hide Valid, InOrder, Tails, AllSound;
    if Resumed(step).Some? {
      ResumedMoves(w, step, Resumed(step).value);
      RequestSound(w, Resumed(step).value);
    }
  }

  /** Every suspended request finds the Session it counts on, so that it can always move on. */
  lemma NeverStuck(w: World, i: nat)
    requires Valid(w) && i < |w.requests|
    requires At(w, i).Composing? || At(w, i).Selecting? || At(w, i).Resuming? || Holding(At(w, i))
    ensures Named(w, i)
  {
    assert Sound(w, i);
  }

  // --- closing an Agent that is about to be reused ------------------------------------------------------

  /** The rest of the Host closes a live Agent, whether or not a request is about to reuse it. */
  function Closed(w: World, id: SessionId): World
    requires id in w.sessions
  {
    Changed(w, id, w.sessions[id].(writer := Free))
  }

  /** Closing a live Agent keeps what suspended requests rely on exactly if none of them is about to reuse it. */
  lemma CloseBoundary(w: World, id: SessionId)
    requires Valid(w) && IsLive(w, id)
    ensures Valid(Closed(w, id)) <==> forall request <- w.requests :: !Uses(request, id)
  {
    hide InOrder, Tails, Valid, AllSound;
    var after := Closed(w, id);
    if request :| request in w.requests && Uses(request, id) {
      var i :| 0 <= i < |w.requests| && w.requests[i] == request;
      if Valid(after) {
        RequestSound(after, i);
      }
    } else {
      var step := Changes(id, Free);
      assert Possible(w, step) && Next(w, step) == after;
      StepValid(w, step);
    }
  }

  /** A request whose Agent is closed before its preset is composed hands the Session out if no change of it is due. */
  lemma ClosedHandOut(w: World, i: nat, id: SessionId, resolved: string)
    requires Valid(w) && i < |w.requests| && Uses(w.requests[i], id) && At(w, i).Composing? && Blank(w.sessions[id])
    requires PresetApplicable(w, i) && (w.roster ==> Some(resolved) == PresetOf(w.sessions[id]))
    ensures IsLive(w, id) && Possible(Closed(w, id), Compose(i, resolved, true))
    ensures var after := Next(Closed(w, id), Compose(i, resolved, true));
            At(after, i) == Succeeded(id, true) && !IsLive(after, id)
  {
    hide InOrder, Tails;
    RequestSound(w, i);
  }
}
