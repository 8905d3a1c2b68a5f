/** What becomes of a creation request: alone on its Host, and amid anything else. */
module CreationOutcomes {
  import opened Options
  import opened Creation

  // --- one request alone ------------------------------------------------------------------------------

  /** What a request finds outside: the preset it resolves to, the placement rule, a fresh identity. */
  datatype Finds = Finds(resolved: string, placement: bool, minted: SessionId)

  /** The next segment of a request whose awaits all succeed. */
  function Segment(w: World, i: nat, finds: Finds): Step
    requires i < |w.requests| && !At(w, i).Settled()
  {
    match At(w, i)
    case Queued => Begin(i)
    case Claiming => Claim(i, true)
    case Observing => Observe(i, finds.placement)
    case Composing(_) => Compose(i, finds.resolved, finds.placement)
    case Selecting(_) => Select(i)
    case Resuming(_) => Acquire(i)
    case Checking(_) => Check(i)
    case Mounting(_) => Mount(i)
    case Creating(named, _) =>
      Create(i, if named && w.requests[i].named.Some? then w.requests[i].named.value else finds.minted)
  }

  /** At most so many segments of one request, with nothing in between. */
  ghost function Alone(w: World, i: nat, finds: Finds, segments: nat): World
    decreases segments
  {
    if segments == 0 || i >= |w.requests| || At(w, i).Settled() || !Possible(w, Segment(w, i, finds)) then w
    else Alone(Next(w, Segment(w, i, finds)), i, finds, segments - 1)
  }

  /** How a request ends alone, read off the Session it names: its own, a new one of that name, another, or an error. */
  function Ending(w: World, request: Request, finds: Finds): Point {
    if request.named.None? then Succeeded(finds.minted, false)
    else
      var id := request.named.value;
      if id !in w.sessions then Succeeded(id, false)
      else
        var session := w.sessions[id];
        if session.subagent || session.writer == Live(true) || session.cwd != request.cwd then Failed
        else if TurnStart in session.log || !finds.placement then Succeeded(finds.minted, false)
        else if request.preset.Some? && !w.roster then Failed
        else if session.writer.Elsewhere? || session.writer.HeldBy? then Succeeded(finds.minted, false)
        else Succeeded(id, true)
  }

  function Resolved(w: World, finds: Finds): Option<string> {
    if w.roster then Some(finds.resolved) else None
  }

  /** A new Session: no subagent's, nothing logged, with a live Agent that no parent owns. */
  function Created(cwd: string, preset: Option<string>): Session {
    Session(cwd, false, preset, [], Live(false))
  }

  /** What is logged of a preset that the Session does not have yet. */
  function Selection(w: World, was: Session, finds: Finds): seq<Event> {
    if w.roster && PresetOf(was) != Some(finds.resolved) then [Selected(finds.resolved)] else []
  }

  /** What a request that ends so leaves behind. */
  ghost predicate Leaves(w: World, after: World, i: nat, finds: Finds)
    requires i < |w.requests|
  {
    match Ending(w, w.requests[i], finds)
    case Succeeded(id, false) =>
      after.sessions
      == w.sessions[id := Created(w.requests[i].cwd, Resolved(w, finds))]
    case Succeeded(id, true) =>
      && id in w.sessions && id in after.sessions
      && after.sessions == w.sessions[id := after.sessions[id]]
      && var was, now := w.sessions[id], after.sessions[id];
         && now == was.(log := now.log, writer := Live(false))
         && now.log == was.log + Selection(w, was, finds)
         && (w.roster ==> PresetOf(now) == Some(finds.resolved))
    case _ => after.sessions == w.sessions
  }

  lemma OneSegment(w: World, i: nat, finds: Finds, segments: nat)
    requires segments > 0 && i < |w.requests| && !At(w, i).Settled() && Possible(w, Segment(w, i, finds))
    ensures Alone(w, i, finds, segments) == Alone(Next(w, Segment(w, i, finds)), i, finds, segments - 1)
  {
  }

  lemma NoSegment(w: World, i: nat, finds: Finds, segments: nat)
    requires i < |w.requests| && At(w, i).Settled()
    ensures Alone(w, i, finds, segments) == w
  {
  }

  /** From the point where a new Session is created. */
  lemma CreatesAlone(w: World, i: nat, finds: Finds, segments: nat)
    requires segments >= 2 && i < |w.requests| && At(w, i).Creating?
    requires At(w, i).named ==> w.requests[i].named.Some? && w.requests[i].named.value !in w.sessions
    requires finds.minted !in w.sessions
    ensures var id := if At(w, i).named then w.requests[i].named.value else finds.minted;
            var after := Alone(w, i, finds, segments);
            && i < |after.requests| && At(after, i) == Succeeded(id, false) && after.roster == w.roster
            && after.sessions == w.sessions[id := Created(w.requests[i].cwd, At(w, i).target)]
  {
    hide Alone;
    OneSegment(w, i, finds, segments);
    NoSegment(Next(w, Segment(w, i, finds)), i, finds, segments - 1);
  }

  lemma SettlesAlone(w: World, i: nat, finds: Finds, segments: nat)
    requires segments >= 1 && i < |w.requests| && !At(w, i).Settled() && Possible(w, Segment(w, i, finds))
    requires i < |Next(w, Segment(w, i, finds)).requests| && At(Next(w, Segment(w, i, finds)), i).Settled()
    ensures Alone(w, i, finds, segments) == Next(w, Segment(w, i, finds))
  {
    hide Alone;
    OneSegment(w, i, finds, segments);
    NoSegment(Next(w, Segment(w, i, finds)), i, finds, segments - 1);
  }

  /** A blank Session with a live Agent, from the composition of its preset on. */
  lemma ReusesLive(w: World, i: nat, finds: Finds, segments: nat)
    requires segments >= 4 && Valid(w) && i < |w.requests| && At(w, i) == Composing(ReuseLive)
    requires finds.minted !in w.sessions
    ensures var after := Alone(w, i, finds, segments);
            i < |after.requests| && At(after, i) == Ending(w, w.requests[i], finds) && Leaves(w, after, i, finds)
  {
    hide Alone, Valid, PresetIn;
    RequestSound(w, i);
    var id := w.requests[i].named.value;
    var session, next := w.sessions[id], Next(w, Segment(w, i, finds));
    OneSegment(w, i, finds, segments);
    if At(next, i).Creating? {
      CreatesAlone(next, i, finds, segments - 1);
    } else if At(next, i).Selecting? {
      SettlesAlone(next, i, finds, segments - 1);
      AppendedPreset(session, finds.resolved);
    } else {
      NoSegment(next, i, finds, segments - 1);
    }
  }

  /** A Session without a writer is taken over, checked and mounted. */
  lemma Resumes(w: World, i: nat, finds: Finds, segments: nat)
    requires segments >= 4 && Valid(w) && i < |w.requests| && At(w, i) == Resuming(Resolved(w, finds))
    requires var id := w.requests[i].named;
             id.Some? && id.value in w.sessions && Blank(w.sessions[id.value]) && !IsLive(w, id.value)
    requires finds.minted !in w.sessions
    ensures var id, after := w.requests[i].named.value, Alone(w, i, finds, segments);
            && i < |after.requests|
            && if w.sessions[id].writer.Free? then
                 && At(after, i) == Succeeded(id, true) && id in after.sessions
                 && after.sessions == w.sessions[id := after.sessions[id]]
                 && var was, now := w.sessions[id], after.sessions[id];
                    && now == was.(log := now.log, writer := Live(false))
                    && now.log == was.log + Selection(w, was, finds)
                    && (w.roster ==> PresetOf(now) == Some(finds.resolved))
               else
                 && At(after, i) == Succeeded(finds.minted, false)
                 && after.sessions
                    == w.sessions[finds.minted := Created(w.requests[i].cwd, Resolved(w, finds))]
  {
    hide Alone, Valid, PresetIn;
    var id := w.requests[i].named.value;
    var acquired := Next(w, Segment(w, i, finds));
    OneSegment(w, i, finds, segments);
    if !w.sessions[id].writer.Free? {
      CreatesAlone(acquired, i, finds, segments - 1);
    } else {
      var checked := Next(acquired, Segment(acquired, i, finds));
      OneSegment(acquired, i, finds, segments - 1);
      SettlesAlone(checked, i, finds, segments - 2);
      SamePreset(w.sessions[id], acquired.sessions[id]);
      AppendedPreset(acquired.sessions[id], finds.resolved);
      SamePreset(Append(acquired.sessions[id], Selected(finds.resolved)),
                 Append(acquired.sessions[id], Selected(finds.resolved)).(writer := Live(false)));
    }
  }

  lemma SamePreset(a: Session, b: Session)
    requires a.log == b.log && a.preset == b.preset
    ensures PresetOf(a) == PresetOf(b)
  {
  }

  /** A stored Session without a live Agent, from its observation on. */
  lemma Observes(w: World, i: nat, finds: Finds, segments: nat)
    requires segments >= 6 && Valid(w) && i < |w.requests| && At(w, i) == Observing && w.requests[i].named.Some?
    requires !IsLive(w, w.requests[i].named.value) && finds.minted !in w.sessions
    ensures var after := Alone(w, i, finds, segments);
            i < |after.requests| && At(after, i) == Ending(w, w.requests[i], finds) && Leaves(w, after, i, finds)
  {
    hide Alone, Valid, PresetIn;
    var observed := Next(w, Segment(w, i, finds));
    StepValid(w, Segment(w, i, finds));
    OneSegment(w, i, finds, segments);
    if At(observed, i).Settled() {
      NoSegment(observed, i, finds, segments - 1);
    } else {
      var composed := Next(observed, Segment(observed, i, finds));
      StepValid(observed, Segment(observed, i, finds));
      OneSegment(observed, i, finds, segments - 1);
      if At(composed, i).Creating? {
        CreatesAlone(composed, i, finds, segments - 2);
      } else if At(composed, i).Resuming? {
        Resumes(composed, i, finds, segments - 2);
      } else {
        NoSegment(composed, i, finds, segments - 2);
      }
    }
  }

  /**
   A request that nothing disturbs ends within seven segments, as the Session it names demands: blank, placed and free
   or live, that Session is reused under the resolved preset; not stored, it is created; else a new one takes its place.
   */
  lemma RequestAlone(w: World, i: nat, finds: Finds)
    requires Valid(w) && i < |w.requests| && finds.minted !in w.sessions
    requires (At(w, i) == Claiming && w.requests[i].named.Some?)
             || (At(w, i) == Composing(Mint) && w.requests[i].named.None?)
    ensures var after := Alone(w, i, finds, 7);
            i < |after.requests| && At(after, i) == Ending(w, w.requests[i], finds) && Leaves(w, after, i, finds)
  {
    hide Alone, Valid, PresetIn;
    var next := Next(w, Segment(w, i, finds));
    StepValid(w, Segment(w, i, finds));
    OneSegment(w, i, finds, 7);
    if At(next, i).Creating? {
      CreatesAlone(next, i, finds, 6);
    } else if At(next, i).Composing? {
      ReusesLive(next, i, finds, 6);
    } else if At(next, i).Observing? {
      Observes(next, i, finds, 6);
    } else {
      NoSegment(next, i, finds, 6);
    }
  }

  // --- any request ------------------------------------------------------------------------------------

  /** Creation succeeds exactly if the identity is not stored yet, and then stores just the Session asked for. */
  lemma CreateOutcome(w: World, i: nat, id: SessionId)
    requires Possible(w, Create(i, id))
    ensures var after := Next(w, Create(i, id));
            && (At(after, i) == Succeeded(id, false) <==> id !in w.sessions)
            && (At(after, i) == Failed <==> id in w.sessions)
            && (id !in w.sessions ==>
                  after.sessions == w.sessions[id := Created(w.requests[i].cwd, At(w, i).target)])
            && (id in w.sessions ==> after.sessions == w.sessions)
  {
  }

  /** The causes an error has: a failed await, a subagent's Session, another directory, a preset, a taken identity. */
  ghost predicate FailsAt(w: World, step: Step, i: nat) {
    && i < |w.requests| && !At(w, i).Settled() && Resumed(step) == Some(i)
    && match step
       case Fail(_) => true
       case ComposeFails(_) => true
       case Claim(_, attached) =>
         && w.requests[i].named.Some? && w.requests[i].named.value in w.sessions
         && var session := w.sessions[w.requests[i].named.value];
            || (attached && (session.subagent || session.writer == Live(true)))
            || (session.writer.Live? && session.cwd != w.requests[i].cwd)
       case Observe(_, _) =>
         && w.requests[i].named.Some? && w.requests[i].named.value in w.sessions
         && var session := w.sessions[w.requests[i].named.value];
            session.subagent || session.cwd != w.requests[i].cwd
       case Compose(_, _, placement) =>
         && !w.roster && w.requests[i].preset.Some? && At(w, i).Composing?
         && (|| At(w, i).purpose == Observed(true)
             || (&& At(w, i).purpose == ReuseLive && placement && w.requests[i].named.Some?
                 && w.requests[i].named.value in w.sessions && TurnStart !in w.sessions[w.requests[i].named.value].log))
       case Create(_, id) => id in w.sessions
       case _ => false
  }

  /** A request moves only in segments of its own. */
  lemma OthersStay(w: World, step: Step, i: nat)
    requires Possible(w, step) && i < |w.requests| && Resumed(step) != Some(i)
    ensures i < |Next(w, step).requests| && Next(w, step).requests[i] == w.requests[i]
  {
  }

  lemma SettledHasNoSegment(w: World, step: Step, i: nat)
    requires Possible(w, step) && Resumed(step) == Some(i)
    ensures i < |w.requests| && !At(w, i).Settled()
  {
  }

  lemma FailsByItself(w: World, step: Step, i: nat)
    requires Possible(w, step) && Resumed(step) == Some(i) && i < |w.requests| && !At(w, i).Settled()
    ensures i < |Next(w, step).requests|
    ensures At(Next(w, step), i) == Failed <==> FailsAt(w, step, i)
  {
    hide MayChange, PresetOf;
  }

  /** One step makes a request fail exactly for one of these causes. */
  lemma FailsExactly(w: World, step: Step, i: nat)
    requires Possible(w, step) && i < |w.requests| && !At(w, i).Settled()
    ensures i < |Next(w, step).requests|
    ensures At(Next(w, step), i) == Failed <==> FailsAt(w, step, i)
  {
    hide Possible, Next;
    if Resumed(step) == Some(i) {
      FailsByItself(w, step, i);
    } else {
      OthersStay(w, step, i);
    }
  }

  ghost predicate FailsIn(w: World, steps: seq<Step>, i: nat)
    requires AllPossible(w, steps)
    decreases |steps|
  {
    steps != [] && (FailsAt(w, steps[0], i) || FailsIn(Next(w, steps[0]), steps[1..], i))
  }

  lemma SettledStays(w: World, step: Step, i: nat)
    requires Possible(w, step) && i < |w.requests| && At(w, i).Settled()
    ensures i < |Next(w, step).requests| && At(Next(w, step), i) == At(w, i)
  {
    hide Possible, Next;
    if Resumed(step) == Some(i) {
      SettledHasNoSegment(w, step, i);
    } else {
      OthersStay(w, step, i);
    }
  }

  lemma NotBornFailed(w: World, step: Step)
    requires Possible(w, step)
    ensures |w.requests| <= |Next(w, step).requests| <= |w.requests| + 1
    ensures |Next(w, step).requests| > |w.requests| ==> !At(Next(w, step), |w.requests|).Settled()
  {
  }

  /** Through any run, a request has failed exactly if it had before or meets one of the causes. */
  lemma {:induction false} FailedForCause(w: World, steps: seq<Step>, i: nat)
    requires AllPossible(w, steps) && i < |Run(w, steps).requests|
    ensures At(Run(w, steps), i) == Failed <==> (i < |w.requests| && At(w, i) == Failed) || FailsIn(w, steps, i)
    decreases |steps|
  {
    hide FailsAt;
    if steps != [] {
      var next := Next(w, steps[0]);
      FailedForCause(next, steps[1..], i);
      NotBornFailed(w, steps[0]);
      if i < |w.requests| {
        if At(w, i).Settled() {
          SettledStays(w, steps[0], i);
          SettledMeetsNothing(w, steps[0], i);
          SettledFailsNot(next, steps[1..], i);
        } else {
          FailsExactly(w, steps[0], i);
          if At(next, i) == Failed {
            SettledFailsNot(next, steps[1..], i);
          }
        }
      } else {
        UnknownMeetsNothing(w, steps[0], i);
      }
    }
  }

  lemma SettledMeetsNothing(w: World, step: Step, i: nat)
    requires i < |w.requests| && At(w, i).Settled()
    ensures !FailsAt(w, step, i)
  {
  }

  lemma UnknownMeetsNothing(w: World, step: Step, i: nat)
    requires i >= |w.requests|
    ensures !FailsAt(w, step, i)
  {
  }

  lemma {:induction false} SettledFailsNot(w: World, steps: seq<Step>, i: nat)
    requires AllPossible(w, steps) && i < |w.requests| && At(w, i).Settled()
    ensures !FailsIn(w, steps, i)
    decreases |steps|
  {
    hide FailsAt;
    if steps != [] {
      SettledMeetsNothing(w, steps[0], i);
      SettledStays(w, steps[0], i);
      SettledFailsNot(Next(w, steps[0]), steps[1..], i);
    }
  }

  /** A named request turns to a new identity exactly if its Session has started, is misplaced or has another writer. */
  lemma FallsBackExactly(w: World, step: Step, i: nat)
    requires Valid(w) && Possible(w, step) && i < |w.requests| && w.requests[i].named.Some? && !At(w, i).Creating?
    ensures var id := w.requests[i].named.value;
            At(Next(w, step), i).Creating? && !At(Next(w, step), i).named <==>
            && Resumed(step) == Some(i)
            && match step
               case Compose(_, _, placement) =>
                 || At(w, i) == Composing(Observed(false)) || At(w, i) == Composing(Mint)
                 || (At(w, i) == Composing(ReuseLive) && id in w.sessions
                     && (!placement || TurnStart in w.sessions[id].log))
               case Select(_) => id in w.sessions && TurnStart in w.sessions[id].log
               case Check(_) => id in w.sessions && TurnStart in w.sessions[id].log
               case Acquire(_) => id in w.sessions
                   && (w.sessions[id].writer.Elsewhere? || w.sessions[id].writer.HeldBy?)
               case _ => false
  {
    hide InOrder, Tails, Possible, Next;
    if Resumed(step) == Some(i) {
      FallsBackItself(w, step, i);
    } else {
      OthersStay(w, step, i);
    }
  }

  lemma FallsBackItself(w: World, step: Step, i: nat)
    requires Valid(w) && Possible(w, step) && i < |w.requests| && w.requests[i].named.Some? && !At(w, i).Creating?
    requires Resumed(step) == Some(i)
    ensures var id := w.requests[i].named.value;
            i < |Next(w, step).requests| &&
            (At(Next(w, step), i).Creating? && !At(Next(w, step), i).named <==>
             match step
             case Compose(_, _, placement) =>
               || At(w, i) == Composing(Observed(false)) || At(w, i) == Composing(Mint)
               || (At(w, i) == Composing(ReuseLive) && id in w.sessions
                   && (!placement || TurnStart in w.sessions[id].log))
             case Select(_) => id in w.sessions && TurnStart in w.sessions[id].log
             case Check(_) => id in w.sessions && TurnStart in w.sessions[id].log
             case Acquire(_) => id in w.sessions && (w.sessions[id].writer.Elsewhere? || w.sessions[id].writer.HeldBy?)
             case _ => false)
  {
    hide Valid, MayChange, PresetOf;
    RequestSound(w, i);
  }

  /** An observed Session counts as reusable exactly if it is placed and no turn has started. */
  lemma ObservedExactly(w: World, i: nat, placement: bool)
    requires Possible(w, Observe(i, placement))
    ensures var id, after := w.requests[i].named.value, Next(w, Observe(i, placement));
            forall reusable :: At(after, i) == Composing(Observed(reusable)) <==>
              && id in w.sessions && !w.sessions[id].subagent && w.sessions[id].cwd == w.requests[i].cwd
              && reusable == (placement && TurnStart !in w.sessions[id].log)
  {
  }
}
