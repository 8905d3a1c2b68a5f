/** The Host half of the reconnect protocol: a fold of live frames into one reconnect baseline. */
module HostStream {
  import opened Options
  import opened Transcript

  /** What the fold remembers between frames. */
  datatype Host = Host(active: Option<Opening>, revision: nat)
  {
    /** Fold one frame observed while the log ended at `durableCursor`. */
    function Accept(frame: Frame, durableCursor: int): Host {
      var base := if frame.Start? && frame.revision == 1 && revision != 0 then Host(None, 0) else this;
      if frame.revision != base.revision + 1 then Host(None, frame.revision)
      else
        match frame
        case Start(_, id, _, turn, step) => Host(Some(Opening(id, durableCursor, turn, step, 0, [])), frame.revision)
        case ChunkFrame(_, id, index, timed) => Host(base.Push(id, index, timed), frame.revision)
        case End(_, _, _, _) => Host(None, frame.revision)
    }

    function Push(id: AttemptId, index: nat, timed: Timed): Option<Opening> {
      if active.Some? && active.value.attemptId == id && index == active.value.nextIndex then
        Some(active.value.(stream := active.value.stream + [timed], nextIndex := index + 1))
      else None
    }

    function Snapshot(): Baseline {
      Baseline(revision, active)
    }

    /** The next chunk index is the length of the expanded stream. */
    predicate Counted() {
      active.Some? ==> active.value.nextIndex == |active.value.stream|
    }
  }

  const IDLE := Host(None, 0)

  function AcceptAll(host: Host, frames: seq<(Frame, int)>): Host
    decreases |frames|
  {
    if frames == [] then host
    else AcceptAll(host.Accept(frames[0].0, frames[0].1), frames[1..])
  }

  /** Through any frames, gaps and restarts included, the index counts the stream. */
  lemma {:induction false} IndexCountsStream(host: Host, frames: seq<(Frame, int)>)
    requires host.Counted()
    ensures AcceptAll(host, frames).Counted()
    decreases |frames|
  {
    if frames != [] {
      IndexCountsStream(host.Accept(frames[0].0, frames[0].1), frames[1..]);
    }
  }

  /** A frame that skips a revision, other than a restart. */
  predicate Skips(host: Host, frame: Frame) {
    frame.revision != host.revision + 1 && !(frame.Start? && frame.revision == 1)
  }

  /** After a gap nothing is active until a start arrives in sequence. */
  lemma {:induction false} GapHoldsNothing(host: Host, gap: Frame, cursor: int, rest: seq<(Frame, int)>)
    requires Skips(host, gap)
    requires forall f <- rest :: !f.0.Start?
    ensures AcceptAll(host.Accept(gap, cursor), rest).active == None
  {
    NothingWithoutStart(host.Accept(gap, cursor), rest);
  }

  lemma {:induction false} NothingWithoutStart(host: Host, frames: seq<(Frame, int)>)
    requires host.active == None && forall f <- frames :: !f.0.Start?
    ensures AcceptAll(host, frames).active == None
    decreases |frames|
  {
    if frames != [] {
      assert !frames[0].0.Start?;
      assert forall f <- frames[1..] :: f in frames;
      NothingWithoutStart(host.Accept(frames[0].0, frames[0].1), frames[1..]);
    }
  }

  /** A start of revision 1 begins a new life: whatever was folded before it makes no difference. */
  lemma RestartForgets(host: Host, frames: seq<(Frame, int)>)
    requires frames != [] && frames[0].0.Start? && frames[0].0.revision == 1
    ensures AcceptAll(host, frames) == AcceptAll(IDLE, frames)
  {
  }

  /**
   What the fold holds after a frame: the attempt of a start in sequence or of a restart, with nothing streamed yet, or
   the attempt that was held with the next chunk of it; in any other case nothing, and always the frame's revision.
   */
  lemma HoldsExactly(host: Host, frame: Frame, cursor: int)
    requires host.Counted()
    ensures var after := host.Accept(frame, cursor);
            && after.revision == frame.revision
            && after.active ==
               match frame
               case Start(revision, id, _, turn, step) =>
                 if revision == 1 || revision == host.revision + 1
                 then Some(Opening(id, cursor, turn, step, 0, []))
                 else None
               case ChunkFrame(revision, id, index, timed) =>
                 if revision == host.revision + 1 && host.active.Some? && host.active.value.attemptId == id
                    && index == |host.active.value.stream|
                 then Some(host.active.value.(stream := host.active.value.stream + [timed], nextIndex := index + 1))
                 else None
               case End(_, _, _, _) => None
  {
  }

  /** The fold as the Host keeps it, with the baseline cached between changes. */
  class SessionAssistantStreamAccumulator {
    var activeAttempt: Option<Opening>
    var revision: nat
    var snapshotValue: Baseline
    var dirty: bool

    ghost function State(): Host
      reads this
    {
      Host(activeAttempt, revision)
    }

    /** A clean cache is the baseline of the present state. */
    ghost predicate Valid()
      reads this
    {
      State().Counted() && (!dirty ==> snapshotValue == State().Snapshot())
    }

    constructor ()
      ensures Valid() && State() == IDLE
    {
      activeAttempt, revision, snapshotValue, dirty := None, 0, Baseline(0, None), false;
    }

    method Accept(frame: Frame, durableCursor: int)
      requires Valid()
      modifies this
      ensures Valid() && State() == old(State()).Accept(frame, durableCursor)
    {
      if frame.Start? && frame.revision == 1 && revision != 0 {
        activeAttempt, revision := None, 0;
      }
      if frame.revision != revision + 1 {
        activeAttempt, revision, dirty := None, frame.revision, true;
        return;
      }
      revision := frame.revision;
      match frame {
        case Start(_, id, _, turn, step) =>
          activeAttempt := Some(Opening(id, durableCursor, turn, step, 0, []));
        case ChunkFrame(_, id, index, timed) =>
          if activeAttempt.None? || activeAttempt.value.attemptId != id || index != activeAttempt.value.nextIndex {
            activeAttempt := None;
          } else {
            var attempt := activeAttempt.value;
            activeAttempt := Some(attempt.(stream := attempt.stream + [timed], nextIndex := attempt.nextIndex + 1));
          }
        case End(_, _, _, _) =>
          activeAttempt := None;
      }
      dirty := true;
    }

    /** The cached baseline, rebuilt after a change. */
    method Snapshot() returns (baseline: Baseline)
      requires Valid()
      modifies this
      ensures Valid() && State() == old(State()) && baseline == State().Snapshot()
    {
      if dirty {
        snapshotValue := Baseline(revision, activeAttempt);
        dirty := false;
      }
      baseline := snapshotValue;
    }
  }
}
