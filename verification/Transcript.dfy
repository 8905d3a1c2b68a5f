/** The vocabulary of a followed Session: durable events, live frames and window rows. */
module Transcript {
  import opened Options

  type AttemptId = string
  type Chunk = string

  /** One streamed chunk with its time. */
  datatype Timed = Timed(time: int, chunk: Chunk)

  /** The durable events the assistant fold tells apart; only messages carry a surface operation. */
  datatype EventKind =
    | AssistantMessage(turn: nat, step: nat, appended: bool, interrupted: bool)
    | AssistantAttempt(turn: nat, step: nat)
    | StepEnd(turn: nat, step: nat)
    | Other

  datatype Event = Event(seqNo: nat, kind: EventKind)
  {
    predicate IsSettlement() {
      kind.AssistantMessage? || kind.AssistantAttempt?
    }
  }

  datatype Outcome = Abandoned | Committed(seqNo: nat, isMessage: bool)

  /** A frame of the live assistant stream; `startedAfterSeq` is -1 before the first durable event. */
  datatype Frame =
    | Start(revision: nat, attemptId: AttemptId, startedAfterSeq: int, turn: nat, step: nat)
    | ChunkFrame(revision: nat, attemptId: AttemptId, index: nat, timed: Timed)
    | End(revision: nat, attemptId: AttemptId, index: nat, outcome: Outcome)

  /** One row of the event window; transient rows sit between durable seqs. */
  datatype Row =
    | Durable(event: Event)
    | Transient(at: real, attemptId: AttemptId, turn: nat, step: nat, timed: Timed)
  {
    function Position(): real {
      match this
      case Durable(event) => event.seqNo as real
      case Transient(at, _, _, _, _) => at
    }
  }

  /** The reconnect baseline of a live attempt, its stream expanded to the pushed members. */
  datatype Opening = Opening(
    attemptId: AttemptId, startedAfterSeq: int, turn: nat, step: nat, nextIndex: nat, stream: seq<Timed>)

  datatype Baseline = Baseline(revision: nat, active: Option<Opening>)
}
