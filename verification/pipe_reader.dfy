/** The loop of `spawn_pipe_reader`, with each `read_line` call abstracted to
    its outcome. Given the outcomes in call order, the loop is a transducer
    from outcomes to the events it sends on the channel. */
module PipeReader {
  import opened ProcessTypes
  import EventFolds

  /** What one `read_line` call returns: the byte count it reports together
      with the buffer it filled, or an I/O error message. */
  datatype ReadOutcome = ReadOk(n: nat, buf: seq<Byte>) | ReadErr(message: string)

  /** A successful read of zero bytes: end of stream. */
  predicate IsEof(r: ReadOutcome) {
    r.ReadOk? && r.n == 0
  }

  /** The event sent for an outcome that does not end the loop. */
  function EventFor(r: ReadOutcome, s: Stream): CommandEvent {
    match r
    case ReadOk(_, buf) => Wrap(s, buf)
    case ReadErr(message) => Error(message)
  }

  /** The events a reader of stream `s` sends for `outcomes`. */
  function Emitted(outcomes: seq<ReadOutcome>, s: Stream): seq<CommandEvent>
  {
    if outcomes == [] then []
    else match outcomes[0]
      case ReadOk(n, buf) => if n == 0 then [] else [Wrap(s, buf)] + Emitted(outcomes[1..], s)
      case ReadErr(message) => [Error(message)] + Emitted(outcomes[1..], s)
  }

  /** The loop body run over `outcomes`: break on `Ok(0)`, send the wrapped
      buffer on `Ok(n)` with `n > 0`, send an `Error` on `Err` and keep
      reading. The loop also ends when the given outcomes run out. */
  method ReadLoop(outcomes: seq<ReadOutcome>, s: Stream) returns (sent: seq<CommandEvent>)
    ensures sent == Emitted(outcomes, s)
  {
    sent := [];
    var i := 0;
    while i < |outcomes|
      invariant 0 <= i <= |outcomes|
      invariant sent + Emitted(outcomes[i..], s) == Emitted(outcomes, s)
    {
      match outcomes[i] {
        case ReadOk(n, buf) =>
          if n == 0 {
            break;
          }
          sent := sent + [Wrap(s, buf)];
        case ReadErr(message) =>
          sent := sent + [Error(message)];
      }
      assert outcomes[i..][1..] == outcomes[i + 1..];
      i := i + 1;
    }
  }

  /** The index of the first end-of-stream outcome, or `|outcomes|` if none. */
  function StopIndex(outcomes: seq<ReadOutcome>): (k: nat)
    ensures k <= |outcomes|
    ensures forall j :: 0 <= j < k ==> !IsEof(outcomes[j])
    ensures k < |outcomes| ==> IsEof(outcomes[k])
  {
    if outcomes == [] || IsEof(outcomes[0]) then 0 else 1 + StopIndex(outcomes[1..])
  }

  /** One event per outcome before the first end of stream, in order: the
      wrapped buffer for a successful read and `Error` for a failed one. */
  lemma {:induction false} EmittedCharacterization(outcomes: seq<ReadOutcome>, s: Stream)
    ensures |Emitted(outcomes, s)| == StopIndex(outcomes)
    ensures forall j :: 0 <= j < StopIndex(outcomes) ==> Emitted(outcomes, s)[j] == EventFor(outcomes[j], s)
  {
    if outcomes != [] && !IsEof(outcomes[0]) {
      EmittedCharacterization(outcomes[1..], s);
      assert Emitted(outcomes, s) == [EventFor(outcomes[0], s)] + Emitted(outcomes[1..], s);
    }
  }

  /** Nothing is sent at or after the first end of stream. */
  lemma {:induction false} NothingAfterEof(pre: seq<ReadOutcome>, buf: seq<Byte>, post: seq<ReadOutcome>, s: Stream)
    requires forall j :: 0 <= j < |pre| ==> !IsEof(pre[j])
    ensures Emitted(pre + [ReadOk(0, buf)] + post, s) == Emitted(pre, s)
  {
    if pre == [] {
      assert (pre + [ReadOk(0, buf)] + post)[0] == ReadOk(0, buf);
    } else {
      assert (pre + [ReadOk(0, buf)] + post)[1..] == pre[1..] + [ReadOk(0, buf)] + post;
      NothingAfterEof(pre[1..], buf, post, s);
    }
  }

  /** A read error is reported and reading goes on. */
  lemma ErrorDoesNotStop(message: string, rest: seq<ReadOutcome>, s: Stream)
    ensures Emitted([ReadErr(message)] + rest, s) == [Error(message)] + Emitted(rest, s)
  {
  }

  /** The decision is on the reported count, not on the buffer: a positive
      count with an empty buffer still sends an empty record. */
  lemma EmptyRecordSent(n: nat, rest: seq<ReadOutcome>, s: Stream)
    requires n > 0
    ensures Emitted([ReadOk(n, [])] + rest, s) == [Wrap(s, [])] + Emitted(rest, s)
  {
  }

  /** The buffers of the successful outcomes before the first end of stream. */
  function Records(outcomes: seq<ReadOutcome>): seq<seq<Byte>>
  {
    if outcomes == [] || IsEof(outcomes[0]) then []
    else match outcomes[0]
      case ReadOk(_, buf) => [buf] + Records(outcomes[1..])
      case ReadErr(_) => Records(outcomes[1..])
  }

  /** Fed into `output`, a reader's events contribute exactly its records
      to its own stream, nothing to the other stream, and no exit code. */
  lemma {:induction false} ReaderFeedsOutput(outcomes: seq<ReadOutcome>, s: Stream)
    ensures EventFolds.Payloads(Emitted(outcomes, s), s) == Records(outcomes)
    ensures EventFolds.Payloads(Emitted(outcomes, s), Other(s)) == []
    ensures EventFolds.Collected(Emitted(outcomes, s), s) == EventFolds.JoinLines(Records(outcomes))
    ensures EventFolds.LastCode(Emitted(outcomes, s)) == None
  {
    var out := Emitted(outcomes, s);
    if outcomes != [] && !IsEof(outcomes[0]) {
      ReaderFeedsOutput(outcomes[1..], s);
      assert out == [EventFor(outcomes[0], s)] + Emitted(outcomes[1..], s);
      assert out[1..] == Emitted(outcomes[1..], s);
    }
    EventFolds.CollectedIsJoinedPayloads(out, s);
    EmittedCharacterization(outcomes, s);
    EventFolds.LastCodeWithoutTerminated(out);
  }
}
