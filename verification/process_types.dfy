/** Values shared by the process core: bytes, exit codes, the event union
    delivered on a spawned command's channel, and the results of the
    high-level `status` and `output` helpers. */
module ProcessTypes {

  /** A raw byte of a pipe (`u8`). */
  newtype Byte = b: int | 0 <= b < 0x100

  /** A process exit code or signal number (`i32`). */
  newtype Int32 = x: int | -0x8000_0000 <= x < 0x8000_0000

  /** The byte appended by `output` after every collected line. */
  const NEWLINE_BYTE: Byte := 0x0A

  datatype Option<+T> = None | Some(value: T)

  datatype Result<+T, +E> = Ok(value: T) | Err(error: E)

  /** The crate's error kinds that reach this core: an I/O failure (its
      message is opaque) and a running executable without a parent directory. */
  datatype Error = Io(message: string) | CurrentExeHasNoParent

  /** Payload of `CommandEvent::Terminated`. */
  datatype TerminatedPayload = TerminatedPayload(code: Option<Int32>, signal: Option<Int32>)

  /** One unit of observable process activity. */
  datatype CommandEvent =
    | Stderr(line: seq<Byte>)
    | Stdout(line: seq<Byte>)
    | Error(message: string)
    | Terminated(payload: TerminatedPayload)

  /** Which output pipe a reader drains; it selects the event constructor
      the reader wraps its records in. */
  datatype Stream = StdoutStream | StderrStream

  function Other(s: Stream): Stream {
    if s == StdoutStream then StderrStream else StdoutStream
  }

  /** The payload of `e` when `e` is a record of stream `s`. */
  function PayloadOn(e: CommandEvent, s: Stream): Option<seq<Byte>> {
    match e
    case Stdout(line) => if s == StdoutStream then Some(line) else None
    case Stderr(line) => if s == StderrStream then Some(line) else None
    case _ => None
  }

  /** The `wrapper` a pipe reader is given: `CommandEvent::Stdout` or
      `CommandEvent::Stderr`. */
  function Wrap(s: Stream, line: seq<Byte>): (e: CommandEvent)
    ensures PayloadOn(e, s) == Some(line)
    ensures PayloadOn(e, Other(s)) == None
    ensures !e.Terminated? && !e.Error?
  {
    if s == StdoutStream then Stdout(line) else Stderr(line)
  }

  /** The result of a process after it has terminated. */
  datatype ExitStatus = ExitStatus(code: Option<Int32>) {

    /** The exit code of the process, if any: the stored code, and a
        present zero code exactly when the status is a success. */
    function Code(): (c: Option<Int32>)
      ensures c == code
      ensures c == Some(0) <==> Success()
    {
      code
    }

    /** Success is a zero exit code; a missing code (signal termination) or
        any other code is not. */
    predicate Success(): (ok: bool)
      ensures ok <==> code.Some? && code.value == 0
      ensures code.None? ==> !ok
      ensures code.Some? && code.value != 0 ==> !ok
    {
      code == Some(0)
    }
  }

  /** The output of a finished process. */
  datatype Output = Output(status: ExitStatus, stdout: seq<Byte>, stderr: seq<Byte>)

  /** Exactly when a status counts as success: the code is present and 0. */
  lemma SuccessIffZeroCode(st: ExitStatus)
    ensures st.Success() <==> st.Code().Some? && st.Code().value == 0
    ensures st.Code().None? ==> !st.Success()
    ensures forall c: Int32 :: c != 0 && st.Code() == Some(c) ==> !st.Success()
  {
  }

  /** The bytes of an ASCII string. */
  function Ascii(s: string): (b: seq<Byte>)
    requires forall i :: 0 <= i < |s| ==> s[i] as int < 0x80
    ensures |b| == |s|
    ensures forall i :: 0 <= i < |s| ==> b[i] as int == s[i] as int
  {
    seq(|s|, i requires 0 <= i < |s| => s[i] as int as Byte)
  }

  lemma AsciiNewline(s: string)
    requires forall i :: 0 <= i < |s| ==> s[i] as int < 0x80
    ensures Ascii(s + "\n") == Ascii(s) + [NEWLINE_BYTE]
  {
  }
}
