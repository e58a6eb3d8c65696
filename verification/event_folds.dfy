/** `Command::status` and `Command::output`: each drains the event channel of
    a spawned command and folds the events it receives into a result. The
    spawn itself is an input here: either the spawn error, or the finite
    sequence of events the channel delivers before it closes. */
module EventFolds {
  import opened ProcessTypes

  /** The code of the last `Terminated` event, `None` if there is none. */
  function LastCode(events: seq<CommandEvent>): Option<Int32>
  {
    if events == [] then None
    else match events[|events| - 1]
      case Terminated(payload) => payload.code
      case _ => LastCode(events[..|events| - 1])
  }

  /** The bytes `output` accumulates for stream `s`: each record of that
      stream followed by one newline byte, in arrival order. */
  function Collected(events: seq<CommandEvent>, s: Stream): seq<Byte>
  {
    if events == [] then []
    else
      var rest := Collected(events[..|events| - 1], s);
      match PayloadOn(events[|events| - 1], s)
      case Some(line) => rest + line + [NEWLINE_BYTE]
      case None => rest
  }

  function StatusOf(events: seq<CommandEvent>): ExitStatus {
    ExitStatus(LastCode(events))
  }

  function OutputOf(events: seq<CommandEvent>): Output {
    Output(StatusOf(events), Collected(events, StdoutStream), Collected(events, StderrStream))
  }

  /** `Command::status`: spawn errors propagate; otherwise every event is
      received and only the `Terminated` codes are kept, the last one winning. */
  method Status(spawned: Result<seq<CommandEvent>, Error>) returns (r: Result<ExitStatus, Error>)
    ensures spawned.Err? ==> r == Err(spawned.error)
    ensures spawned.Ok? ==> r == Ok(StatusOf(spawned.value))
  {
    if spawned.Err? {
      return Err(spawned.error);
    }
    var events := spawned.value;
    var code: Option<Int32> := None;
    var i := 0;
    while i < |events|
      invariant 0 <= i <= |events|
      invariant code == LastCode(events[..i])
    {
      var event := events[i];
      if event.Terminated? {
        code := event.payload.code;
      }
      assert events[..i + 1][..i] == events[..i];
      i := i + 1;
    }
    assert events[..i] == events;
    return Ok(ExitStatus(code));
  }

  /** `Command::output`: like `status`, and also appends each `Stdout`
      record plus a newline to `stdout` and each `Stderr` record plus a
      newline to `stderr`; `Error` events are dropped. */
  method OutputLoop(spawned: Result<seq<CommandEvent>, Error>) returns (r: Result<Output, Error>)
    ensures spawned.Err? ==> r == Err(spawned.error)
    ensures spawned.Ok? ==> r == Ok(OutputOf(spawned.value))
  {
    if spawned.Err? {
      return Err(spawned.error);
    }
    var events := spawned.value;
    var code: Option<Int32> := None;
    var stdout: seq<Byte> := [];
    var stderr: seq<Byte> := [];
    var i := 0;
    while i < |events|
      invariant 0 <= i <= |events|
      invariant code == LastCode(events[..i])
      invariant stdout == Collected(events[..i], StdoutStream)
      invariant stderr == Collected(events[..i], StderrStream)
    {
      match events[i] {
        case Terminated(payload) =>
          code := payload.code;
        case Stdout(line) =>
          stdout := stdout + line;
          stdout := stdout + [NEWLINE_BYTE];
        case Stderr(line) =>
          stderr := stderr + line;
          stderr := stderr + [NEWLINE_BYTE];
        case Error(_) =>
      }
      assert events[..i + 1][..i] == events[..i];
      i := i + 1;
    }
    assert events[..i] == events;
    return Ok(Output(ExitStatus(code), stdout, stderr));
  }

  // ---------------------------------------------------------------------
  // The exit code: last `Terminated` wins

  /** `events[i]` is a `Terminated` event and no later event is one. */
  ghost predicate LastTerminatedAt(events: seq<CommandEvent>, i: int) {
    0 <= i < |events| && events[i].Terminated?
    && forall j :: i < j < |events| ==> !events[j].Terminated?
  }

  lemma {:induction false} LastCodeWithoutTerminated(events: seq<CommandEvent>)
    requires forall j :: 0 <= j < |events| ==> !events[j].Terminated?
    ensures LastCode(events) == None
  {
    if events != [] {
      LastCodeWithoutTerminated(events[..|events| - 1]);
    }
  }

  lemma {:induction false} LastCodeIsLastTerminated(events: seq<CommandEvent>, i: int)
    requires LastTerminatedAt(events, i)
    ensures LastCode(events) == events[i].payload.code
  {
    if i < |events| - 1 {
      LastCodeIsLastTerminated(events[..|events| - 1], i);
    }
  }

  /** Conversely, a present code comes from the last `Terminated` event. */
  lemma {:induction false} LastCodeHasWitness(events: seq<CommandEvent>)
    requires LastCode(events).Some?
    ensures exists i :: LastTerminatedAt(events, i) && events[i].payload.code == LastCode(events)
  {
    var n := |events| - 1;
    if events[n].Terminated? {
      assert LastTerminatedAt(events, n);
    } else {
      var prefix := events[..n];
      LastCodeHasWitness(prefix);
      var i :| LastTerminatedAt(prefix, i) && prefix[i].payload.code == LastCode(prefix);
      assert LastTerminatedAt(events, i);
    }
  }

  /** A later `Terminated` overrides everything before it, including a
      `Some` code overridden by a `None` one. */
  lemma {:induction false} LastCodeAppend(a: seq<CommandEvent>, b: seq<CommandEvent>)
    ensures (exists j :: 0 <= j < |b| && b[j].Terminated?) ==> LastCode(a + b) == LastCode(b)
    ensures (forall j :: 0 <= j < |b| ==> !b[j].Terminated?) ==> LastCode(a + b) == LastCode(a)
  {
    if b != [] {
      var n := |b| - 1;
      assert (a + b)[..|a + b| - 1] == a + b[..n];
      assert (a + b)[|a + b| - 1] == b[n];
      LastCodeAppend(a, b[..n]);
      if !b[n].Terminated? {
        if exists j :: 0 <= j < |b| && b[j].Terminated? {
          var j :| 0 <= j < |b| && b[j].Terminated?;
          assert b[..n][j].Terminated?;
        }
      }
    } else {
      assert a + b == a;
    }
  }

  /** `success()` of `status` holds exactly when the last `Terminated`
      event carries code 0; with no such event the status never succeeds. */
  lemma StatusSuccessIff(events: seq<CommandEvent>)
    ensures StatusOf(events).Success() <==>
              exists i :: LastTerminatedAt(events, i) && events[i].payload.code == Some(0)
  {
    if StatusOf(events).Success() {
      LastCodeHasWitness(events);
    }
    forall i | LastTerminatedAt(events, i) {
      LastCodeIsLastTerminated(events, i);
    }
  }

  /** The two helpers agree on the exit status of the same event stream.
      This holds by the definition of `OutputOf`, which builds its status
      with `StatusOf`; together with the ensures of `Status` and
      `OutputLoop` it says both methods return the same status. */
  lemma StatusMatchesOutput(events: seq<CommandEvent>)
    ensures OutputOf(events).status == StatusOf(events)
  {
  }

  // ---------------------------------------------------------------------
  // The collected bytes

  /** The records of stream `s`, in order. */
  function Payloads(events: seq<CommandEvent>, s: Stream): seq<seq<Byte>>
  {
    if events == [] then []
    else
      var rest := Payloads(events[1..], s);
      match PayloadOn(events[0], s)
      case Some(line) => [line] + rest
      case None => rest
  }

  /** Each line followed by a newline byte, concatenated. */
  function JoinLines(lines: seq<seq<Byte>>): seq<Byte>
  {
    if lines == [] then [] else lines[0] + [NEWLINE_BYTE] + JoinLines(lines[1..])
  }

  function TotalLength(lines: seq<seq<Byte>>): nat
  {
    if lines == [] then 0 else |lines[0]| + TotalLength(lines[1..])
  }

  lemma {:induction false} PayloadsAppend(a: seq<CommandEvent>, b: seq<CommandEvent>, s: Stream)
    ensures Payloads(a + b, s) == Payloads(a, s) + Payloads(b, s)
  {
    if a == [] {
      assert a + b == b;
    } else {
      assert (a + b)[1..] == a[1..] + b;
      PayloadsAppend(a[1..], b, s);
    }
  }

  lemma {:induction false} JoinLinesAppend(x: seq<seq<Byte>>, y: seq<seq<Byte>>)
    ensures JoinLines(x + y) == JoinLines(x) + JoinLines(y)
  {
    if x == [] {
      assert x + y == y;
    } else {
      assert (x + y)[1..] == x[1..] + y;
      JoinLinesAppend(x[1..], y);
    }
  }

  lemma {:induction false} CollectedAppend(a: seq<CommandEvent>, b: seq<CommandEvent>, s: Stream)
    ensures Collected(a + b, s) == Collected(a, s) + Collected(b, s)
  {
    if b == [] {
      assert a + b == a;
    } else {
      var n := |b| - 1;
      assert (a + b)[..|a + b| - 1] == a + b[..n];
      assert (a + b)[|a + b| - 1] == b[n];
      CollectedAppend(a, b[..n], s);
    }
  }

  /** `output`'s bytes for a stream are that stream's records, in order,
      each followed by one newline byte. */
  lemma {:induction false} CollectedIsJoinedPayloads(events: seq<CommandEvent>, s: Stream)
    ensures Collected(events, s) == JoinLines(Payloads(events, s))
  {
    if events != [] {
      var n := |events| - 1;
      var prefix := events[..n];
      assert events == prefix + [events[n]];
      CollectedIsJoinedPayloads(prefix, s);
      PayloadsAppend(prefix, [events[n]], s);
      assert [events[n]][1..] == [];
      JoinLinesAppend(Payloads(prefix, s), Payloads([events[n]], s));
      match PayloadOn(events[n], s)
      case Some(line) =>
        assert Payloads([events[n]], s) == [line];
        assert JoinLines([line]) == line + [NEWLINE_BYTE] + JoinLines([line][1..]);
      case None =>
        assert Payloads([events[n]], s) == [];
    }
  }

  lemma {:induction false} JoinLinesLength(lines: seq<seq<Byte>>)
    ensures |JoinLines(lines)| == TotalLength(lines) + |lines|
  {
    if lines != [] {
      JoinLinesLength(lines[1..]);
    }
  }

  /** The length of a collected stream is the total length of its records
      plus one newline per record. */
  lemma CollectedLength(events: seq<CommandEvent>, s: Stream)
    ensures |Collected(events, s)| == TotalLength(Payloads(events, s)) + |Payloads(events, s)|
  {
    CollectedIsJoinedPayloads(events, s);
    JoinLinesLength(Payloads(events, s));
  }

  /** A stream's bytes depend only on that stream's records: the other
      stream's records, `Error` and `Terminated` events have no effect. */
  lemma StreamsIndependent(events: seq<CommandEvent>, events': seq<CommandEvent>, s: Stream)
    requires Payloads(events, s) == Payloads(events', s)
    ensures Collected(events, s) == Collected(events', s)
  {
    CollectedIsJoinedPayloads(events, s);
    CollectedIsJoinedPayloads(events', s);
  }

  /** An event that is not a record of `s` leaves `s`'s bytes unchanged
      wherever it occurs. */
  lemma ForeignEventIgnored(a: seq<CommandEvent>, e: CommandEvent, b: seq<CommandEvent>, s: Stream)
    requires PayloadOn(e, s).None?
    ensures Collected(a + [e] + b, s) == Collected(a + b, s)
  {
    CollectedAppend(a + [e], b, s);
    CollectedAppend(a, [e], s);
    CollectedAppend(a, b, s);
    assert [e][..0] == [];
  }

  /** `Error` events change neither the code nor either stream, in both
      `status` and `output`. */
  lemma ErrorEventIgnored(a: seq<CommandEvent>, message: string, b: seq<CommandEvent>)
    ensures OutputOf(a + [Error(message)] + b) == OutputOf(a + b)
    ensures StatusOf(a + [Error(message)] + b) == StatusOf(a + b)
  {
    var e := Error(message);
    ForeignEventIgnored(a, e, b, StdoutStream);
    ForeignEventIgnored(a, e, b, StderrStream);
    LastCodeAppend(a + [e], b);
    LastCodeAppend(a, [e]);
    LastCodeAppend(a, b);
    assert (a + [e]) + b == a + [e] + b;
    if exists j :: 0 <= j < |b| && b[j].Terminated? {
    } else {
      assert LastCode([e]) == LastCode([e][..0]);
    }
  }

  // ---------------------------------------------------------------------
  // The repository's own scenarios

  /** One record on stream `s` followed by termination with `code`: that
      stream holds the record and a newline, the other stream is empty. */
  lemma SingleRecordOutput(s: Stream, line: seq<Byte>, code: Option<Int32>)
    ensures OutputOf([Wrap(s, line), Terminated(TerminatedPayload(code, None))])
            == Output(ExitStatus(code),
                                   if s == StdoutStream then line + [NEWLINE_BYTE] else [],
                                   if s == StderrStream then line + [NEWLINE_BYTE] else [])
  {
    var events := [Wrap(s, line), Terminated(TerminatedPayload(code, None))];
    assert events[..1] == [Wrap(s, line)];
    assert events[..1][..0] == [];
    assert Collected(events, s) == Collected([Wrap(s, line)], s) == line + [NEWLINE_BYTE];
    assert Collected(events, Other(s)) == Collected([Wrap(s, line)], Other(s)) == [];
  }

  /** `cat` of a file holding "This is a test doc!": one `Stdout` record
      and exit code 0 give that text plus a newline, an empty stderr and success. */
  lemma CatFileOutput()
    ensures OutputOf([Stdout(Ascii("This is a test doc!")), Terminated(TerminatedPayload(Some(0), None))])
            == Output(ExitStatus(Some(0)), Ascii("This is a test doc!\n"), [])
    ensures OutputOf([Stdout(Ascii("This is a test doc!")), Terminated(TerminatedPayload(Some(0), None))])
              .status.Success()
  {
    SingleRecordOutput(StdoutStream, Ascii("This is a test doc!"), Some(0));
    AsciiNewline("This is a test doc!");
  }

  /** `cat` of a directory: the diagnostic goes to stderr with a newline,
      stdout stays empty and code 1 is not success. */
  lemma CatDirectoryOutput()
    ensures OutputOf([Stderr(Ascii("cat: test/api/: Is a directory")), Terminated(TerminatedPayload(Some(1), None))])
            == Output(ExitStatus(Some(1)), [], Ascii("cat: test/api/: Is a directory\n"))
    ensures !OutputOf([Stderr(Ascii("cat: test/api/: Is a directory")), Terminated(TerminatedPayload(Some(1), None))])
               .status.Success()
  {
    SingleRecordOutput(StderrStream, Ascii("cat: test/api/: Is a directory"), Some(1));
    AsciiNewline("cat: test/api/: Is a directory");
  }
}
