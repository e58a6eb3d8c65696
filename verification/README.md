# Shell plugin process core, modelled in Dafny

This project models the sequential logic of the shell plugin's process module
(`plugins/shell/src/process/mod.rs`). That module spawns an external program
and streams its stdout and stderr back to the caller as `CommandEvent`s. The
model covers:

- the `Command` builder (`new`, `args`, `env_clear`, `envs`, `current_dir`,
  `new_sidecar`) and `relative_command_path`;
- `ExitStatus::{code, success}`;
- the event folds that `status` and `output` run over the events received
  from the channel;
- the loop of `spawn_pipe_reader`, with each `read_line` call replaced by its
  abstract outcome.

Modules, one file each:

- `ProcessTypes` (`process_types.dfy`): bytes, `i32` codes, `CommandEvent`,
  `TerminatedPayload`, `ExitStatus`, `Output` and the crate error kinds.
- `CommandBuilder` (`command.dfy`): the builder as a datatype value. Each
  builder call takes the command by value and returns it. `Args` is a method
  with the source's push loop. The path resolution is a function whose
  platform and executable directory are parameters.
- `EventFolds` (`event_folds.dfy`): `Status` and `OutputLoop` (the source's
  `status` and `output`) as loops. Each one
  is proved equal to a reference definition: `LastCode` (the code of the last
  `Terminated` event) and `Collected` (a stream's records, each followed by a
  newline). Lemmas about those definitions come with them.
- `PipeReader` (`pipe_reader.dfy`): `ReadLoop` over a sequence of read
  outcomes, proved equal to the transducer `Emitted`. Lemmas characterise what
  it sends and how that feeds `output`.

Points where the code's behaviour is easy to misread:

- A read error does not stop the reader. The loop has no `break` in its error
  arm (mod.rs:369-375).
- The reader stops on a reported count of 0, not on an empty buffer. A
  positive count with an empty buffer still sends an empty record
  (mod.rs:362-367).
- `envs` replaces the whole environment map (mod.rs:186-189), although its
  doc comment (mod.rs:184) says "Adds or updates". The model follows the code.
- The doc example at mod.rs:316 expects `echo TAURI` to give `"TAURI"` with no
  newline. `output` appends a newline after every record (mod.rs:330-333), and
  the test at mod.rs:486-489 expects one. The model follows the fold.

## Model

| member | source | states |
|---|---|---|
| ProcessTypes.Wrap | plugins/shell/src/process/mod.rs:241-252 | the reader's wrapper puts the buffer on its own stream only and is never `Error` or `Terminated` |
| ProcessTypes.ExitStatus.Code | plugins/shell/src/process/mod.rs:97-100 | `code()` returns the stored exit code, and it is `Some(0)` exactly when the status is a success |
| ProcessTypes.ExitStatus.Success | plugins/shell/src/process/mod.rs:102-105 | success holds exactly when the code is present and 0; an absent code (signal termination) or a non-zero code is never a success |
| ProcessTypes.SuccessIffZeroCode | plugins/shell/src/process/mod.rs:96-105 | `success()` holds iff `code()` is present and 0; an absent code or any non-zero code is never success |
| CommandBuilder.New | plugins/shell/src/process/mod.rs:150-158 | the program as given, no args, `env_clear` false, an empty env, no working directory |
| CommandBuilder.Args | plugins/shell/src/process/mod.rs:166-175 | the new args are the old args followed by the given ones, in order; every other field is unchanged |
| CommandBuilder.EnvClear | plugins/shell/src/process/mod.rs:179-182 | sets the flag and changes no other field |
| CommandBuilder.Envs | plugins/shell/src/process/mod.rs:186-189 | the env becomes exactly the given map; no other field changes |
| CommandBuilder.CurrentDir | plugins/shell/src/process/mod.rs:193-196 | the working directory becomes `Some(dir)`; no other field changes |
| CommandBuilder.EnvClearIdempotent | plugins/shell/src/process/mod.rs:179-182 | clearing twice is the same as clearing once |
| CommandBuilder.EnvsLastWins | plugins/shell/src/process/mod.rs:184-189 | a second `envs` discards the first map: a key only in the first map is absent afterwards (replace, not merge) |
| CommandBuilder.CurrentDirLastWins | plugins/shell/src/process/mod.rs:193-196 | the last `current_dir` call wins |
| CommandBuilder.SettersCommute | plugins/shell/src/process/mod.rs:179-196 | `env_clear`, `envs` and `current_dir` touch disjoint fields, so their order does not matter |
| CommandBuilder.RelativeCommandPath | plugins/shell/src/process/mod.rs:119-127 | a failed executable lookup propagates; no parent gives `CurrentExeHasNoParent`; otherwise the result is `dir/command`, or `dir\command.exe` on Windows |
| CommandBuilder.RelativeCommandPathInverse | plugins/shell/src/process/mod.rs:122-124 | the resolved path starts with the executable's directory and a separator, and reading it back gives exactly the command |
| CommandBuilder.RelativeCommandPathInjective | plugins/shell/src/process/mod.rs:122-124 | distinct command names resolve to distinct paths in the same directory |
| CommandBuilder.NewSidecar | plugins/shell/src/process/mod.rs:160-162 | succeeds exactly when path resolution does, and then gives `new` of the resolved path; otherwise gives the resolution error |
| EventFolds.Status | plugins/shell/src/process/mod.rs:295-305 | a spawn error propagates; otherwise the loop's result is the status whose code is `LastCode` of all received events |
| EventFolds.OutputLoop | plugins/shell/src/process/mod.rs:318-346 | a spawn error propagates; otherwise the loop's code is `LastCode` and its stdout and stderr are `Collected` for each stream |
| EventFolds.LastCodeWithoutTerminated | plugins/shell/src/process/mod.rs:297-304 | with no `Terminated` event (for example on the wait-error path, where only an `Error` arrives) the code is `None` |
| EventFolds.LastCodeIsLastTerminated | plugins/shell/src/process/mod.rs:321-329 | the code is the code of the last `Terminated` event, even a `None` that follows an earlier `Some` |
| EventFolds.LastCodeHasWitness | plugins/shell/src/process/mod.rs:321-329 | a present code always comes from the last `Terminated` event |
| EventFolds.LastCodeAppend | plugins/shell/src/process/mod.rs:299-303 | later events with a `Terminated` decide the code alone; later events without one leave it as it was |
| EventFolds.StatusSuccessIff | plugins/shell/src/process/mod.rs:295-305 | the status succeeds iff the last `Terminated` event carries code `Some(0)` |
| EventFolds.StatusMatchesOutput | plugins/shell/src/process/mod.rs:295-346 | `status` and `output` give the same exit status for the same events |
| EventFolds.CollectedAppend | plugins/shell/src/process/mod.rs:330-337 | accumulation distributes over concatenation of event sequences (in-order append) |
| EventFolds.CollectedIsJoinedPayloads | plugins/shell/src/process/mod.rs:330-337 | a stream's bytes are the in-order concatenation of `record + [0x0A]` over that stream's records |
| EventFolds.CollectedLength | plugins/shell/src/process/mod.rs:330-337 | a stream's byte count is the sum of its record lengths plus the number of its records |
| EventFolds.StreamsIndependent | plugins/shell/src/process/mod.rs:330-337 | two event sequences with the same records on a stream give the same bytes on it, whatever their other events |
| EventFolds.ForeignEventIgnored | plugins/shell/src/process/mod.rs:325-339 | an event that is not a record of a stream, inserted anywhere, leaves that stream's bytes unchanged |
| EventFolds.ErrorEventIgnored | plugins/shell/src/process/mod.rs:300-302 | an `Error` event inserted anywhere changes neither the code nor either stream, in `status` and `output` alike |
| EventFolds.SingleRecordOutput | plugins/shell/src/process/mod.rs:325-345 | one record followed by termination gives that record plus a newline on its stream, an empty other stream and the given code |
| EventFolds.CatFileOutput | plugins/shell/src/process/mod.rs:481-490 | `[Stdout("This is a test doc!"), Terminated(0)]` gives stdout `"This is a test doc!\n"`, an empty stderr and success |
| EventFolds.CatDirectoryOutput | plugins/shell/src/process/mod.rs:494-503 | the `cat` directory diagnostic on stderr plus `Terminated(1)` gives an empty stdout, the diagnostic and a newline on stderr, and no success |
| PipeReader.ReadLoop | plugins/shell/src/process/mod.rs:359-377 | the loop sends exactly the events of the transducer `Emitted` over the read outcomes |
| PipeReader.StopIndex | plugins/shell/src/process/mod.rs:362-365 | the index of the first zero-count read, or the number of outcomes if there is none |
| PipeReader.EmittedCharacterization | plugins/shell/src/process/mod.rs:359-377 | one event per outcome before the first zero-count read, in order: the wrapped buffer for `Ok(n > 0)` and `Error` for `Err` |
| PipeReader.NothingAfterEof | plugins/shell/src/process/mod.rs:362-365 | nothing is sent at or after the first `Ok(0)`, whatever follows it |
| PipeReader.ErrorDoesNotStop | plugins/shell/src/process/mod.rs:369-375 | a read error sends one `Error` and reading continues with the next outcome |
| PipeReader.EmptyRecordSent | plugins/shell/src/process/mod.rs:362-367 | a positive count with an empty buffer still sends an empty record |
| PipeReader.ReaderFeedsOutput | plugins/shell/src/process/mod.rs:330-337 | a reader's events give `output` exactly its records on its own stream, nothing on the other stream, and no exit code |

## Left out

- `spawn` (mod.rs:223-284) is left out: OS process creation, the three pipes, `SharedChild`, the background threads and the `RwLock` completion guard that makes `Terminated` come after both readers finish. A sequential model cannot capture this concurrency or ordering. `Status` and `OutputLoop` instead take the spawn result as input: the spawn error, or the finite sequence of events the channel delivers before it closes.
- The capacity-1 channel and the blocking `block_on_task` sends (mod.rs:239, 259-268, 367) are left out: async runtime and backpressure.
- `From<Command> for StdCommand` and the Windows `CREATE_NO_WINDOW` flag (mod.rs:129-147) are left out: they are calls into `std::process`.
- `CommandChild::{write, kill, pid}` (mod.rs:73-87) are left out: thin wrappers over the pipe writer and the shared child handle.
- `tauri::utils::io::read_line` is not part of this model. Each call is an abstract outcome (a reported count with its buffer, or an error). The `\n`/`\r` record splitting is not specified.
- `platform::current_exe()`, `Path::parent` and `display` are foreign. `RelativeCommandPath` takes their combined result as a parameter: an error, no parent, or the parent directory as a string.
- PipeReader.ReadLoop: the source loops until `read_line` reports 0, so it may read forever (a pipe that keeps failing, for one). The model gets a finite sequence of outcomes, and the loop also ends when that sequence runs out.
- Error message text (`e.to_string()`) is an opaque string.
- CommandBuilder.CurrentDir: the working directory is a `PathBuf` in the source (mod.rs:61, 193), which may hold a path that is not valid UTF-8. The model holds it as a string, so such paths are not captured.
- The event payloads' `#[non_exhaustive]` marker and `Serialize` derivation have no counterpart in the model.
