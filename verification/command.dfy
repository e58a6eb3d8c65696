/** The `Command` builder and the sidecar path resolution. Each builder call
    takes the command by value and returns the updated command, so the
    command is a datatype value here. */
module CommandBuilder {
  import opened ProcessTypes

  /** Program, arguments, the environment-clearing flag, the environment
      overrides and an optional working directory. */
  datatype Command = Command(
    program: string,
    args: seq<string>,
    envClear: bool,
    env: map<string, string>,
    currentDir: Option<string>)

  /** `Command::new`: the given program with every other setting at its default. */
  function New(program: string): (c: Command)
    ensures c.program == program
    ensures c.args == [] && !c.envClear && c.env == map[] && c.currentDir == None
  {
    Command(program, [], false, map[], None)
  }

  /** `Command::args`: pushes each argument in turn onto the argument list. */
  method Args(cmd: Command, args: seq<string>) returns (r: Command)
    ensures r.args == cmd.args + args
    ensures r.(args := cmd.args) == cmd
  {
    r := cmd;
    for i := 0 to |args|
      invariant r.args == cmd.args + args[..i]
      invariant r.(args := cmd.args) == cmd
    {
      r := r.(args := r.args + [args[i]]);
    }
  }

  /** `Command::env_clear`: raises the flag and changes nothing else. */
  function EnvClear(cmd: Command): (r: Command)
    ensures r.envClear
    ensures r.(envClear := cmd.envClear) == cmd
  {
    cmd.(envClear := true)
  }

  /** `Command::envs`: the environment becomes exactly `env`; earlier
      entries are discarded, not merged. */
  function Envs(cmd: Command, env: map<string, string>): (r: Command)
    ensures r.env == env
    ensures r.(env := cmd.env) == cmd
  {
    cmd.(env := env)
  }

  /** `Command::current_dir`: replaces any previous working directory. */
  function CurrentDir(cmd: Command, dir: string): (r: Command)
    ensures r.currentDir == Some(dir)
    ensures r.(currentDir := cmd.currentDir) == cmd
  {
    cmd.(currentDir := Some(dir))
  }

  lemma EnvClearIdempotent(cmd: Command)
    ensures EnvClear(EnvClear(cmd)) == EnvClear(cmd)
  {
  }

  /** A second `envs` call wins outright: no key of the first map survives
      unless the second map has it too. */
  lemma EnvsLastWins(cmd: Command, first: map<string, string>, second: map<string, string>)
    ensures Envs(Envs(cmd, first), second) == Envs(cmd, second)
    ensures forall k :: k in first && k !in second ==> k !in Envs(Envs(cmd, first), second).env
  {
  }

  lemma CurrentDirLastWins(cmd: Command, first: string, second: string)
    ensures CurrentDir(CurrentDir(cmd, first), second) == CurrentDir(cmd, second)
  {
  }

  /** The field setters touch disjoint fields, so their order does not matter. */
  lemma SettersCommute(cmd: Command, env: map<string, string>, dir: string)
    ensures EnvClear(Envs(cmd, env)) == Envs(EnvClear(cmd), env)
    ensures EnvClear(CurrentDir(cmd, dir)) == CurrentDir(EnvClear(cmd), dir)
    ensures Envs(CurrentDir(cmd, dir), env) == CurrentDir(Envs(cmd, env), dir)
  {
  }

  /** The target platform of `relative_command_path`'s two `cfg` arms. */
  datatype Platform = Windows | NotWindows

  function Separator(p: Platform): char {
    if p == Windows then '\\' else '/'
  }

  function ExeSuffix(p: Platform): string {
    if p == Windows then ".exe" else ""
  }

  /** `relative_command_path`. `exeParent` stands for
      `platform::current_exe()?.parent()`: an error when the running
      executable cannot be determined, otherwise its parent directory, if any. */
  function RelativeCommandPath(command: string, exeParent: Result<Option<string>, Error>, p: Platform)
    : (r: Result<string, Error>)
    ensures exeParent.Err? ==> r == Err(exeParent.error)
    ensures exeParent == Ok(None) ==> r == Err(CurrentExeHasNoParent)
    ensures exeParent.Ok? && exeParent.value.Some? ==>
              r.Ok? && r.value == exeParent.value.value + [Separator(p)] + command + ExeSuffix(p)
  {
    match exeParent
    case Err(e) => Err(e)
    case Ok(None) => Err(CurrentExeHasNoParent)
    case Ok(Some(dir)) => Ok(dir + [Separator(p)] + command + ExeSuffix(p))
  }

  /** Reads a path back as a command name placed in `dir`: the inverse of a
      successful `RelativeCommandPath`. */
  function CommandInDir(path: string, dir: string, p: Platform): Option<string> {
    var suffix := ExeSuffix(p);
    if |path| >= |dir| + 1 + |suffix|
       && path[..|dir|] == dir
       && path[|dir|] == Separator(p)
       && path[|path| - |suffix|..] == suffix
    then Some(path[|dir| + 1..|path| - |suffix|])
    else None
  }

  /** The resolved path lies in the executable's directory and names exactly
      the requested command, so distinct commands resolve to distinct paths. */
  lemma RelativeCommandPathInverse(command: string, dir: string, p: Platform)
    ensures RelativeCommandPath(command, Ok(Some(dir)), p).Ok?
    ensures CommandInDir(RelativeCommandPath(command, Ok(Some(dir)), p).value, dir, p) == Some(command)
  {
  }

  lemma RelativeCommandPathInjective(c1: string, c2: string, dir: string, p: Platform)
    requires c1 != c2
    ensures RelativeCommandPath(c1, Ok(Some(dir)), p) != RelativeCommandPath(c2, Ok(Some(dir)), p)
  {
    RelativeCommandPathInverse(c1, dir, p);
    RelativeCommandPathInverse(c2, dir, p);
  }

  /** `Command::new_sidecar`: a command whose program is the resolved path,
      or the resolution error. */
  function NewSidecar(program: string, exeParent: Result<Option<string>, Error>, p: Platform)
    : (r: Result<Command, Error>)
    ensures r.Ok? <==> RelativeCommandPath(program, exeParent, p).Ok?
    ensures r.Err? ==> r.error == RelativeCommandPath(program, exeParent, p).error
    ensures r.Ok? ==> r.value == New(RelativeCommandPath(program, exeParent, p).value)
  {
    match RelativeCommandPath(program, exeParent, p)
    case Ok(path) => Ok(New(path))
    case Err(e) => Err(e)
  }
}
