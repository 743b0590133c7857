/** Resource readers: choosing a reader for a konjure input, running the
    external tools they wrap, and in-memory pipelines. Running a process and
    executing a KYAML pipeline are given as functions. */
module Readers {
  import opened Results
  import opened GoStrings
  import opened Document

  /** The fields of a konjure resource specification, left uninterpreted. */
  datatype Spec = Spec(fields: map<string, string>)

  /** The input handed to New: one of the konjure resource types, or a value
      of any other type. */
  datatype Input =
    | ResourceInput(resources: seq<string>)
    | HelmInput(helm: Spec)
    | JsonnetInput(jsonnet: Spec)
    | KubernetesInput(kubernetes: Spec)
    | KustomizeInput(kustomize: Spec)
    | SecretInput(secret: Spec)
    | GitInput(git: Spec)
    | HttpInput(http: Spec)
    | FileInput(file: Spec)
    | OtherInput(typeName: string)

  /** A resource node reader: one per konjure type, or one an option wrapped
      around another. */
  datatype Reader =
    | ResourceReader(resources: seq<string>)
    | HelmReader(helm: Spec)
    | JsonnetReader(jsonnet: Spec)
    | KubernetesReader(kubernetes: Spec)
    | KustomizeReader(kustomize: Spec)
    | SecretReader(secret: Spec)
    | GitReader(git: Spec)
    | HttpReader(http: Spec)
    | FileReader(file: Spec)
    | Decorated(option: string, inner: Reader)

  /** A reader option: replaces a reader by another, typically wrapping it. */
  type ReaderOption = Reader -> Reader

  /** The reader for a recognised input, before any option is applied. */
  function BaseReader(obj: Input): (r: Option<Reader>)
    ensures r.None? <==> obj.OtherInput?
    ensures obj.ResourceInput? ==> r == Some(ResourceReader(obj.resources))
    ensures obj.HelmInput? ==> r == Some(HelmReader(obj.helm))
    ensures obj.JsonnetInput? ==> r == Some(JsonnetReader(obj.jsonnet))
    ensures obj.KubernetesInput? ==> r == Some(KubernetesReader(obj.kubernetes))
    ensures obj.KustomizeInput? ==> r == Some(KustomizeReader(obj.kustomize))
    ensures obj.SecretInput? ==> r == Some(SecretReader(obj.secret))
    ensures obj.GitInput? ==> r == Some(GitReader(obj.git))
    ensures obj.HttpInput? ==> r == Some(HttpReader(obj.http))
    ensures obj.FileInput? ==> r == Some(FileReader(obj.file))
  {
    match obj
    case ResourceInput(resources) => Some(ResourceReader(resources))
    case HelmInput(s) => Some(HelmReader(s))
    case JsonnetInput(s) => Some(JsonnetReader(s))
    case KubernetesInput(s) => Some(KubernetesReader(s))
    case KustomizeInput(s) => Some(KustomizeReader(s))
    case SecretInput(s) => Some(SecretReader(s))
    case GitInput(s) => Some(GitReader(s))
    case HttpInput(s) => Some(HttpReader(s))
    case FileInput(s) => Some(FileReader(s))
    case OtherInput(_) => None
  }

  /** The options applied to `r` in order, each to the result of the ones before. */
  function Applied(r: Reader, opts: seq<ReaderOption>): Reader {
    if opts == [] then r else opts[|opts| - 1](Applied(r, opts[..|opts| - 1]))
  }

  /** Applying a list of options is applying its first part, then its second. */
  lemma {:induction false} AppliedAppend(r: Reader, a: seq<ReaderOption>, b: seq<ReaderOption>)
    ensures Applied(r, a + b) == Applied(Applied(r, a), b)
    decreases |b|
  {
    if b == [] {
      assert a + b == a;
    } else {
      assert (a + b)[..|a + b| - 1] == a + b[..|b| - 1];
      AppliedAppend(r, a, b[..|b| - 1]);
    }
  }

  /** The first option is applied first: it sees the reader New chose. */
  lemma AppliedFirst(r: Reader, o: ReaderOption, rest: seq<ReaderOption>)
    ensures Applied(r, [o] + rest) == Applied(o(r), rest)
  {
    AppliedAppend(r, [o], rest);
    assert [o][..0] == [];
  }

  /** New: nothing for an input of an unrecognised type; otherwise the reader
      for that input with every option applied in order. */
  method New(obj: Input, opts: seq<ReaderOption>) returns (r: Option<Reader>)
    ensures r.None? <==> obj.OtherInput?
    ensures r.Some? ==> r.value == Applied(BaseReader(obj).value, opts)
  {
    var base := BaseReader(obj);
    if base.None? {
      return None;
    }
    var reader := base.value;
    for i := 0 to |opts|
      invariant reader == Applied(base.value, opts[..i])
    {
      assert opts[..i + 1][..i] == opts[..i];
      reader := opts[i](reader);
    }
    assert opts[..|opts|] == opts;
    return Some(reader);
  }

  /** A process to run: the program's path and its arguments. */
  datatype ExecCmd = ExecCmd(path: string, args: seq<string>)

  /** An error from running a process. `stderr` is present when the error is or
      wraps an exit error, and holds what the process wrote to standard error. */
  datatype ExecError = ExecError(text: string, stderr: Option<string>)

  /** What running a process gives: its standard output, or an error. */
  datatype Outcome = Outcome(stdout: seq<bv8>, err: Option<ExecError>)

  /** Executor: a function returning the output of a command. */
  type Executor = ExecCmd -> Outcome

  /** The base configuration of commands: a binary overriding the default, and
      an executor replacing the process's own run. */
  datatype Runtime = Runtime(bin: string, executor: Option<Executor>)

  /** A command together with the executor that runs it, if any. */
  datatype Command = Command(cmd: ExecCmd, executor: Option<Executor>)

  /** Runtime.command: the configured binary, or `defBin` when none is
      configured, run by the configured executor. */
  function RuntimeCommand(rt: Runtime, defBin: string): (c: Command)
    ensures rt.bin != "" ==> c.cmd.path == rt.bin
    ensures rt.bin == "" ==> c.cmd.path == defBin
    ensures c.cmd.args == [c.cmd.path]
    ensures c.executor == rt.executor
  {
    var bin := if rt.bin == "" then defBin else rt.bin;
    Command(ExecCmd(bin, [bin]), rt.executor)
  }

  /** command.Output: the executor's result when one is set, otherwise the
      result of running the process itself (`run`). */
  function CommandOutput(c: Command, run: Executor): (o: Outcome)
    ensures c.executor.Some? ==> o == c.executor.value(c.cmd)
    ensures c.executor.None? ==> o == run(c.cmd)
  {
    match c.executor
    case Some(execute) => execute(c.cmd)
    case None => run(c.cmd)
  }

  /** The result of reading resources: the nodes, or an error. */
  datatype ReadResult = Nodes(nodes: seq<Node>) | Failed(err: ExecError)

  /** The cleaned standard error of a failed process: surrounding white space
      dropped, then one leading "Error: ". */
  function ExitMessage(stderr: string): (m: string)
    ensures m == TrimSpace(stderr) || "Error: " + m == TrimSpace(stderr)
  {
    TrimPrefix(TrimSpace(stderr), "Error: ")
  }

  /** command.Read: a process that exits with an error gives an error naming
      the program, the exit error and the cleaned standard error, still
      wrapping the exit error; any other error is passed on as it is; the
      output of a successful run is decoded into resource nodes (`fromBytes`). */
  function CommandRead(c: Command, run: Executor, fromBytes: seq<bv8> -> Result<seq<Node>>): (r: ReadResult)
    ensures CommandOutput(c, run).err.None? ==>
      match fromBytes(CommandOutput(c, run).stdout)
      case Ok(nodes) => r == Nodes(nodes)
      case Err(e) => r == Failed(ExecError(e, None))
    ensures CommandOutput(c, run).err.Some? && CommandOutput(c, run).err.value.stderr.None? ==>
      r == Failed(CommandOutput(c, run).err.value)
    ensures CommandOutput(c, run).err.Some? && CommandOutput(c, run).err.value.stderr.Some? ==>
      var e := CommandOutput(c, run).err.value;
      r == Failed(ExecError(Base(c.cmd.path) + " " + e.text + ": " + ExitMessage(e.stderr.value), e.stderr))
  {
    var o := CommandOutput(c, run);
    match o.err
    case Some(e) =>
      if e.stderr.Some? then
        Failed(ExecError(Base(c.cmd.path) + " " + e.text + ": " + ExitMessage(e.stderr.value), e.stderr))
      else Failed(e)
    case None =>
      match fromBytes(o.stdout)
      case Ok(nodes) => Nodes(nodes)
      case Err(e) => Failed(ExecError(e, None))
  }

  /** Only one leading "Error: " is removed: a message the tool itself wrote
      as "Error: <m>" is reported as <m>, whatever <m> starts with. */
  lemma ExitMessageStripsOnce(stderr: string, m: string)
    requires TrimSpace(stderr) == "Error: " + m
    ensures ExitMessage(stderr) == m
  {
    assert ("Error: " + m)[..7] == "Error: ";
  }

  /** Standard error without an "Error: " prefix is reported trimmed but otherwise
      as written, and never ends in white space. */
  lemma ExitMessageUnprefixed(stderr: string)
    requires !HasPrefix(TrimSpace(stderr), "Error: ")
    ensures ExitMessage(stderr) == TrimSpace(stderr)
    ensures ExitMessage(stderr) != [] ==> !IsSpace(ExitMessage(stderr)[|ExitMessage(stderr)| - 1])
  {
  }

  /** The message of a failed process starts with the program's base name and
      the exit error, so the two can be read off the front. */
  lemma ExitErrorNamesProgram(c: Command, run: Executor, fromBytes: seq<bv8> -> Result<seq<Node>>)
    requires CommandOutput(c, run).err.Some? && CommandOutput(c, run).err.value.stderr.Some?
    ensures CommandRead(c, run, fromBytes).Failed?
    ensures HasPrefix(CommandRead(c, run, fromBytes).err.text,
      Base(c.cmd.path) + " " + CommandOutput(c, run).err.value.text + ": ")
    ensures CommandRead(c, run, fromBytes).err.stderr == CommandOutput(c, run).err.value.stderr
  {
    var e := CommandOutput(c, run).err.value;
    var p := Base(c.cmd.path) + " " + e.text + ": ";
    assert (p + ExitMessage(e.stderr.value))[..|p|] == p;
  }

  /** A KYAML filter, left uninterpreted. */
  datatype Filter = Filter(name: string)

  /** Pipeline: inputs and filters run without writers of their own. */
  datatype Pipeline = Pipeline(inputs: seq<Reader>, filters: seq<Filter>, continueOnEmptyResult: bool)

  /** kio.Pipeline.Execute with one output writer: the node lists the pipeline
      hands that writer, in order, and the pipeline's error. */
  type Execution = Pipeline -> (seq<seq<Node>>, Option<string>)

  /** What the capturing writer holds after receiving `handed`: the last list,
      or nothing when it was never called. */
  function LastReceived(handed: seq<seq<Node>>): (r: seq<Node>)
    ensures handed == [] ==> r == []
    ensures handed != [] ==> r == handed[|handed| - 1]
  {
    if handed == [] then [] else handed[|handed| - 1]
  }

  /** A writer called once holds exactly the nodes it was handed, whatever it held before. */
  lemma LastReceivedSnoc(handed: seq<seq<Node>>, nodes: seq<Node>)
    ensures LastReceived(handed + [nodes]) == nodes
  {
  }

  /** Pipeline.Read: the pipeline's error, with no nodes; otherwise exactly the
      nodes its single output writer last received. The loop stands for the
      calls the pipeline makes to the capturing writer, which never fails. */
  method PipelineRead(p: Pipeline, execute: Execution) returns (r: Result<seq<Node>>)
    ensures execute(p).1.Some? ==> r == Err(execute(p).1.value)
    ensures execute(p).1.None? ==> r == Ok(LastReceived(execute(p).0))
  {
    var result: seq<Node> := [];
    var (handed, err) := execute(p);
    for i := 0 to |handed|
      invariant result == LastReceived(handed[..i])
    {
      result := handed[i];
      assert handed[..i + 1] == handed[..i] + [handed[i]];
    }
    assert handed[..|handed|] == handed;
    if err.Some? {
      return Err(err.value);
    }
    return Ok(result);
  }
}
