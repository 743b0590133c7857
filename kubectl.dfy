/** The kubectl invocations a KYAML pipeline uses as a source or a sink: the
    program name and the argument list, global flags first. */
module Kubectl {

  /** The kubectl settings shared by every invocation. */
  datatype Kubectl = Kubectl(bin: string, kubeConfig: string, context: string, namespace: string)

  /** A command line: the program to run and its arguments. */
  datatype Cmd = Cmd(name: string, args: seq<string>)

  const GlobalFlags: set<string> := {"--kubeconfig", "--context", "--namespace"}

  /** The number of global settings that are set. */
  function SetCount(k: Kubectl): nat {
    (if k.kubeConfig != "" then 1 else 0) + (if k.context != "" then 1 else 0) +
    (if k.namespace != "" then 1 else 0)
  }

  /** A flag and its value, or nothing when the value is empty. */
  function FlagPair(flag: string, value: string): (r: seq<string>)
    ensures value == "" ==> r == []
    ensures value != "" ==> |r| == 2 && r[0] == flag && r[1] == value
  {
    if value == "" then [] else [flag, value]
  }

  /** The global flags: kubeconfig, context and namespace, each only when set. */
  function GlobalArgs(k: Kubectl): (g: seq<string>)
    ensures |g| == 2 * SetCount(k)
    ensures k.kubeConfig != "" ==> g[..2] == ["--kubeconfig", k.kubeConfig]
    ensures k.namespace != "" ==> g[|g| - 2..] == ["--namespace", k.namespace]
  {
    FlagPair("--kubeconfig", k.kubeConfig) + FlagPair("--context", k.context) +
    FlagPair("--namespace", k.namespace)
  }

  /** The global arguments alternate flag and value, every flag a global one. */
  lemma GlobalArgsPaired(k: Kubectl)
    ensures forall i :: 0 <= i < |GlobalArgs(k)| && i % 2 == 0 ==> GlobalArgs(k)[i] in GlobalFlags
  {
    var a, b, c := FlagPair("--kubeconfig", k.kubeConfig), FlagPair("--context", k.context),
      FlagPair("--namespace", k.namespace);
    assert GlobalArgs(k) == a + b + c;
    assert |a| % 2 == 0 && |b| % 2 == 0;
  }

  /** Kubectl.Command: the configured binary (`kubectl` by default), then the
      global flags, then the caller's arguments. */
  function Command(k: Kubectl, args: seq<string>): (c: Cmd)
    ensures c.name == if k.bin == "" then "kubectl" else k.bin
    ensures |c.args| == 2 * SetCount(k) + |args|
    ensures c.args == GlobalArgs(k) + args
  {
    Cmd(if k.bin == "" then "kubectl" else k.bin, GlobalArgs(k) + args)
  }

  /** Reads back a leading flag pair, if the arguments start with `flag`. */
  function TakeFlag(args: seq<string>, flag: string): (r: (string, seq<string>))
    ensures |r.1| <= |args|
  {
    if |args| >= 2 && args[0] == flag then (args[1], args[2..]) else ("", args)
  }

  /** The settings a command line carries, read back from its global flags in
      the order Command writes them, and the arguments after them. */
  function ParseGlobals(args: seq<string>): (r: (string, string, string, seq<string>))
  {
    var kubeConfig := TakeFlag(args, "--kubeconfig");
    var context := TakeFlag(kubeConfig.1, "--context");
    var namespace := TakeFlag(context.1, "--namespace");
    (kubeConfig.0, context.0, namespace.0, namespace.1)
  }

  /** The global flags are a faithful encoding of the settings: reading them back
      gives the kubeconfig, context and namespace, and the caller's arguments
      untouched, when those arguments do not themselves start with a global flag. */
  lemma ParseCommand(k: Kubectl, args: seq<string>)
    requires args == [] || args[0] !in GlobalFlags
    ensures ParseGlobals(Command(k, args).args) == (k.kubeConfig, k.context, k.namespace, args)
  {
    ParseFlagPairs(k.kubeConfig, k.context, k.namespace, args);
  }

  lemma ParseFlagPairs(kubeConfig: string, context: string, namespace: string, rest: seq<string>)
    requires rest == [] || rest[0] !in GlobalFlags
    ensures ParseGlobals(FlagPair("--kubeconfig", kubeConfig) + FlagPair("--context", context) +
      FlagPair("--namespace", namespace) + rest) == (kubeConfig, context, namespace, rest)
  {
    FlagsDistinct();
    var p2 := FlagPair("--namespace", namespace) + rest;
    var p1 := FlagPair("--context", context) + p2;
    assert FlagPair("--kubeconfig", kubeConfig) + FlagPair("--context", context) +
      FlagPair("--namespace", namespace) + rest == FlagPair("--kubeconfig", kubeConfig) + p1;
    TakePair("--namespace", namespace, rest);
    assert p2 == [] || p2[0] != "--context";
    TakePair("--context", context, p2);
    assert p1 == [] || p1[0] != "--kubeconfig";
    TakePair("--kubeconfig", kubeConfig, p1);
  }

  lemma FlagsDistinct()
    ensures "--context" != "--kubeconfig" && "--namespace" != "--kubeconfig" && "--namespace" != "--context"
  {
    assert "--context"[2] != "--kubeconfig"[2] && "--namespace"[2] != "--kubeconfig"[2];
    assert "--namespace"[2] != "--context"[2];
  }

  /** Reading back one flag pair, when what follows does not start with that flag. */
  lemma TakePair(flag: string, value: string, rest: seq<string>)
    requires rest == [] || rest[0] != flag
    ensures TakeFlag(FlagPair(flag, value) + rest, flag) == (value, rest)
  {
    if value != "" {
      assert (FlagPair(flag, value) + rest)[2..] == rest;
    } else {
      assert FlagPair(flag, value) + rest == rest;
    }
  }

  /** Kubectl.Reader: the arguments, asking for YAML output. */
  function Reader(k: Kubectl, args: seq<string>): (c: Cmd)
    ensures |c.args| == 2 * SetCount(k) + |args| + 1
    ensures c.args[|c.args| - 1] == "--output=yaml"
    ensures c.args == GlobalArgs(k) + args + ["--output=yaml"]
  {
    Command(k, args + ["--output=yaml"])
  }

  /** Kubectl.Writer: the arguments, taking the resources on standard input. */
  function Writer(k: Kubectl, args: seq<string>): (c: Cmd)
    ensures |c.args| == 2 * SetCount(k) + |args| + 1
    ensures c.args[|c.args| - 1] == "--filename=-"
    ensures c.args == GlobalArgs(k) + args + ["--filename=-"]
  {
    Command(k, args + ["--filename=-"])
  }

  /** The dry-run flag, present only for a non-empty mode. */
  function DryRun(dryRun: string): (r: seq<string>)
    ensures dryRun == "" <==> r == []
    ensures dryRun != "" ==> r == ["--dry-run=" + dryRun]
  {
    if dryRun == "" then [] else ["--dry-run=" + dryRun]
  }

  /** Kubectl.Get: a source getting the named objects. */
  function Get(k: Kubectl, objs: seq<string>): (c: Cmd)
    ensures c.name == Command(k, []).name
    ensures |c.args| == |GlobalArgs(k)| + |objs| + 2
    ensures c.args[|GlobalArgs(k)|] == "get"
    ensures forall i :: 0 <= i < |objs| ==> c.args[|GlobalArgs(k)| + 1 + i] == objs[i]
    ensures c.args[|c.args| - 1] == "--output=yaml"
  {
    var c := Reader(k, ["get"] + objs);
    assert c.args == GlobalArgs(k) + ["get"] + objs + ["--output=yaml"];
    c
  }

  /** Kubectl.Create: a sink creating the resources it is given. */
  function Create(k: Kubectl, dryRun: string): (c: Cmd)
    ensures c.name == Command(k, []).name
    ensures |c.args| == |GlobalArgs(k)| + (if dryRun == "" then 2 else 3)
    ensures c.args[|GlobalArgs(k)|] == "create"
    ensures dryRun != "" ==> c.args[|GlobalArgs(k)| + 1] == "--dry-run=" + dryRun
    ensures c.args[|c.args| - 1] == "--filename=-"
  {
    var c := Writer(k, ["create"] + DryRun(dryRun));
    assert c.args == GlobalArgs(k) + ["create"] + DryRun(dryRun) + ["--filename=-"];
    c
  }

  /** Kubectl.Apply: a sink applying the resources it is given. */
  function Apply(k: Kubectl, dryRun: string): (c: Cmd)
    ensures c.name == Command(k, []).name
    ensures |c.args| == |GlobalArgs(k)| + (if dryRun == "" then 2 else 3)
    ensures c.args[|GlobalArgs(k)|] == "apply"
    ensures dryRun != "" ==> c.args[|GlobalArgs(k)| + 1] == "--dry-run=" + dryRun
    ensures c.args[|c.args| - 1] == "--filename=-"
  {
    var c := Writer(k, ["apply"] + DryRun(dryRun));
    assert c.args == GlobalArgs(k) + ["apply"] + DryRun(dryRun) + ["--filename=-"];
    c
  }

  /** Kubectl.Delete: a sink deleting the resources it is given. */
  function Delete(k: Kubectl, dryRun: string, ignoreNotFound: bool): (c: Cmd)
    ensures c.name == Command(k, []).name
    ensures |c.args| == |GlobalArgs(k)| + 2 + (if dryRun == "" then 0 else 1) + (if ignoreNotFound then 1 else 0)
    ensures c.args[|GlobalArgs(k)|] == "delete"
    ensures dryRun != "" ==> c.args[|GlobalArgs(k)| + 1] == "--dry-run=" + dryRun
    ensures ignoreNotFound ==> c.args[|c.args| - 2] == "--ignore-not-found"
    ensures c.args[|c.args| - 1] == "--filename=-"
  {
    var extra := if ignoreNotFound then ["--ignore-not-found"] else [];
    var c := Writer(k, ["delete"] + DryRun(dryRun) + extra);
    assert c.args == GlobalArgs(k) + ["delete"] + DryRun(dryRun) + extra + ["--filename=-"];
    c
  }

  /** Get runs the configured kubectl with the global flags, `get`, the objects
      and the YAML output flag, in that order. */
  lemma GetArgs(k: Kubectl, objs: seq<string>)
    ensures Get(k, objs).name == Command(k, []).name
    ensures Get(k, objs).args == GlobalArgs(k) + ["get"] + objs + ["--output=yaml"]
  {
    assert GlobalArgs(k) + (["get"] + objs + ["--output=yaml"]) == GlobalArgs(k) + ["get"] + objs + ["--output=yaml"];
  }

  /** Create and Apply: the verb, the dry-run flag only for a non-empty mode,
      and standard input as the file. */
  lemma CreateApplyArgs(k: Kubectl, dryRun: string)
    ensures dryRun == "" ==> Create(k, dryRun).args == GlobalArgs(k) + ["create", "--filename=-"]
    ensures dryRun != "" ==> Create(k, dryRun).args == GlobalArgs(k) + ["create", "--dry-run=" + dryRun, "--filename=-"]
    ensures dryRun == "" ==> Apply(k, dryRun).args == GlobalArgs(k) + ["apply", "--filename=-"]
    ensures dryRun != "" ==> Apply(k, dryRun).args == GlobalArgs(k) + ["apply", "--dry-run=" + dryRun, "--filename=-"]
  {
    if dryRun == "" {
      assert ["create"] + [] + ["--filename=-"] == ["create", "--filename=-"];
      assert ["apply"] + [] + ["--filename=-"] == ["apply", "--filename=-"];
    } else {
      assert ["create"] + ["--dry-run=" + dryRun] + ["--filename=-"] == ["create", "--dry-run=" + dryRun, "--filename=-"];
      assert ["apply"] + ["--dry-run=" + dryRun] + ["--filename=-"] == ["apply", "--dry-run=" + dryRun, "--filename=-"];
    }
  }

  /** Delete: the verb, the optional dry-run flag, `--ignore-not-found` only
      when asked for, and standard input as the file. */
  lemma DeleteArgs(k: Kubectl, dryRun: string, ignoreNotFound: bool)
    ensures Delete(k, dryRun, ignoreNotFound).args ==
      GlobalArgs(k) + ["delete"] + DryRun(dryRun) +
      (if ignoreNotFound then ["--ignore-not-found"] else []) + ["--filename=-"]
  {
  }

  /** Delete ignores objects that are not found exactly when asked to, the flag
      coming just before the file. */
  lemma DeleteIgnoresNotFound(k: Kubectl, dryRun: string, ignoreNotFound: bool)
    ensures var a := Delete(k, dryRun, ignoreNotFound).args;
      |a| == 2 * SetCount(k) + 2 + |DryRun(dryRun)| + (if ignoreNotFound then 1 else 0) &&
      (ignoreNotFound <==> a[|a| - 2] == "--ignore-not-found")
  {
    var w := ["delete"] + DryRun(dryRun) + (if ignoreNotFound then ["--ignore-not-found"] else []);
    var a := Delete(k, dryRun, ignoreNotFound).args;
    assert a == GlobalArgs(k) + w + ["--filename=-"];
    assert a[|a| - 2] == a[2 * SetCount(k)..][|w| - 1] == w[|w| - 1];
    if !ignoreNotFound {
      if dryRun == "" {
        assert w[|w| - 1] == "delete";
        assert "delete"[0] != "--ignore-not-found"[0];
      } else {
        assert w[|w| - 1] == "--dry-run=" + dryRun;
        assert ("--dry-run=" + dryRun)[2] != "--ignore-not-found"[2];
      }
    }
  }
}
