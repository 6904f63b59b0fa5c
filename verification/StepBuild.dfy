/** Building a job's steps all at once, or one by one under step control. */
module StepBuild {
  import opened Prelude
  import opened PipelineModel
  import opened Identifiers
  import opened Quote
  import opened StepControl

  datatype EnvVar = EnvVar(key: string, value: string)

  /** A step; timeout is its limit in seconds as printed for the timeout command. */
  datatype StepSpec = StepSpec(
    name: string,
    artifacts: seq<Artifact>,
    workdir: string,
    env: seq<EnvVar>,
    run: seq<string>,
    shell: seq<string>,
    timeout: Option<string>,
    retries: Option<nat>,
    allowFailure: bool)

  /** What the steps of a job share: the jobs whose states are built, the preamble and the shell. */
  datatype Shared = Shared(built: set<Name>, preamble: string, shell: seq<string>)

  datatype BuildError = MissingDepState(job: Name) | MissingRun | EmptyRunCommand

  // ---------------------------------------------------------------- the operations of one step

  /** A repeated attempt carries its number, so that no cached result is used. */
  function ShellCommand(cmd: string, attempt: nat, shared: Shared): string {
    shared.preamble + (if attempt > 0 then "CICADA_RETRY_ATTEMPT=" + Digits(attempt) + " " else "") + cmd
  }

  /** White space of Unicode, as unicode.IsSpace has it. */
  predicate IsSpace(c: char) {
    var u := c as int;
    9 <= u <= 13 || 0x2000 <= u <= 0x200a || u in {0x20, 0x85, 0xa0, 0x1680, 0x2028, 0x2029, 0x202f, 0x205f, 0x3000}
  }

  /** Space, tab, line feed and carriage return are white space; no other printing character of ASCII is. */
  lemma SpacesAre(c: char)
    ensures c in " \t\n\r" ==> IsSpace(c)
    ensures '!' <= c <= '~' ==> !IsSpace(c)
  {
  }

  /** A command is blank only if nothing but white space is in it. */
  lemma BlankCommands(cmd: string, i: nat)
    requires i < |cmd|
    ensures !IsSpace(cmd[i]) ==> !IsBlank(cmd)
    ensures IsBlank(" \t\n") && IsBlank("")
  {
  }

  /** strings.TrimSpace leaves nothing. */
  predicate IsBlank(cmd: string) {
    forall c :: c in cmd ==> IsSpace(c)
  }

  function RunOp(step: StepSpec, cmd: string, attempt: nat, shared: Shared): Op {
    var shell, text := ResolveShell(shared.shell, step.shell), ShellCommand(cmd, attempt, shared);
    Run(shell + [if step.timeout.Some? then Wrapped(step.timeout.value, shell, text) else text])
  }

  predicate Buildable(step: StepSpec, shared: Shared) {
    && (forall i :: 0 <= i < |step.artifacts| ==> step.artifacts[i].from in shared.built)
    && step.run != []
    && NoneBlank(step.run, |step.run|)
  }

  function Copies(artifacts: seq<Artifact>): (r: State)
    ensures |r| == |artifacts|
  {
    seq(|artifacts|, i requires 0 <= i < |artifacts| =>
      CopyFrom(artifacts[i].from, artifacts[i].source, artifacts[i].target))
  }

  function Envs(env: seq<EnvVar>): (r: State)
    ensures |r| == |env|
  {
    seq(|env|, i requires 0 <= i < |env| => AddEnv(env[i].key, env[i].value))
  }

  function Runs(step: StepSpec, attempt: nat, shared: Shared): (r: State)
    ensures |r| == |step.run|
  {
    seq(|step.run|, i requires 0 <= i < |step.run| => RunOp(step, step.run[i], attempt, shared))
  }

  /** Copies, then the working directory, then the environment, then one run per command. */
  function StepOps(step: StepSpec, attempt: nat, shared: Shared): State {
    Copies(step.artifacts) + DirOp(step.workdir) + Envs(step.env) + Runs(step, attempt, shared)
  }

  method AddCopies(base: State, artifacts: seq<Artifact>, built: set<Name>) returns (st: State, missing: Option<Name>)
    ensures missing.None? <==> forall i :: 0 <= i < |artifacts| ==> artifacts[i].from in built
    ensures missing.None? ==> st == base + Copies(artifacts)
    ensures missing.Some? ==> missing.value !in built && exists a :: a in artifacts && a.from == missing.value
  {
    st := base;
    for i := 0 to |artifacts|
      invariant st == base + Copies(artifacts)[..i]
      invariant forall k :: 0 <= k < i ==> artifacts[k].from in built
    {
      var art := artifacts[i];
      if art.from !in built {
        return st, Some(art.from);
      }
      st := st + [CopyFrom(art.from, art.source, art.target)];
    }
    missing := None;
  }

  method AddEnvs(base: State, env: seq<EnvVar>) returns (st: State)
    ensures st == base + Envs(env)
  {
    st := base;
    for i := 0 to |env|
      invariant st == base + Envs(env)[..i]
    {
      st := st + [AddEnv(env[i].key, env[i].value)];
    }
  }

  predicate NoneBlank(run: seq<string>, n: nat)
    requires n <= |run|
  {
    forall i :: 0 <= i < n ==> !IsBlank(run[i])
  }

  method RunCommand(shell: seq<string>, step: StepSpec, i: nat, attempt: nat, shared: Shared) returns (op: Op)
    requires i < |step.run| && shell == ResolveShell(shared.shell, step.shell)
    ensures op == Runs(step, attempt, shared)[i]
  {
    var text := ShellCommand(step.run[i], attempt, shared);
    var args := CommandArgs(shell, text, step.timeout);
    op := Run(args);
  }

  method AddRuns(base: State, step: StepSpec, attempt: nat, shared: Shared) returns (st: State, blank: bool)
    ensures blank <==> !NoneBlank(step.run, |step.run|)
    ensures !blank ==> st == base + Runs(step, attempt, shared)
  {
    st := base;
    var shell := ResolveShell(shared.shell, step.shell);
    for i := 0 to |step.run|
      invariant st == base + Runs(step, attempt, shared)[..i]
      invariant NoneBlank(step.run, i)
    {
      if IsBlank(step.run[i]) {
        return st, true;
      }
      var op := RunCommand(shell, step, i, attempt, shared);
      st := st + [op];
    }
    blank := false;
  }

  function DirOp(workdir: string): State {
    if workdir != "" then [Dir(workdir)] else []
  }

  /** The first fault, in the order in which the step is built. */
  ghost predicate BuildFault(step: StepSpec, shared: Shared, e: BuildError) {
    var found := forall a :: a in step.artifacts ==> a.from in shared.built;
    match e
    case MissingDepState(n) => exists a :: a in step.artifacts && a.from == n && n !in shared.built
    case MissingRun => found && step.run == []
    case EmptyRunCommand => found && exists cmd :: cmd in step.run && IsBlank(cmd)
  }

  method BuildStepOps(base: State, step: StepSpec, attempt: nat, shared: Shared) returns (r: Result<State, BuildError>)
    ensures r.Ok? <==> Buildable(step, shared)
    ensures r.Ok? ==> r.value == base + StepOps(step, attempt, shared)
    ensures r.Err? ==> BuildFault(step, shared, r.error)
    ensures r.Ok? ==> |base| <= |r.value| && r.value[..|base|] == base && LaidOut(step, attempt, shared, r.value[|base|..])
  {
    var st, missing := AddCopies(base, step.artifacts, shared.built);
    if missing.Some? {
      return Err(MissingDepState(missing.value));
    }
    if step.workdir != "" {
      st := st + [Dir(step.workdir)];
    }
    st := AddEnvs(st, step.env);
    forall a | a in step.artifacts ensures a.from in shared.built {
      var i :| 0 <= i < |step.artifacts| && step.artifacts[i] == a;
    }
    if |step.run| == 0 {
      return Err(MissingRun);
    }
    var blank;
    st, blank := AddRuns(st, step, attempt, shared);
    if blank {
      return Err(EmptyRunCommand);
    }
    FourParts(base, Copies(step.artifacts), DirOp(step.workdir), Envs(step.env), Runs(step, attempt, shared));
    OpsAreLaidOut(step, attempt, shared);
    assert st[..|base|] == base && st[|base|..] == StepOps(step, attempt, shared);
    return Ok(st);
  }

  // ---------------------------------------------------------------- the operations, position by position

  /** The command as the shell gets it: behind the preamble, and behind its number if it is repeated. */
  predicate IsText(cmd: string, attempt: nat, shared: Shared, text: string) {
    && (attempt == 0 ==> text == shared.preamble + cmd)
    && (attempt > 0 ==> text == shared.preamble + ("CICADA_RETRY_ATTEMPT=" + Digits(attempt) + " " + cmd))
  }

  ghost predicate RunsWith(step: StepSpec, cmd: string, attempt: nat, shared: Shared, shell: seq<string>, text: string, op: Op) {
    && IsShell(shared.shell, step.shell, shell) && IsText(cmd, attempt, shared, text)
    && op == Run(shell + [if step.timeout.Some? then Wrapped(step.timeout.value, shell, text) else text])
  }

  ghost predicate RunsCommand(step: StepSpec, cmd: string, attempt: nat, shared: Shared, op: Op) {
    exists shell, text :: RunsWith(step, cmd, attempt, shared, shell, text, op)
  }

  /** First one copy per artifact, then the working directory if there is one, then one operation per
      variable, then one run per command, each group in its order. */
  ghost predicate LaidOut(step: StepSpec, attempt: nat, shared: Shared, ops: State) {
    var dir := |step.artifacts|;
    var env := dir + if step.workdir != "" then 1 else 0;
    var run := env + |step.env|;
    && |ops| == run + |step.run|
    && (forall i :: 0 <= i < |step.artifacts| ==>
          ops[i] == CopyFrom(step.artifacts[i].from, step.artifacts[i].source, step.artifacts[i].target))
    && (step.workdir != "" ==> ops[dir] == Dir(step.workdir))
    && (forall i :: 0 <= i < |step.env| ==> ops[env + i] == AddEnv(step.env[i].key, step.env[i].value))
    && (forall i :: 0 <= i < |step.run| ==> RunsCommand(step, step.run[i], attempt, shared, ops[run + i]))
  }

  lemma RunIsCommand(step: StepSpec, cmd: string, attempt: nat, shared: Shared)
    ensures RunsCommand(step, cmd, attempt, shared, RunOp(step, cmd, attempt, shared))
  {
    var shell, text := ResolveShell(shared.shell, step.shell), ShellCommand(cmd, attempt, shared);
    assert shared.preamble + "" == shared.preamble;
    assert IsText(cmd, attempt, shared, text);
    assert RunsWith(step, cmd, attempt, shared, shell, text, RunOp(step, cmd, attempt, shared));
  }

  lemma OpsAreLaidOut(step: StepSpec, attempt: nat, shared: Shared)
    ensures LaidOut(step, attempt, shared, StepOps(step, attempt, shared))
  {
    forall i | 0 <= i < |step.run|
      ensures RunsCommand(step, step.run[i], attempt, shared, Runs(step, attempt, shared)[i])
    {
      RunIsCommand(step, step.run[i], attempt, shared);
    }
  }

  lemma FourParts(base: State, a: State, b: State, c: State, d: State)
    ensures base + a + b + c + d == base + (a + b + c + d)
    ensures b == [] ==> base + a + c + d == base + (a + b + c + d)
  {
  }

  // ---------------------------------------------------------------- the whole job at once

  /** The operations of all steps, each in its first form. */
  function AllOps(steps: seq<StepSpec>, shared: Shared): State {
    if steps == [] then []
    else AllOps(steps[..|steps| - 1], shared) + StepOps(steps[|steps| - 1], 0, shared)
  }

  /** The loop of buildJob. */
  method BuildJob(base: State, steps: seq<StepSpec>, shared: Shared) returns (r: Result<State, BuildError>)
    ensures r.Ok? <==> forall i :: 0 <= i < |steps| ==> Buildable(steps[i], shared)
    ensures r.Ok? ==> r.value == base + AllOps(steps, shared)
  {
    var st := base;
    for i := 0 to |steps|
      invariant st == base + AllOps(steps[..i], shared)
      invariant forall k :: 0 <= k < i ==> Buildable(steps[k], shared)
    {
      var result := BuildStepOps(st, steps[i], 0, shared);
      if result.Err? {
        return Err(result.error);
      }
      assert steps[..i + 1][..i] == steps[..i];
      st := result.value;
    }
    assert steps[..|steps|] == steps;
    return Ok(st);
  }

  // ---------------------------------------------------------------- the same steps under step control

  /** The step definition that buildJob captures for step control. */
  function ExecOf(step: StepSpec, shared: Shared): StepExec {
    StepExec((a: nat) => if Buildable(step, shared) then Some(StepOps(step, a, shared)) else None,
      step.retries, step.allowFailure)
  }

  function Execs(steps: seq<StepSpec>, shared: Shared): (r: seq<StepExec>)
    ensures |r| == |steps| && forall i :: 0 <= i < |r| ==> r[i] == ExecOf(steps[i], shared)
  {
    seq(|steps|, i requires 0 <= i < |steps| => ExecOf(steps[i], shared))
  }

  predicate AllWinAtOnce(steps: seq<StepSpec>, shared: Shared, sv: Service) {
    forall i :: 0 <= i < |steps| ==> Winner(ExecOf(steps[i], shared), i, sv) == Some(0)
  }

  /** If every step succeeds at its first attempt, step control ends in the state that building the
      whole job at once produces. */
  lemma {:induction false} FirstTriesBuildTheJob(steps: seq<StepSpec>, shared: Shared, sv: Service)
    requires AllWinAtOnce(steps, shared, sv)
    ensures KeptOps(Execs(steps, shared), sv) == AllOps(steps, shared)
    ensures forall i :: 0 <= i < |steps| ==> Buildable(steps[i], shared)
  {
    if steps != [] {
      var n := |steps| - 1;
      FirstTriesBuildTheJob(steps[..n], shared, sv);
      assert Execs(steps, shared)[..n] == Execs(steps[..n], shared);
      assert Winner(ExecOf(steps[n], shared), n, sv) == Some(0);
      assert forall i :: 0 <= i < n ==> steps[..n][i] == steps[i];
    }
  }
}
