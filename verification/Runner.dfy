/** The job runner as a state machine. */
module Runner {
  // The concurrent job runner: one goroutine per job, each with its own program counter, sharing a
  // counting semaphore and a cancellation flag. `Next` is one atomic move of one party.

  import opened Prelude
  import opened Graphs
  import Retry

  type Name = string
  type Outputs = map<string, string>

  datatype ErrorKind =
    | DependencyFailed
    | Cancelled
    | ConditionFailed
    | SolveFailed
    | TimedOut
    | OutputFailed

  /** What a node has published by the time it closes its done channel. */
  datatype Outcome = Succeeded(outputs: Option<Outputs>) | Failed(kind: ErrorKind) | Skipped

  datatype Job = Job(
    deps: seq<Name>,
    conditional: bool,        // a deferred when condition is present
    retries: Option<nat>,     // Retry.Attempts
    stepControlled: bool,
    hasOutputDef: bool,
    hasTimeout: bool)

  datatype SolveResult = SolveError | Solved(outputs: Outputs)

  datatype Condition = ConditionError | Holds | Fails

  /** What the foreign parts answer: the solver for each attempt, the output extraction, and the
      deferred condition on the outputs of a job's dependencies. */
  datatype World = World(
    solve: (Name, nat) -> SolveResult,
    extract: Name -> Option<Outputs>,
    evaluate: (Name, map<Name, Outputs>) -> Condition)

  datatype Config = Config(
    jobs: map<Name, Job>,
    order: seq<Name>,         // the job slice, by name
    limit: nat,
    failFast: bool,
    whenCtx: bool)            // a WhenContext was supplied

  /** The program counter of runNode. Solving, Extracting and Releasing hold a semaphore slot. */
  datatype Phase =
    | Waiting(k: nat)
    | Evaluating
    | Acquiring
    | Solving(attempt: nat)
    | Extracting(solved: Option<Outputs>)
    | Releasing(result: Outcome)
    | Closing(result: Outcome)
    | Done(result: Outcome)

  datatype State = State(nodes: map<Name, Phase>, held: nat, cancelled: bool, timedOut: set<Name>)

  datatype Action =
    | Advance(n: Name)        // the goroutine's own next statement
    | Interrupt(n: Name)      // the goroutine observes its cancelled context
    | Timeout(n: Name)        // the job's own deadline passes, and is the first cause to end its context
    | CancelRun               // the caller cancels
    | FailFastCancel(n: Name) // the error group cancels after the first failed job

  function DepGraph(c: Config): Graph<Name> {
    map n | n in c.jobs :: c.jobs[n].deps
  }

  /** What Run has established before it starts the goroutines. */
  ghost predicate WellFormed(c: Config) {
    && Distinct(c.order)
    && (forall n :: n in c.order <==> n in c.jobs)
    && Closed(DepGraph(c))
    && Acyclic(DepGraph(c))
    && c.limit >= 1
  }

  lemma DepKnown(c: Config, n: Name, d: Name)
    requires WellFormed(c) && n in c.jobs && d in c.jobs[n].deps
    ensures d in c.jobs && Edge(DepGraph(c), n, d)
  {
    assert n in DepGraph(c) && d in DepGraph(c)[n];
    assert d in DepGraph(c);
  }

  predicate HoldsSlot(p: Phase) {
    p.Solving? || p.Extracting? || p.Releasing?
  }

  function OutputsIn(p: Phase): Option<Outputs> {
    if p.Done? && p.result.Succeeded? then p.result.outputs else None
  }

  /** The outputs a deferred condition sees: those of the dependencies that have any. */
  function DepOutputs(nodes: map<Name, Phase>, deps: seq<Name>): map<Name, Outputs> {
    map d | d in deps && d in nodes && OutputsIn(nodes[d]).Some? :: OutputsIn(nodes[d]).value
  }

  function Init(c: Config): State {
    State(map n | n in c.jobs :: Waiting(0), 0, false, {})
  }

  predicate Enabled(c: Config, s: State, a: Action) {
    match a
    case Advance(n) =>
      n in c.jobs && n in s.nodes && (
        match s.nodes[n]
        case Waiting(k) =>
          k < |c.jobs[n].deps| ==> c.jobs[n].deps[k] in s.nodes && s.nodes[c.jobs[n].deps[k]].Done?
        case Acquiring => s.held < c.limit
        case Releasing(_) => s.held > 0
        case Done(_) => false
        case _ => true)
    case Interrupt(n) =>
      n in c.jobs && n in s.nodes && (
        match s.nodes[n]
        case Waiting(k) => s.cancelled && k < |c.jobs[n].deps|
        case Acquiring => s.cancelled
        case Solving(_) => s.cancelled || n in s.timedOut
        case Extracting(o) => s.cancelled && o.None? && c.jobs[n].hasOutputDef
        case _ => false)
    case Timeout(n) =>
      n in c.jobs && n in s.nodes && s.nodes[n].Solving? && c.jobs[n].hasTimeout && n !in s.timedOut && !s.cancelled
    case CancelRun => !s.cancelled
    case FailFastCancel(n) =>
      c.failFast && !s.cancelled && n in s.nodes && s.nodes[n].Done? && s.nodes[n].result.Failed?
  }

  function Move(s: State, n: Name, p: Phase): State {
    s.(nodes := s.nodes[n := p])
  }

  function AfterWait(c: Config, n: Name): Phase
    requires n in c.jobs
  {
    if c.jobs[n].conditional && c.whenCtx then Evaluating else Acquiring
  }

  function AfterExtract(c: Config, w: World, n: Name, solved: Option<Outputs>): Outcome
    requires n in c.jobs
  {
    if solved.None? && c.jobs[n].hasOutputDef then
      match w.extract(n) case Some(o) => Succeeded(Some(o)) case None => Failed(OutputFailed)
    else
      Succeeded(solved)
  }

  function AdvanceNode(c: Config, w: World, s: State, n: Name): State
    requires Enabled(c, s, Advance(n))
  {
    var j := c.jobs[n];
    match s.nodes[n]
    case Waiting(k) =>
      if k < |j.deps| then
        match s.nodes[j.deps[k]].result
        case Failed(_) => Move(s, n, Closing(Failed(DependencyFailed)))
        case Skipped => Move(s, n, Closing(Skipped))
        case Succeeded(_) => Move(s, n, Waiting(k + 1))
      else
        Move(s, n, AfterWait(c, n))
    case Evaluating => (
      match w.evaluate(n, DepOutputs(s.nodes, j.deps))
      case ConditionError => Move(s, n, Closing(Failed(ConditionFailed)))
      case Fails => Move(s, n, Closing(Skipped))
      case Holds => Move(s, n, Acquiring))
    case Acquiring => Move(s, n, Solving(0)).(held := s.held + 1)
    case Solving(attempt) => (
      match w.solve(n, attempt)
      case Solved(o) => Move(s, n, Extracting(if j.stepControlled then Some(o) else None))
      case SolveError =>
        var more := attempt + 1 < Retry.Tries(j.retries);
        if n in s.timedOut then Move(s, n, Releasing(Failed(TimedOut)))
        else if more && s.cancelled then Move(s, n, Releasing(Failed(Cancelled)))
        else if more then Move(s, n, Solving(attempt + 1))
        else Move(s, n, Releasing(Failed(SolveFailed))))
    case Extracting(o) => Move(s, n, Releasing(AfterExtract(c, w, n, o)))
    case Releasing(r) => Move(s, n, Closing(r)).(held := s.held - 1)
    case Closing(r) => Move(s, n, Done(r))
  }

  function InterruptNode(c: Config, s: State, n: Name): State
    requires Enabled(c, s, Interrupt(n))
  {
    match s.nodes[n]
    case Solving(_) => Move(s, n, Releasing(Failed(if n in s.timedOut then TimedOut else Cancelled)))
    case Extracting(_) => Move(s, n, Releasing(Failed(OutputFailed)))
    case _ => Move(s, n, Closing(Failed(Cancelled)))
  }

  function Next(c: Config, w: World, s: State, a: Action): State
    requires Enabled(c, s, a)
  {
    match a
    case Advance(n) => AdvanceNode(c, w, s, n)
    case Interrupt(n) => InterruptNode(c, s, n)
    case Timeout(n) => s.(timedOut := s.timedOut + {n})
    case CancelRun => s.(cancelled := true)
    case FailFastCancel(_) => s.(cancelled := true)
  }

  /** The actions can be performed from s, one after the other. */
  predicate Legal(c: Config, w: World, s: State, acts: seq<Action>)
    decreases |acts|
  {
    acts != [] ==> Enabled(c, s, acts[0]) && Legal(c, w, Next(c, w, s, acts[0]), acts[1..])
  }

  function After(c: Config, w: World, s: State, acts: seq<Action>): State
    requires Legal(c, w, s, acts)
    decreases |acts|
  {
    if acts == [] then s else After(c, w, Next(c, w, s, acts[0]), acts[1..])
  }

  predicate AllDone(c: Config, s: State) {
    forall n :: n in c.jobs ==> n in s.nodes && s.nodes[n].Done?
  }
}
