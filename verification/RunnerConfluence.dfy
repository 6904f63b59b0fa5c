/** Outcomes do not depend on interleaving. */
module RunnerConfluence {
  // The outcome of every job is a function of the graph and of what the solver and the conditions
  // answer: no interleaving can change it, as long as nothing is cancelled and no deadline fires.

  import opened Prelude
  import opened Graphs
  import opened Runner
  import opened RunnerSafety

  /** The outcome of a job once its solver attempts from `attempt` on are made. */
  function SolveFrom(c: Config, w: World, n: Name, attempt: nat): Outcome
    requires n in c.jobs
    decreases Retry.Tries(c.jobs[n].retries) - attempt
  {
    match w.solve(n, attempt)
    case Solved(o) => AfterExtract(c, w, n, if c.jobs[n].stepControlled then Some(o) else None)
    case SolveError =>
      if attempt + 1 < Retry.Tries(c.jobs[n].retries) then SolveFrom(c, w, n, attempt + 1) else Failed(SolveFailed)
  }

  /** A job's solves as a retry script that nothing cancels. */
  ghost function SolveScript(w: World, n: Name): Retry.Script {
    Retry.Script((a: nat) => if w.solve(n, a).Solved? then Retry.Succeeds else Retry.Fails, (a: nat) => false)
  }

  predicate EndsWith(c: Config, w: World, n: Name, attempt: nat, a: nat)
    requires n in c.jobs
  {
    w.solve(n, a).Solved? &&
    var outputs := if c.jobs[n].stepControlled then Some(w.solve(n, a).outputs) else None;
    SolveFrom(c, w, n, attempt) == AfterExtract(c, w, n, outputs)
  }

  /** The solving phase of a job ends as the retry loop does: with the outputs of the first attempt
      that succeeds, and as a failed solve if none does. */
  lemma {:induction false} SolveIsRetry(c: Config, w: World, n: Name, attempt: nat)
    requires n in c.jobs && attempt < Retry.Tries(c.jobs[n].retries)
    ensures match Retry.Decisive(SolveScript(w, n), Retry.Tries(c.jobs[n].retries), attempt)
      case None => SolveFrom(c, w, n, attempt) == Failed(SolveFailed)
      case Some(a) => EndsWith(c, w, n, attempt, a)
    decreases Retry.Tries(c.jobs[n].retries) - attempt
  {
    if w.solve(n, attempt).SolveError? && attempt + 1 < Retry.Tries(c.jobs[n].retries) {
      SolveIsRetry(c, w, n, attempt + 1);
    }
  }

  /** The reference semantics: the first dependency in list order that is not a success decides;
      then the deferred condition; then the solve. */
  ghost function Expected(c: Config, w: World, n: Name): Outcome
    requires WellFormed(c) && n in c.jobs
    decreases RankOf(DepGraph(c))[n], |c.jobs[n].deps| + 1
  {
    match FirstBadDep(c, w, n, 0)
    case Some(o) => o
    case None =>
      if c.jobs[n].conditional && c.whenCtx then
        match w.evaluate(n, ExpectedOutputs(c, w, n))
        case ConditionError => Failed(ConditionFailed)
        case Fails => Skipped
        case Holds => SolveFrom(c, w, n, 0)
      else
        SolveFrom(c, w, n, 0)
  }

  /** What the first unsuccessful dependency at position k or later makes of job n, if any. */
  ghost function FirstBadDep(c: Config, w: World, n: Name, k: nat): Option<Outcome>
    requires WellFormed(c) && n in c.jobs && k <= |c.jobs[n].deps|
    decreases RankOf(DepGraph(c))[n], |c.jobs[n].deps| - k
  {
    if k == |c.jobs[n].deps| then None else
    var d := c.jobs[n].deps[k];
    DepKnown(c, n, d);
    match Expected(c, w, d)
    case Failed(_) => Some(Failed(DependencyFailed))
    case Skipped => Some(Skipped)
    case Succeeded(_) => FirstBadDep(c, w, n, k + 1)
  }

  ghost function ExpectedOutputs(c: Config, w: World, n: Name): map<Name, Outputs>
    requires WellFormed(c) && n in c.jobs
    decreases RankOf(DepGraph(c))[n], |c.jobs[n].deps|
  {
    assert forall d | d in c.jobs[n].deps :: d in c.jobs && Edge(DepGraph(c), n, d) by {
      forall d | d in c.jobs[n].deps { DepKnown(c, n, d); }
    }
    map d | d in c.jobs[n].deps && OutcomeOutputs(Expected(c, w, d)).Some? :: OutcomeOutputs(Expected(c, w, d)).value
  }

  function OutcomeOutputs(o: Outcome): Option<Outputs> {
    if o.Succeeded? then o.outputs else None
  }

  ghost predicate Agrees(c: Config, w: World, n: Name, p: Phase)
    requires WellFormed(c) && n in c.jobs
  {
    match p
    case Waiting(k) => k <= |c.jobs[n].deps| && FirstBadDep(c, w, n, 0) == FirstBadDep(c, w, n, k)
    case Evaluating => FirstBadDep(c, w, n, 0) == None && c.jobs[n].conditional && c.whenCtx
    case Acquiring => Expected(c, w, n) == SolveFrom(c, w, n, 0)
    case Solving(a) => Expected(c, w, n) == SolveFrom(c, w, n, a)
    case Extracting(o) => Expected(c, w, n) == AfterExtract(c, w, n, o)
    case Releasing(r) => r == Expected(c, w, n)
    case Closing(r) => r == Expected(c, w, n)
    case Done(r) => r == Expected(c, w, n)
  }

  /** Every node is where the reference semantics allows it to be. */
  ghost predicate OnCourse(c: Config, w: World, s: State)
    requires WellFormed(c)
  {
    && s.nodes.Keys == c.jobs.Keys
    && forall n :: n in c.jobs ==> Agrees(c, w, n, s.nodes[n])
  }

  predicate Undisturbed(s: State) {
    !s.cancelled && s.timedOut == {}
  }

  lemma OutputsSeenAreExpected(c: Config, w: World, s: State, n: Name)
    requires WellFormed(c) && OnCourse(c, w, s) && n in c.jobs
    requires forall d :: d in c.jobs[n].deps ==> DoneOk(s, d)
    ensures DepOutputs(s.nodes, c.jobs[n].deps) == ExpectedOutputs(c, w, n)
  {
    forall d | d in c.jobs[n].deps
      ensures d in c.jobs && OutputsIn(s.nodes[d]) == OutcomeOutputs(Expected(c, w, d))
    {
      DepKnown(c, n, d);
      assert Agrees(c, w, d, s.nodes[d]);
    }
  }

  lemma WaitingStaysOnCourse(c: Config, w: World, s: State, n: Name)
    requires WellFormed(c) && Safe(c, s) && OnCourse(c, w, s)
    requires Enabled(c, s, Advance(n)) && s.nodes[n].Waiting?
    ensures Agrees(c, w, n, Next(c, w, s, Advance(n)).nodes[n])
  {
    assert NodeSafe(c, s, n) && Agrees(c, w, n, s.nodes[n]);
    var k := s.nodes[n].k;
    if k < |c.jobs[n].deps| {
      var d := c.jobs[n].deps[k];
      DepKnown(c, n, d);
      assert Agrees(c, w, d, s.nodes[d]);
    }
  }

  lemma AdvanceStaysOnCourse(c: Config, w: World, s: State, n: Name)
    requires WellFormed(c) && Safe(c, s) && OnCourse(c, w, s) && Undisturbed(s) && Enabled(c, s, Advance(n))
    ensures Agrees(c, w, n, Next(c, w, s, Advance(n)).nodes[n])
  {
    assert NodeSafe(c, s, n) && Agrees(c, w, n, s.nodes[n]);
    if s.nodes[n].Waiting? {
      WaitingStaysOnCourse(c, w, s, n);
    } else if s.nodes[n].Evaluating? {
      OutputsSeenAreExpected(c, w, s, n);
    }
  }

  lemma {:induction false} NextStaysOnCourse(c: Config, w: World, s: State, a: Action)
    requires WellFormed(c) && Safe(c, s) && OnCourse(c, w, s) && Undisturbed(s) && Enabled(c, s, a)
    ensures OnCourse(c, w, Next(c, w, s, a))
  {
    var s' := Next(c, w, s, a);
    if a.Advance? {
      NodeActionIsLocal(c, w, s, a);
      AdvanceStaysOnCourse(c, w, s, a.n);
      forall n | n in c.jobs ensures Agrees(c, w, n, s'.nodes[n]) {
        assert Agrees(c, w, n, s.nodes[n]);
      }
    }
  }

  /** A disturbance is permanent, so a state that shows none was reached without any. */
  lemma {:induction false} RunsStayOnCourse(c: Config, w: World, s: State, acts: seq<Action>)
    requires WellFormed(c) && Safe(c, s) && OnCourse(c, w, s)
    requires Legal(c, w, s, acts) && Undisturbed(After(c, w, s, acts))
    ensures Undisturbed(s) && OnCourse(c, w, After(c, w, s, acts))
    decreases |acts|
  {
    if acts != [] {
      var s' := Next(c, w, s, acts[0]);
      NextKeepsSafe(c, w, s, acts[0]);
      if Undisturbed(s) {
        NextStaysOnCourse(c, w, s, acts[0]);
        RunsStayOnCourse(c, w, s', acts[1..]);
      } else {
        DisturbanceStays(c, w, s, acts);
      }
    }
  }

  lemma {:induction false} DisturbanceStays(c: Config, w: World, s: State, acts: seq<Action>)
    requires Legal(c, w, s, acts) && !Undisturbed(s)
    ensures !Undisturbed(After(c, w, s, acts))
    decreases |acts|
  {
    if acts != [] {
      DisturbanceStays(c, w, Next(c, w, s, acts[0]), acts[1..]);
    }
  }

  lemma InitIsOnCourse(c: Config, w: World)
    requires WellFormed(c)
    ensures OnCourse(c, w, Init(c))
  {
  }

  /** Confluence. In any state of any run in which nothing was cancelled and no deadline fired, each
      finished job has exactly its reference outcome: success with the same outputs, the same kind
      of failure, or a skip. This includes fail-fast runs up to the first failure. */
  lemma Confluence(c: Config, w: World, acts: seq<Action>)
    requires WellFormed(c) && Legal(c, w, Init(c), acts)
    ensures var s := After(c, w, Init(c), acts);
      Undisturbed(s) ==>
        && s.nodes.Keys == c.jobs.Keys
        && (forall n :: n in c.jobs && s.nodes[n].Done? ==> s.nodes[n].result == Expected(c, w, n))
        && (AllDone(c, s) ==> s.nodes == map n | n in c.jobs :: Done(Expected(c, w, n)))
  {
    var s := After(c, w, Init(c), acts);
    if Undisturbed(s) {
      InitIsSafe(c);
      InitIsOnCourse(c, w);
      RunsStayOnCourse(c, w, Init(c), acts);
      forall n | n in c.jobs && s.nodes[n].Done? ensures s.nodes[n].result == Expected(c, w, n) {
        assert Agrees(c, w, n, s.nodes[n]);
      }
    }
  }

  predicate NoOutsideDisturbance(acts: seq<Action>) {
    forall a :: a in acts ==> !a.CancelRun? && !a.Timeout?
  }

  predicate HasFailure(c: Config, s: State) {
    exists n :: n in c.jobs && n in s.nodes && s.nodes[n].Done? && s.nodes[n].result.Failed?
  }

  ghost predicate FailureExpected(c: Config, w: World)
    requires WellFormed(c)
  {
    exists n :: n in c.jobs && Expected(c, w, n).Failed?
  }

  /** Until the error group cancels, the run is on course; it cancels only for an expected failure. */
  ghost predicate FailFastInv(c: Config, w: World, s: State)
    requires WellFormed(c)
  {
    && Safe(c, s)
    && s.timedOut == {}
    && (!s.cancelled ==> OnCourse(c, w, s))
    && (s.cancelled ==> FailureExpected(c, w) && HasFailure(c, s))
  }

  lemma NextFlags(c: Config, w: World, s: State, a: Action)
    requires Enabled(c, s, a) && !a.CancelRun? && !a.Timeout?
    ensures Next(c, w, s, a).timedOut == s.timedOut
    ensures s.cancelled ==> Next(c, w, s, a).cancelled
    ensures Next(c, w, s, a).cancelled ==> s.cancelled || a.FailFastCancel?
    ensures a.FailFastCancel? ==> Next(c, w, s, a).nodes == s.nodes
  {
  }

  lemma FailureStays(c: Config, w: World, s: State, a: Action)
    requires Enabled(c, s, a) && HasFailure(c, s)
    ensures HasFailure(c, Next(c, w, s, a))
  {
    var n :| n in c.jobs && n in s.nodes && s.nodes[n].Done? && s.nodes[n].result.Failed?;
    DoneIsStable(c, w, s, a, n);
  }

  lemma FailureIsExpected(c: Config, w: World, s: State, n: Name)
    requires WellFormed(c) && OnCourse(c, w, s) && Enabled(c, s, FailFastCancel(n))
    ensures FailureExpected(c, w) && HasFailure(c, s)
  {
    assert Agrees(c, w, n, s.nodes[n]);
  }

  lemma {:induction false} NextKeepsFailFastInv(c: Config, w: World, s: State, a: Action)
    requires WellFormed(c) && FailFastInv(c, w, s) && Enabled(c, s, a) && !a.CancelRun? && !a.Timeout?
    ensures FailFastInv(c, w, Next(c, w, s, a))
  {
    NextKeepsSafe(c, w, s, a);
    NextFlags(c, w, s, a);
    if s.cancelled {
      FailureStays(c, w, s, a);
    } else {
      NextStaysOnCourse(c, w, s, a);
      if a.FailFastCancel? {
        FailureIsExpected(c, w, s, a.n);
        FailureStays(c, w, s, a);
      }
    }
  }

  lemma {:induction false} RunsKeepFailFastInv(c: Config, w: World, s: State, acts: seq<Action>)
    requires WellFormed(c) && FailFastInv(c, w, s) && Legal(c, w, s, acts) && NoOutsideDisturbance(acts)
    ensures FailFastInv(c, w, After(c, w, s, acts))
    decreases |acts|
  {
    if acts != [] {
      NextKeepsFailFastInv(c, w, s, acts[0]);
      RunsKeepFailFastInv(c, w, Next(c, w, s, acts[0]), acts[1..]);
    }
  }

  /** Fail-fast and keep-going runs give the same verdict. With fail-fast on, which jobs get
      cancelled depends on timing, but whether the finished run contains a failed job does not: it
      does exactly when the reference semantics contains one. */
  lemma FailFastVerdict(c: Config, w: World, acts: seq<Action>)
    requires WellFormed(c) && Legal(c, w, Init(c), acts) && NoOutsideDisturbance(acts)
    requires AllDone(c, After(c, w, Init(c), acts))
    ensures HasFailure(c, After(c, w, Init(c), acts)) <==> FailureExpected(c, w)
  {
    InitIsSafe(c);
    InitIsOnCourse(c, w);
    RunsKeepFailFastInv(c, w, Init(c), acts);
    var s := After(c, w, Init(c), acts);
    if !s.cancelled {
      forall n | n in c.jobs ensures s.nodes[n].result == Expected(c, w, n) {
        assert Agrees(c, w, n, s.nodes[n]);
      }
    }
  }
}
