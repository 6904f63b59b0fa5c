/** Every published outcome has its reason. */
module Outcomes {
  // What a job may publish, in any run: undisturbed, cancelled, cut short by a deadline or by the
  // first failure. The reasons are told from the states of the jobs and from what the world answers.

  import opened Prelude
  import opened Runner
  import opened RunnerSafety

  // ---------------------------------------------------------------- the reasons

  predicate DoneBadly(s: State, n: Name) {
    n in s.nodes && s.nodes[n].Done? && s.nodes[n].result.Failed?
  }

  predicate DoneSkipped(s: State, n: Name) {
    n in s.nodes && s.nodes[n].Done? && s.nodes[n].result.Skipped?
  }

  ghost predicate DepsOk(c: Config, s: State, n: Name)
    requires n in c.jobs
  {
    forall d :: d in c.jobs[n].deps ==> DoneOk(s, d)
  }

  /** The first k dependencies succeeded. */
  ghost predicate FirstOk(c: Config, s: State, n: Name, k: nat)
    requires n in c.jobs && k <= |c.jobs[n].deps|
  {
    forall i :: 0 <= i < k ==> DoneOk(s, c.jobs[n].deps[i])
  }

  /** seen holds the outputs of exactly the dependencies that published some. */
  ghost predicate Sees(c: Config, s: State, n: Name, seen: map<Name, Outputs>)
    requires n in c.jobs
  {
    && (forall d :: d in seen ==> d in c.jobs[n].deps && Published(s, d, seen[d]))
    && (forall d, o :: d in c.jobs[n].deps && Published(s, d, o) ==> d in seen && seen[d] == o)
  }

  predicate Published(s: State, d: Name, o: Outputs) {
    d in s.nodes && s.nodes[d] == Done(Succeeded(Some(o)))
  }

  /** The job's deferred condition is asked, on the outputs of its dependencies, and answers so. */
  ghost predicate Answers(c: Config, w: World, s: State, n: Name, answer: Condition)
    requires n in c.jobs
  {
    c.jobs[n].conditional && c.whenCtx && exists seen :: Sees(c, s, n, seen) && w.evaluate(n, seen) == answer
  }

  /** All dependencies succeeded, and the condition, if there is one to ask, holds. */
  ghost predicate MayRun(c: Config, w: World, s: State, n: Name)
    requires n in c.jobs
  {
    DepsOk(c, s, n) && (c.jobs[n].conditional && c.whenCtx ==> Answers(c, w, s, n, Condition.Holds))
  }

  /** The attempts a job may make: one, and as many more as its retry setting says. */
  predicate IsAttempt(j: Job, a: nat) {
    a == 0 || (j.retries.Some? && a <= j.retries.value)
  }

  ghost predicate AllFailedBefore(w: World, n: Name, a: nat) {
    forall b: nat :: b < a ==> w.solve(n, b).SolveError?
  }

  /** Attempt a is the first to succeed. */
  ghost predicate SolvedAt(c: Config, w: World, n: Name, a: nat)
    requires n in c.jobs
  {
    IsAttempt(c.jobs[n], a) && AllFailedBefore(w, n, a) && w.solve(n, a).Solved?
  }

  /** The outputs of the solve itself for a step-controlled job; otherwise the extraction's if outputs
      are defined, and none if not. */
  ghost predicate Publishes(c: Config, w: World, n: Name, a: nat, o: Option<Outputs>)
    requires n in c.jobs
  {
    && (c.jobs[n].stepControlled ==> w.solve(n, a).Solved? && o == Some(w.solve(n, a).outputs))
    && (!c.jobs[n].stepControlled && c.jobs[n].hasOutputDef ==> o.Some? && w.extract(n) == o)
    && (!c.jobs[n].stepControlled && !c.jobs[n].hasOutputDef ==> o == None)
  }

  ghost predicate Ran(c: Config, w: World, n: Name, o: Option<Outputs>)
    requires n in c.jobs
  {
    exists a: nat :: SolvedAt(c, w, n, a) && Publishes(c, w, n, a, o)
  }

  ghost predicate FirstBad(c: Config, s: State, n: Name, k: nat)
    requires n in c.jobs
  {
    k < |c.jobs[n].deps| && FirstOk(c, s, n, k)
  }

  ghost predicate SkippedFor(c: Config, w: World, s: State, n: Name)
    requires n in c.jobs
  {
    || (exists k: nat :: FirstBad(c, s, n, k) && DoneSkipped(s, c.jobs[n].deps[k]))
    || (DepsOk(c, s, n) && Answers(c, w, s, n, Condition.Fails))
  }

  ghost predicate FailedFor(c: Config, w: World, s: State, n: Name, kind: ErrorKind)
    requires n in c.jobs
  {
    match kind
    case DependencyFailed => exists k: nat :: FirstBad(c, s, n, k) && DoneBadly(s, c.jobs[n].deps[k])
    case Cancelled => s.cancelled
    case ConditionFailed => DepsOk(c, s, n) && Answers(c, w, s, n, Condition.ConditionError)
    case SolveFailed => MayRun(c, w, s, n) && forall a: nat :: IsAttempt(c.jobs[n], a) ==> w.solve(n, a).SolveError?
    case TimedOut => MayRun(c, w, s, n) && c.jobs[n].hasTimeout && n in s.timedOut
    case OutputFailed =>
      && MayRun(c, w, s, n) && c.jobs[n].hasOutputDef && !c.jobs[n].stepControlled
      && (exists a: nat :: SolvedAt(c, w, n, a))
      && (w.extract(n).None? || s.cancelled)
  }

  /** The outcome has its reason in what the dependencies published, in what the condition and the
      solver answered, or in what cut the job short. */
  ghost predicate Justified(c: Config, w: World, s: State, n: Name, r: Outcome)
    requires n in c.jobs
  {
    match r
    case Skipped => SkippedFor(c, w, s, n)
    case Failed(kind) => FailedFor(c, w, s, n, kind)
    case Succeeded(o) => MayRun(c, w, s, n) && Ran(c, w, n, o)
  }

  /** Where a job may be on its way. */
  ghost predicate PhaseJustified(c: Config, w: World, s: State, n: Name, p: Phase)
    requires n in c.jobs
  {
    match p
    case Waiting(k) => k <= |c.jobs[n].deps| && FirstOk(c, s, n, k)
    case Evaluating => DepsOk(c, s, n) && c.jobs[n].conditional && c.whenCtx
    case Acquiring => MayRun(c, w, s, n)
    case Solving(a) => MayRun(c, w, s, n) && IsAttempt(c.jobs[n], a) && AllFailedBefore(w, n, a)
    case Extracting(o) => MayRun(c, w, s, n) && exists a: nat :: SolvedAt(c, w, n, a) && SolveGave(c, w, n, a, o)
    case Releasing(r) => Justified(c, w, s, n, r)
    case Closing(r) => Justified(c, w, s, n, r)
    case Done(r) => Justified(c, w, s, n, r)
  }

  ghost predicate SolveGave(c: Config, w: World, n: Name, a: nat, o: Option<Outputs>)
    requires n in c.jobs
  {
    w.solve(n, a).Solved? && o == if c.jobs[n].stepControlled then Some(w.solve(n, a).outputs) else None
  }

  ghost predicate AllJustified(c: Config, w: World, s: State) {
    && s.nodes.Keys == c.jobs.Keys
    && (forall n :: n in s.timedOut ==> n in c.jobs && c.jobs[n].hasTimeout)
    && forall n :: n in c.jobs ==> PhaseJustified(c, w, s, n, s.nodes[n])
  }

  // ---------------------------------------------------------------- reasons stay

  /** Nothing that is over changes. */
  ghost predicate Grows(s: State, t: State) {
    && (forall n :: n in s.nodes && s.nodes[n].Done? ==> n in t.nodes && t.nodes[n] == s.nodes[n])
    && (s.cancelled ==> t.cancelled)
    && s.timedOut <= t.timedOut
  }

  lemma NextGrows(c: Config, w: World, s: State, a: Action)
    requires Enabled(c, s, a)
    ensures Grows(s, Next(c, w, s, a))
  {
    forall n | n in s.nodes && s.nodes[n].Done? ensures n in Next(c, w, s, a).nodes && Next(c, w, s, a).nodes[n] == s.nodes[n] {
      DoneIsStable(c, w, s, a, n);
    }
  }

  lemma AnswersStay(c: Config, w: World, s: State, t: State, n: Name, answer: Condition)
    requires n in c.jobs && Grows(s, t) && DepsOk(c, s, n) && Answers(c, w, s, n, answer)
    ensures Answers(c, w, t, n, answer)
  {
    var seen :| Sees(c, s, n, seen) && w.evaluate(n, seen) == answer;
    forall d, o | d in c.jobs[n].deps ensures Published(t, d, o) <==> Published(s, d, o) {
      assert DoneOk(s, d);
    }
    assert Sees(c, t, n, seen);
  }

  lemma MayRunStays(c: Config, w: World, s: State, t: State, n: Name)
    requires n in c.jobs && Grows(s, t) && MayRun(c, w, s, n)
    ensures MayRun(c, w, t, n)
  {
    if c.jobs[n].conditional && c.whenCtx {
      AnswersStay(c, w, s, t, n, Condition.Holds);
    }
  }

  lemma FirstBadStays(c: Config, s: State, t: State, n: Name, k: nat)
    requires n in c.jobs && Grows(s, t) && FirstBad(c, s, n, k)
    ensures FirstBad(c, t, n, k)
  {
  }

  lemma ReasonStays(c: Config, w: World, s: State, t: State, n: Name, r: Outcome)
    requires n in c.jobs && Grows(s, t) && Justified(c, w, s, n, r)
    ensures Justified(c, w, t, n, r)
  {
    if MayRun(c, w, s, n) {
      MayRunStays(c, w, s, t, n);
    }
    if r == Skipped {
      if k: nat :| FirstBad(c, s, n, k) && DoneSkipped(s, c.jobs[n].deps[k]) {
        FirstBadStays(c, s, t, n, k);
      } else {
        AnswersStay(c, w, s, t, n, Condition.Fails);
      }
    } else if r == Failed(DependencyFailed) {
      var k: nat :| FirstBad(c, s, n, k) && DoneBadly(s, c.jobs[n].deps[k]);
      FirstBadStays(c, s, t, n, k);
    } else if r == Failed(ConditionFailed) {
      AnswersStay(c, w, s, t, n, Condition.ConditionError);
    }
  }

  lemma PhaseStays(c: Config, w: World, s: State, t: State, n: Name, p: Phase)
    requires n in c.jobs && Grows(s, t) && PhaseJustified(c, w, s, n, p)
    ensures PhaseJustified(c, w, t, n, p)
  {
    if p.Acquiring? || p.Solving? || p.Extracting? {
      MayRunStays(c, w, s, t, n);
    } else if p.Releasing? || p.Closing? || p.Done? {
      ReasonStays(c, w, s, t, n, p.result);
    }
  }

  // ---------------------------------------------------------------- every move is justified

  lemma WaitingIsJustified(c: Config, w: World, s: State, n: Name)
    requires AllJustified(c, w, s) && Enabled(c, s, Advance(n)) && s.nodes[n].Waiting?
    ensures PhaseJustified(c, w, s, n, Next(c, w, s, Advance(n)).nodes[n])
  {
    var k, deps := s.nodes[n].k, c.jobs[n].deps;
    assert PhaseJustified(c, w, s, n, s.nodes[n]);
    if k < |deps| {
      assert FirstBad(c, s, n, k);
    } else {
      forall d | d in deps ensures DoneOk(s, d) {
        var i :| 0 <= i < |deps| && deps[i] == d;
      }
    }
  }

  lemma EvaluatingIsJustified(c: Config, w: World, s: State, n: Name)
    requires AllJustified(c, w, s) && Enabled(c, s, Advance(n)) && s.nodes[n].Evaluating?
    ensures PhaseJustified(c, w, s, n, Next(c, w, s, Advance(n)).nodes[n])
  {
    assert PhaseJustified(c, w, s, n, s.nodes[n]);
    assert Sees(c, s, n, DepOutputs(s.nodes, c.jobs[n].deps));
  }

  lemma SolvingIsJustified(c: Config, w: World, s: State, n: Name)
    requires AllJustified(c, w, s) && Enabled(c, s, Advance(n)) && s.nodes[n].Solving?
    ensures PhaseJustified(c, w, s, n, Next(c, w, s, Advance(n)).nodes[n])
  {
    assert PhaseJustified(c, w, s, n, s.nodes[n]);
    var a := s.nodes[n].attempt;
    if w.solve(n, a).Solved? {
      assert SolvedAt(c, w, n, a);
      assert SolveGave(c, w, n, a, Next(c, w, s, Advance(n)).nodes[n].solved);
    }
  }

  lemma ExtractingIsJustified(c: Config, w: World, s: State, n: Name)
    requires AllJustified(c, w, s) && Enabled(c, s, Advance(n)) && s.nodes[n].Extracting?
    ensures PhaseJustified(c, w, s, n, Next(c, w, s, Advance(n)).nodes[n])
  {
    assert PhaseJustified(c, w, s, n, s.nodes[n]);
    var a: nat :| SolvedAt(c, w, n, a) && SolveGave(c, w, n, a, s.nodes[n].solved);
    var r := Next(c, w, s, Advance(n)).nodes[n].result;
    assert r.Succeeded? ==> Publishes(c, w, n, a, r.outputs);
  }

  lemma AdvanceIsJustified(c: Config, w: World, s: State, n: Name)
    requires AllJustified(c, w, s) && Enabled(c, s, Advance(n))
    ensures PhaseJustified(c, w, s, n, Next(c, w, s, Advance(n)).nodes[n])
  {
    assert PhaseJustified(c, w, s, n, s.nodes[n]);
    match s.nodes[n]
    case Waiting(_) => WaitingIsJustified(c, w, s, n);
    case Evaluating => EvaluatingIsJustified(c, w, s, n);
    case Solving(_) => SolvingIsJustified(c, w, s, n);
    case Extracting(_) => ExtractingIsJustified(c, w, s, n);
    case _ =>
  }

  lemma InterruptIsJustified(c: Config, w: World, s: State, n: Name)
    requires AllJustified(c, w, s) && Enabled(c, s, Interrupt(n))
    ensures PhaseJustified(c, w, s, n, Next(c, w, s, Interrupt(n)).nodes[n])
  {
    assert PhaseJustified(c, w, s, n, s.nodes[n]);
  }

  lemma NextIsJustified(c: Config, w: World, s: State, a: Action)
    requires AllJustified(c, w, s) && Enabled(c, s, a)
    ensures AllJustified(c, w, Next(c, w, s, a))
  {
    var t := Next(c, w, s, a);
    NextGrows(c, w, s, a);
    if a.Advance? || a.Interrupt? {
      NodeActionIsLocal(c, w, s, a);
    }
    if a.Advance? {
      AdvanceIsJustified(c, w, s, a.n);
    } else if a.Interrupt? {
      InterruptIsJustified(c, w, s, a.n);
    }
    forall n | n in c.jobs ensures PhaseJustified(c, w, t, n, t.nodes[n]) {
      assert PhaseJustified(c, w, s, n, s.nodes[n]);
      PhaseStays(c, w, s, t, n, t.nodes[n]);
    }
  }

  lemma {:induction false} RunsAreJustified(c: Config, w: World, s: State, acts: seq<Action>)
    requires AllJustified(c, w, s) && Legal(c, w, s, acts)
    ensures AllJustified(c, w, After(c, w, s, acts))
    decreases |acts|
  {
    if acts != [] {
      NextIsJustified(c, w, s, acts[0]);
      RunsAreJustified(c, w, Next(c, w, s, acts[0]), acts[1..]);
    }
  }

  /** In every state of every run, whatever cuts it short, each published outcome has its reason. */
  lemma OutcomesAreJustified(c: Config, w: World, acts: seq<Action>, n: Name)
    requires Legal(c, w, Init(c), acts) && n in c.jobs
    ensures var s := After(c, w, Init(c), acts);
      n in s.nodes && (s.nodes[n].Done? ==> Justified(c, w, s, n, s.nodes[n].result))
  {
    forall m | m in c.jobs ensures PhaseJustified(c, w, Init(c), m, Init(c).nodes[m]) {
    }
    RunsAreJustified(c, w, Init(c), acts);
    var s := After(c, w, Init(c), acts);
    assert PhaseJustified(c, w, s, n, s.nodes[n]);
  }

  // ---------------------------------------------------------------- interruption

  /** The job can only end as failed. */
  predicate WillFail(p: Phase) {
    match p
    case Releasing(r) => r.Failed?
    case Closing(r) => r.Failed?
    case Done(r) => r.Failed?
    case _ => false
  }

  lemma {:induction false} FailingStays(c: Config, w: World, s: State, acts: seq<Action>, n: Name)
    requires Legal(c, w, s, acts) && n in s.nodes && WillFail(s.nodes[n])
    ensures n in After(c, w, s, acts).nodes && WillFail(After(c, w, s, acts).nodes[n])
    decreases |acts|
  {
    if acts != [] {
      FailingStays(c, w, Next(c, w, s, acts[0]), acts[1..], n);
    }
  }

  /** A job that was interrupted at any moment fails. */
  lemma {:induction false} InterruptedWillFail(c: Config, w: World, s: State, acts: seq<Action>, n: Name)
    requires Legal(c, w, s, acts) && Interrupt(n) in acts
    ensures n in After(c, w, s, acts).nodes && WillFail(After(c, w, s, acts).nodes[n])
    decreases |acts|
  {
    if acts[0] == Interrupt(n) {
      FailingStays(c, w, Next(c, w, s, acts[0]), acts[1..], n);
    } else {
      InterruptedWillFail(c, w, Next(c, w, s, acts[0]), acts[1..], n);
    }
  }

  /** So a complete run in which a job was interrupted does not count as a success. */
  lemma InterruptedRunFails(c: Config, w: World, acts: seq<Action>, n: Name)
    requires Legal(c, w, Init(c), acts) && Interrupt(n) in acts && n in c.jobs
    requires AllDone(c, After(c, w, Init(c), acts))
    ensures DoneBadly(After(c, w, Init(c), acts), n)
  {
    InterruptedWillFail(c, w, Init(c), acts, n);
  }

  // ---------------------------------------------------------------- what can cut a run short

  /** The caller may cancel at any moment; a job's deadline may pass while it solves, and then ends it as a
      timeout; a cancelled job need not wait for outputs either. */
  lemma RunsCanBeCutShort(c: Config, w: World, s: State, n: Name)
    requires n in c.jobs && n in s.nodes && !s.cancelled
    ensures Enabled(c, s, CancelRun) && Next(c, w, s, CancelRun) == s.(cancelled := true)
    ensures s.nodes[n].Solving? && c.jobs[n].hasTimeout && n !in s.timedOut ==>
      && Enabled(c, s, Timeout(n)) && Enabled(c, Next(c, w, s, Timeout(n)), Interrupt(n))
      && Next(c, w, Next(c, w, s, Timeout(n)), Interrupt(n)).nodes[n] == Releasing(Failed(TimedOut))
    ensures s.nodes[n] == Extracting(None) && c.jobs[n].hasOutputDef ==>
      && Enabled(c, Next(c, w, s, CancelRun), Interrupt(n))
      && Next(c, w, Next(c, w, s, CancelRun), Interrupt(n)).nodes[n] == Releasing(Failed(OutputFailed))
  {
  }

  // ---------------------------------------------------------------- where cancellation comes from

  /** A run is cancelled by its caller, or in fail-fast mode by the first failure. */
  lemma {:induction false} CancelHasCause(c: Config, w: World, s: State, acts: seq<Action>)
    requires Legal(c, w, s, acts) && !s.cancelled && After(c, w, s, acts).cancelled
    ensures CancelRun in acts || (c.failFast && exists n :: DoneBadly(After(c, w, s, acts), n))
    decreases |acts|
  {
    var t := Next(c, w, s, acts[0]);
    if t.cancelled {
      if acts[0].FailFastCancel? {
        OutcomeIsFinal(c, w, t, acts[1..], acts[0].n);
        assert DoneBadly(After(c, w, s, acts), acts[0].n);
      }
    } else {
      CancelHasCause(c, w, t, acts[1..]);
    }
  }

  /** A run that keeps going and that nobody cancels never reports a cancelled job. */
  lemma KeepGoingNeverCancels(c: Config, w: World, acts: seq<Action>, n: Name)
    requires Legal(c, w, Init(c), acts) && n in c.jobs && !c.failFast && CancelRun !in acts
    ensures var s := After(c, w, Init(c), acts);
      !s.cancelled && s.nodes.Keys == c.jobs.Keys && s.nodes[n] != Done(Failed(Cancelled))
  {
    if After(c, w, Init(c), acts).cancelled {
      CancelHasCause(c, w, Init(c), acts);
    }
    forall m | m in c.jobs ensures PhaseJustified(c, w, Init(c), m, Init(c).nodes[m]) {
    }
    RunsAreJustified(c, w, Init(c), acts);
    assert PhaseJustified(c, w, After(c, w, Init(c), acts), n, After(c, w, Init(c), acts).nodes[n]);
  }
}
