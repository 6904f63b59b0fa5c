/** What a run makes of its input. */
module RunInput {
  // The job list, the parallelism and the modes a run is started with, in every state of every run.

  import opened Prelude
  import opened Graphs
  import opened Runner
  import opened RunnerSafety
  import opened Outcomes
  import opened Dag

  /** What buildDAG returns. */
  ghost predicate Accepted(jobs: seq<NamedJob>, nodes: map<Name, Job>) {
    && |jobs| > 0 && Distinct(JobNames(jobs)) && Indexes(nodes, jobs)
    && Closed(GraphOf(nodes)) && Acyclic(GraphOf(nodes))
  }

  /** A requested parallelism bounds the jobs that hold a slot, in every state of every run. */
  lemma ParallelismIsKept(jobs: seq<NamedJob>, nodes: map<Name, Job>, parallelism: int, failFast: bool, whenCtx: bool,
                          w: World, acts: seq<Action>)
    requires Accepted(jobs, nodes)
    requires var c := RunConfig(jobs, nodes, parallelism, failFast, whenCtx); Legal(c, w, Init(c), acts)
    ensures var c := RunConfig(jobs, nodes, parallelism, failFast, whenCtx);
      var s := After(c, w, Init(c), acts);
      parallelism > 0 ==> |set n | n in s.nodes && HoldsSlot(s.nodes[n])| <= parallelism
  {
    AcceptedJobsAreWellFormed(jobs, nodes, parallelism, failFast, whenCtx);
    WholeRunSafety(RunConfig(jobs, nodes, parallelism, failFast, whenCtx), w, acts);
  }

  /** Without a requested parallelism no job ever waits for a slot. */
  lemma NoRequestNoWait(jobs: seq<NamedJob>, nodes: map<Name, Job>, parallelism: int, failFast: bool, whenCtx: bool,
                        w: World, acts: seq<Action>, n: Name)
    requires Accepted(jobs, nodes) && parallelism <= 0 && n in nodes
    requires var c := RunConfig(jobs, nodes, parallelism, failFast, whenCtx); Legal(c, w, Init(c), acts)
    ensures var c := RunConfig(jobs, nodes, parallelism, failFast, whenCtx);
      var s := After(c, w, Init(c), acts);
      n in s.nodes && (s.nodes[n].Acquiring? ==> Enabled(c, s, Advance(n)))
  {
    AcceptedJobsAreWellFormed(jobs, nodes, parallelism, failFast, whenCtx);
    var c := RunConfig(jobs, nodes, parallelism, failFast, whenCtx);
    var s := After(c, w, Init(c), acts);
    InitIsSafe(c);
    RunsAreSafe(c, w, Init(c), acts);
    if s.nodes[n].Acquiring? {
      OneWithoutSlot(c, s, n);
    }
  }

  /** A job that waits for a slot leaves at most the others holding one. */
  lemma OneWithoutSlot(c: Config, s: State, n: Name)
    requires WellFormed(c) && Safe(c, s) && n in c.jobs && s.nodes[n].Acquiring?
    ensures s.held < |c.order|
  {
    SlotTotalIsCardinality(c.order, s.nodes);
    var holders := set m | m in c.order && m in s.nodes && HoldsSlot(s.nodes[m]);
    DistinctCount(c.order);
    assert holders <= Elements(c.order) - {n};
    CardinalityMonotone(holders, Elements(c.order) - {n});
  }

  /** A run that is not to fail fast, and that nobody cancels, never cancels a job. */
  lemma KeepGoingRunsAll(jobs: seq<NamedJob>, nodes: map<Name, Job>, parallelism: int, whenCtx: bool, w: World, acts: seq<Action>,
                         n: Name)
    requires Accepted(jobs, nodes) && n in nodes && CancelRun !in acts
    requires var c := RunConfig(jobs, nodes, parallelism, false, whenCtx); Legal(c, w, Init(c), acts)
    ensures var s := After(RunConfig(jobs, nodes, parallelism, false, whenCtx), w,
                           Init(RunConfig(jobs, nodes, parallelism, false, whenCtx)), acts);
      n in s.nodes && s.nodes[n] != Done(Failed(Cancelled))
  {
    KeepGoingNeverCancels(RunConfig(jobs, nodes, parallelism, false, whenCtx), w, acts, n);
  }

  /** Without a context for conditions a deferred condition is not asked, and the job is skipped only
      behind a skipped dependency. */
  lemma NoContextNoQuestion(jobs: seq<NamedJob>, nodes: map<Name, Job>, parallelism: int, failFast: bool, w: World,
                            acts: seq<Action>, n: Name)
    requires Accepted(jobs, nodes) && n in nodes
    requires var c := RunConfig(jobs, nodes, parallelism, failFast, false); Legal(c, w, Init(c), acts)
    ensures var c := RunConfig(jobs, nodes, parallelism, failFast, false);
      var s := After(c, w, Init(c), acts);
      && n in s.nodes && !s.nodes[n].Evaluating?
      && (DoneSkipped(s, n) ==> exists d :: d in nodes[n].deps && DoneSkipped(s, d))
  {
    var c := RunConfig(jobs, nodes, parallelism, failFast, false);
    var s := After(c, w, Init(c), acts);
    AcceptedJobsAreWellFormed(jobs, nodes, parallelism, failFast, false);
    OutcomesAreJustified(c, w, acts, n);
    InitIsSafe(c);
    RunsAreSafe(c, w, Init(c), acts);
    assert NodeSafe(c, s, n);
    if DoneSkipped(s, n) {
      var k: nat :| FirstBad(c, s, n, k) && DoneSkipped(s, c.jobs[n].deps[k]);
      assert c.jobs[n].deps[k] in nodes[n].deps;
    }
  }

  /** With fail-fast a failure lets the group cancel the rest. */
  lemma FailFastCanCancel(jobs: seq<NamedJob>, nodes: map<Name, Job>, parallelism: int, whenCtx: bool, s: State, n: Name)
    requires DoneBadly(s, n) && !s.cancelled
    ensures Enabled(RunConfig(jobs, nodes, parallelism, true, whenCtx), s, FailFastCancel(n))
  {
  }
}
