/** Building the graph that the runner works on, free of any cycles. */
module Dag {
  // buildDAG and detectCycles: indexing the runner's jobs and rejecting graphs that cannot run.

  import opened Prelude
  import opened Graphs
  import opened Runner

  datatype NamedJob = NamedJob(name: Name, job: Job)

  datatype DagError =
    | DuplicateJob(name: Name)
    | UnknownDep(job: Name, dep: Name)
    | CycleDetected(job: Name)

  datatype Mark = Visiting | Visited

  /** Between two moves of the depth-first search: the names being visited form a path, outermost
      first, and the visited names are ranked below everything that depends on them. A name
      without a mark is unvisited. */
  ghost predicate SearchInv(g: Graph<Name>, state: map<Name, Mark>, stack: seq<Name>, rank: map<Name, nat>) {
    && state.Keys <= g.Keys
    && (forall x :: x in stack <==> x in state && state[x] == Visiting)
    && (forall x :: x in rank <==> x in state && state[x] == Visited)
    && (stack != [] ==> IsPath(g, stack))
    && (forall a, b :: a in rank && b in g[a] ==> b in rank && rank[b] < rank[a])
  }

  ghost predicate MayVisit(g: Graph<Name>, stack: seq<Name>, name: Name) {
    name in g && (stack != [] ==> Edge(g, stack[|stack| - 1], name))
  }

  ghost predicate AllRanked(rank: map<Name, nat>, names: seq<Name>) {
    forall d :: d in names ==> d in rank
  }

  lemma Enter(g: Graph<Name>, state: map<Name, Mark>, stack: seq<Name>, rank: map<Name, nat>, name: Name)
    requires SearchInv(g, state, stack, rank) && MayVisit(g, stack, name) && name !in state
    ensures SearchInv(g, state[name := Visiting], stack + [name], rank)
  {
    if stack != [] {
      PathAppend(g, stack, name);
    }
  }

  lemma Leave(g: Graph<Name>, state: map<Name, Mark>, outer: seq<Name>, rank: map<Name, nat>, name: Name, top: nat)
    requires SearchInv(g, state, outer + [name], rank) && name in g && name !in outer
    requires outer != [] ==> IsPath(g, outer)
    requires AllRanked(rank, g[name])
    requires forall x :: x in rank ==> rank[x] < top
    ensures SearchInv(g, state[name := Visited], outer, rank[name := top])
  {
    assert name in outer + [name];
    assert forall x :: x in outer + [name] <==> x in outer || x == name;
  }

  /** The three-state depth-first search. */
  class CycleDetector {
    const g: Graph<Name>
    var state: map<Name, Mark>
    ghost var stack: seq<Name>
    ghost var rank: map<Name, nat>

    constructor (g: Graph<Name>)
      ensures Valid() && this.g == g && stack == []
    {
      this.g := g;
      state := map[];
      stack := [];
      rank := map[];
    }

    ghost predicate Valid()
      reads this
    {
      SearchInv(g, state, stack, rank)
    }

    /** Succeeds when everything name depends on can be ranked; otherwise reports a job that lies on
        a cycle. */
    method Visit(name: Name) returns (err: Option<Name>)
      requires Closed(g) && Valid() && MayVisit(g, stack, name)
      modifies this
      ensures err.None? ==> Valid() && stack == old(stack) && name in rank
      ensures err.None? ==> old(state.Keys) <= state.Keys && old(rank.Keys) <= rank.Keys
      ensures err.Some? ==> OnCycle(g, err.value)
      decreases g.Keys - state.Keys, 0
    {
      if name in state {
        if state[name] == Visited {
          return None;
        }
        RevisitIsCycle(g, stack, name);
        return Some(name);
      }
      Enter(g, state, stack, rank, name);
      ghost var outer := stack;
      state := state[name := Visiting];
      stack := stack + [name];
      err := VisitDeps(name, g[name]);
      if err.Some? {
        return err;
      }
      ghost var top := RankBound(rank);
      Leave(g, state, outer, rank, name, top);
      state := state[name := Visited];
      stack := outer;
      rank := rank[name := top];
      err := None;
    }

    /** Visits the dependencies of the name on top of the stack. */
    method VisitDeps(name: Name, deps: seq<Name>) returns (err: Option<Name>)
      requires Closed(g) && Valid() && name in g && g[name] == deps
      requires stack != [] && stack[|stack| - 1] == name
      modifies this
      ensures err.None? ==> Valid() && stack == old(stack) && AllRanked(rank, deps)
      ensures err.None? ==> old(state.Keys) <= state.Keys && old(rank.Keys) <= rank.Keys
      ensures err.Some? ==> OnCycle(g, err.value)
      decreases g.Keys - state.Keys, 1
    {
      for i := 0 to |deps|
        invariant Valid() && stack == old(stack)
        invariant old(state.Keys) <= state.Keys && old(rank.Keys) <= rank.Keys
        invariant AllRanked(rank, deps[..i])
      {
        assert deps[i] in g[name];
        err := Visit(deps[i]);
        if err.Some? {
          return err;
        }
        assert deps[..i + 1] == deps[..i] + [deps[i]];
      }
      assert deps[..|deps|] == deps;
      err := None;
    }

    /** Visits every name, in whatever order the map yields them. */
    method Detect() returns (err: Option<Name>)
      requires Closed(g) && Valid() && stack == []
      modifies this
      ensures err.None? <==> Acyclic(g)
      ensures err.Some? ==> OnCycle(g, err.value)
    {
      var todo := g.Keys;
      while todo != {}
        invariant Valid() && stack == [] && todo <= g.Keys
        invariant g.Keys - todo <= rank.Keys
      {
        var name :| name in todo;
        err := Visit(name);
        if err.Some? {
          return err;
        }
        todo := todo - {name};
      }
      assert Ranked(g, rank);
      RankedIsAcyclic(g, rank);
      err := None;
    }
  }

  ghost predicate NamedTwice(jobs: seq<NamedJob>, n: Name) {
    exists i, j :: 0 <= i < j < |jobs| && jobs[i].name == jobs[j].name == n
  }

  function JobNames(jobs: seq<NamedJob>): (r: seq<Name>)
    ensures |r| == |jobs| && forall i :: 0 <= i < |r| ==> r[i] == jobs[i].name
  {
    seq(|jobs|, i requires 0 <= i < |jobs| => jobs[i].name)
  }

  ghost predicate Indexes(nodes: map<Name, Job>, jobs: seq<NamedJob>) {
    && (forall i :: 0 <= i < |jobs| ==> jobs[i].name in nodes && nodes[jobs[i].name] == jobs[i].job)
    && (forall n :: n in nodes <==> n in JobNames(jobs))
  }

  ghost predicate AllDepsNamed(jobs: seq<NamedJob>) {
    forall i, d :: 0 <= i < |jobs| && d in jobs[i].job.deps ==> d in JobNames(jobs)
  }

  function GraphOf(nodes: map<Name, Job>): Graph<Name> {
    map n | n in nodes :: nodes[n].deps
  }

  method IndexJobs(jobs: seq<NamedJob>) returns (r: Result<map<Name, Job>, DagError>)
    ensures r.Ok? ==> Distinct(JobNames(jobs)) && Indexes(r.value, jobs)
    ensures r.Err? ==> r.error.DuplicateJob? && NamedTwice(jobs, r.error.name)
  {
    var nodes: map<Name, Job> := map[];
    for i := 0 to |jobs|
      invariant Distinct(JobNames(jobs[..i])) && Indexes(nodes, jobs[..i])
    {
      if jobs[i].name in nodes {
        ghost var k :| 0 <= k < i && JobNames(jobs[..i])[k] == jobs[i].name;
        return Err(DuplicateJob(jobs[i].name));
      }
      ghost var before := nodes;
      nodes := nodes[jobs[i].name := jobs[i].job];
      IndexGrows(before, jobs[..i], jobs[i]);
      assert jobs[..i + 1] == jobs[..i] + [jobs[i]];
    }
    assert jobs[..|jobs|] == jobs;
    return Ok(nodes);
  }

  lemma IndexGrows(nodes: map<Name, Job>, jobs: seq<NamedJob>, j: NamedJob)
    requires Distinct(JobNames(jobs)) && Indexes(nodes, jobs) && j.name !in nodes
    ensures Distinct(JobNames(jobs + [j])) && Indexes(nodes[j.name := j.job], jobs + [j])
  {
    var nodes', jobs' := nodes[j.name := j.job], jobs + [j];
    assert JobNames(jobs') == JobNames(jobs) + [j.name];
  }

  method CheckDeps(jobs: seq<NamedJob>, nodes: map<Name, Job>) returns (err: Option<DagError>)
    requires Indexes(nodes, jobs)
    ensures err.None? ==> AllDepsNamed(jobs)
    ensures err.Some? ==> err.value.UnknownDep? && UnknownDepIn(jobs, err.value.job, err.value.dep)
  {
    for i := 0 to |jobs|
      invariant forall k, d :: 0 <= k < i && d in jobs[k].job.deps ==> d in nodes
    {
      var deps := jobs[i].job.deps;
      for j := 0 to |deps|
        invariant forall k :: 0 <= k < j ==> deps[k] in nodes
      {
        if deps[j] !in nodes {
          return Some(UnknownDep(jobs[i].name, deps[j]));
        }
      }
    }
    return None;
  }

  ghost predicate UnknownDepIn(jobs: seq<NamedJob>, job: Name, dep: Name) {
    && (exists i :: 0 <= i < |jobs| && jobs[i].name == job && dep in jobs[i].job.deps)
    && dep !in JobNames(jobs)
  }

  lemma KnownDepsClose(jobs: seq<NamedJob>, nodes: map<Name, Job>)
    requires Indexes(nodes, jobs) && AllDepsNamed(jobs)
    ensures Closed(GraphOf(nodes))
  {
    var g := GraphOf(nodes);
    forall a, b | a in g && b in g[a] ensures b in g {
      var i :| 0 <= i < |jobs| && JobNames(jobs)[i] == a;
      assert b in jobs[i].job.deps;
    }
  }

  /** Accepts exactly the job slices with distinct names, known dependencies and no cycle, whatever
      order the node map is iterated in; an error names a real culprit. */
  method BuildDag(jobs: seq<NamedJob>) returns (r: Result<map<Name, Job>, DagError>)
    ensures r.Ok? ==> Distinct(JobNames(jobs)) && AllDepsNamed(jobs) && Indexes(r.value, jobs)
    ensures r.Ok? ==> Closed(GraphOf(r.value)) && Acyclic(GraphOf(r.value))
    ensures r.Err? ==>
      match r.error
      case DuplicateJob(n) => NamedTwice(jobs, n)
      case UnknownDep(n, d) => UnknownDepIn(jobs, n, d)
      case CycleDetected(n) => exists nodes :: Indexes(nodes, jobs) && OnCycle(GraphOf(nodes), n)
  {
    r := IndexJobs(jobs);
    if r.Err? {
      return;
    }
    var nodes := r.value;
    var unknown := CheckDeps(jobs, nodes);
    if unknown.Some? {
      return Err(unknown.value);
    }
    KnownDepsClose(jobs, nodes);
    var detector := new CycleDetector(GraphOf(nodes));
    var err := detector.Detect();
    if err.Some? {
      return Err(CycleDetected(err.value));
    }
  }

  /** The configuration Run works with once buildDAG has accepted the jobs: the limit is the
      requested parallelism, or one slot per job when none is requested. */
  function RunConfig(jobs: seq<NamedJob>, nodes: map<Name, Job>, parallelism: int, failFast: bool, whenCtx: bool): Config {
    Config(nodes, seq(|jobs|, i requires 0 <= i < |jobs| => jobs[i].name),
      if parallelism > 0 then parallelism else |jobs|, failFast, whenCtx)
  }

  /** What buildDAG accepts is what the scheduler needs. */
  lemma AcceptedJobsAreWellFormed(jobs: seq<NamedJob>, nodes: map<Name, Job>, parallelism: int, failFast: bool, whenCtx: bool)
    requires |jobs| > 0 && Distinct(JobNames(jobs)) && Indexes(nodes, jobs)
    requires Closed(GraphOf(nodes)) && Acyclic(GraphOf(nodes))
    ensures WellFormed(RunConfig(jobs, nodes, parallelism, failFast, whenCtx))
  {
    var c := RunConfig(jobs, nodes, parallelism, failFast, whenCtx);
    assert DepGraph(c) == GraphOf(nodes);
    forall n | n in nodes ensures n in c.order {
      var i :| 0 <= i < |jobs| && JobNames(jobs)[i] == n;
      assert c.order[i] == n;
    }
  }
}
