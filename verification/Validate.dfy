/** Validation of the job graph, and a topological order of its jobs. */
module Validate {
  import opened Prelude
  import opened Graphs
  import opened PipelineModel

  datatype ValidationError =
    | EmptyPipeline
    | DuplicateJob(job: Name)
    | EmptyJob(job: Name)
    | ArtifactNoDep(job: Name)
    | SelfDependency(job: Name)
    | UnknownDep(job: Name, dep: Name)
    | CycleDetected(job: Name)

  datatype Mark = Unvisited | Visiting | Visited

  ghost predicate IsIndex(jobs: seq<Job>, index: map<Name, nat>) {
    && (forall i :: 0 <= i < |jobs| ==> jobs[i].name in index && index[jobs[i].name] == i)
    && (forall n :: n in index ==> index[n] < |jobs| && jobs[index[n]].name == n)
  }

  lemma IndexedGraph(jobs: seq<Job>, index: map<Name, nat>, i: nat)
    requires IsIndex(jobs, index) && i < |jobs|
    ensures UniqueNames(jobs)
    ensures jobs[i].name in DepGraph(jobs) && DepGraph(jobs)[jobs[i].name] == jobs[i].deps
    ensures forall n :: HasJob(jobs, n) <==> n in index
  {
    assert UniqueNames(jobs);
    DepGraphAt(jobs, i);
  }

  /** Between two moves of the sort: the jobs being visited form a path, the visited ones are
      exactly those in the order, and every dependency in the order precedes its dependents. */
  ghost predicate SortInv(jobs: seq<Job>, marks: seq<Mark>, stack: seq<Name>, order: seq<nat>) {
    && |marks| == |jobs|
    && (forall i :: 0 <= i < |jobs| ==> (marks[i] == Visiting <==> jobs[i].name in stack))
    && (forall i :: 0 <= i < |jobs| ==> (marks[i] == Visited <==> i in order))
    && (stack != [] ==> IsPath(DepGraph(jobs), stack))
    && Distinct(order)
    && (forall k :: 0 <= k < |order| ==> order[k] < |jobs|)
    && (forall k :: 0 <= k < |order| ==> DepsBefore(jobs, order, k))
  }

  ghost predicate MayVisit(jobs: seq<Job>, stack: seq<Name>, i: nat) {
    i < |jobs| && (stack != [] ==> Edge(DepGraph(jobs), stack[|stack| - 1], jobs[i].name))
  }

  ghost predicate Listed(jobs: seq<Job>, order: seq<nat>, d: Name) {
    exists m :: 0 <= m < |order| && order[m] < |jobs| && jobs[order[m]].name == d
  }

  /** A prefix of a topological order: what it lists is distinct and preceded by its dependencies. */
  ghost predicate PartialOrder(jobs: seq<Job>, order: seq<nat>) {
    && Distinct(order)
    && (forall k :: 0 <= k < |order| ==> order[k] < |jobs|)
    && (forall k :: 0 <= k < |order| ==> DepsBefore(jobs, order, k))
  }

  lemma ExtendPartialOrder(jobs: seq<Job>, order: seq<nat>, x: nat)
    requires PartialOrder(jobs, order) && x < |jobs| && x !in order
    requires forall d :: d in jobs[x].deps ==> Listed(jobs, order, d)
    ensures PartialOrder(jobs, order + [x])
  {
    var next := order + [x];
    forall k | 0 <= k < |next| ensures DepsBefore(jobs, next, k) {
      if k < |order| {
        assert DepsBefore(jobs, order, k);
      }
      forall d | d in jobs[next[k]].deps ensures exists m :: 0 <= m < k && jobs[next[m]].name == d {
        assert k == |order| ==> Listed(jobs, order, d);
        var m :| 0 <= m < k && jobs[order[m]].name == d;
        assert next[m] == order[m];
      }
    }
  }

  lemma ListedAt(jobs: seq<Job>, order: seq<nat>, i: nat)
    requires i in order && i < |jobs|
    ensures Listed(jobs, order, jobs[i].name)
  {
  }

  ghost predicate AllListed(jobs: seq<Job>, order: seq<nat>, names: seq<Name>) {
    forall d :: d in names ==> Listed(jobs, order, d)
  }

  /** What is listed stays listed when the order grows, and so does a job that is in the order. */
  lemma OneMoreListed(jobs: seq<Job>, before: seq<nat>, after: seq<nat>, names: seq<Name>, i: nat)
    requires before <= after && AllListed(jobs, before, names) && i in after && i < |jobs|
    ensures AllListed(jobs, after, names + [jobs[i].name])
  {
    forall d | d in names + [jobs[i].name] ensures Listed(jobs, after, d) {
      if d in names {
        var k :| 0 <= k < |before| && before[k] < |jobs| && jobs[before[k]].name == d;
        assert after[k] == before[k];
      }
    }
  }

  lemma Enter(jobs: seq<Job>, marks: seq<Mark>, stack: seq<Name>, order: seq<nat>, i: nat)
    requires UniqueNames(jobs) && SortInv(jobs, marks, stack, order) && MayVisit(jobs, stack, i)
    requires marks[i] == Unvisited
    ensures SortInv(jobs, marks[i := Visiting], stack + [jobs[i].name], order)
  {
    if stack != [] {
      PathAppend(DepGraph(jobs), stack, jobs[i].name);
    }
  }

  lemma Leave(jobs: seq<Job>, marks: seq<Mark>, outer: seq<Name>, order: seq<nat>, i: nat)
    requires UniqueNames(jobs) && i < |jobs| && SortInv(jobs, marks, outer + [jobs[i].name], order)
    requires jobs[i].name !in outer && (outer != [] ==> IsPath(DepGraph(jobs), outer))
    requires forall d :: d in jobs[i].deps ==> Listed(jobs, order, d)
    ensures SortInv(jobs, marks[i := Visited], outer, order + [i])
  {
    var order' := order + [i];
    assert jobs[i].name in outer + [jobs[i].name];
    assert marks[i] == Visiting;
    assert forall x :: x in order' <==> x in order || x == i;
    forall k | 0 <= k < |order'| ensures DepsBefore(jobs, order', k) {
      if k < |order| {
        assert DepsBefore(jobs, order, k);
      }
      forall d | d in jobs[order'[k]].deps ensures exists m :: 0 <= m < k && jobs[order'[m]].name == d {
        assert k == |order| ==> Listed(jobs, order, d);
        var m :| 0 <= m < k && jobs[order[m]].name == d;
        assert jobs[order'[m]].name == d;
      }
    }
  }

  /** A culprit that makes the sort fail. */
  ghost predicate Explains(jobs: seq<Job>, err: ValidationError) {
    match err
    case UnknownDep(j, d) => !HasJob(jobs, d) && exists i :: 0 <= i < |jobs| && jobs[i].name == j && d in jobs[i].deps
    case CycleDetected(j) => OnCycle(DepGraph(jobs), j)
    case _ => false
  }

  /** A dependency of the job on top of the stack is unknown, or may be visited next. */
  lemma DepMayBeVisited(jobs: seq<Job>, index: map<Name, nat>, stack: seq<Name>, i: nat, d: Name)
    requires IsIndex(jobs, index) && i < |jobs| && d in jobs[i].deps
    requires stack != [] && stack[|stack| - 1] == jobs[i].name
    ensures d !in index ==> Explains(jobs, UnknownDep(jobs[i].name, d))
    ensures d in index ==> index[d] < |jobs| && jobs[index[d]].name == d && MayVisit(jobs, stack, index[d])
  {
    IndexedGraph(jobs, index, i);
  }

  /** jobGraph.topoSort: three-state depth-first search over job indices. */
  class TopoSorter {
    const jobs: seq<Job>
    const index: map<Name, nat>
    const state: array<Mark>
    var order: seq<nat>
    ghost var stack: seq<Name>

    constructor (jobs: seq<Job>, index: map<Name, nat>)
      ensures this.jobs == jobs && this.index == index && fresh(state)
      ensures Valid() && stack == []
    {
      this.jobs := jobs;
      this.index := index;
      this.state := new Mark[|jobs|](i => Unvisited);
      this.order := [];
      this.stack := [];
    }

    ghost predicate Valid()
      reads this, state
    {
      SortInv(jobs, state[..], stack, order)
    }

    ghost function Fresh(): set<nat>
      reads state
    {
      set k: nat | k < state.Length && state[k] == Unvisited
    }

    method Visit(i: nat) returns (err: Option<ValidationError>)
      requires IsIndex(jobs, index) && Valid() && MayVisit(jobs, stack, i)
      modifies this, state
      ensures err.None? ==> Valid() && stack == old(stack) && i in order
      ensures err.None? ==> Fresh() <= old(Fresh()) && old(order) <= order
      ensures err.Some? ==> Explains(jobs, err.value)
      decreases Fresh(), 0
    {
      if state[i] == Visited {
        return None;
      }
      if state[i] == Visiting {
        RevisitIsCycle(DepGraph(jobs), stack, jobs[i].name);
        return Some(CycleDetected(jobs[i].name));
      }
      ghost var outer := stack;
      Begin(i);
      err := VisitDeps(i);
      if err.None? {
        Finish(i, outer);
      }
    }

    method Begin(i: nat)
      requires IsIndex(jobs, index) && Valid() && MayVisit(jobs, stack, i) && state[i] == Unvisited
      modifies this, state
      ensures Valid() && order == old(order) && stack == old(stack) + [jobs[i].name]
      ensures Fresh() < old(Fresh())
      ensures jobs[i].name !in old(stack) && (old(stack) != [] ==> IsPath(DepGraph(jobs), old(stack)))
    {
      ghost var marks := state[..];
      IndexedGraph(jobs, index, i);
      Enter(jobs, marks, stack, order, i);
      assert i in old(Fresh());
      state[i] := Visiting;
      stack := stack + [jobs[i].name];
      assert state[..] == marks[i := Visiting];
      assert i !in Fresh();
    }

    method Finish(i: nat, ghost outer: seq<Name>)
      requires IsIndex(jobs, index) && Valid() && i < |jobs| && stack == outer + [jobs[i].name]
      requires jobs[i].name !in outer && (outer != [] ==> IsPath(DepGraph(jobs), outer))
      requires forall d :: d in jobs[i].deps ==> Listed(jobs, order, d)
      modifies this, state
      ensures Valid() && stack == outer && order == old(order) + [i] && Fresh() <= old(Fresh())
    {
      ghost var marks := state[..];
      IndexedGraph(jobs, index, i);
      Leave(jobs, marks, outer, order, i);
      state[i] := Visited;
      stack := outer;
      order := order + [i];
      assert state[..] == marks[i := Visited];
    }

    /** The loop over the dependencies of the job on top of the stack. */
    method VisitDeps(i: nat) returns (err: Option<ValidationError>)
      requires IsIndex(jobs, index) && Valid() && i < |jobs|
      requires stack != [] && stack[|stack| - 1] == jobs[i].name
      modifies this, state
      ensures err.None? ==> Valid() && stack == old(stack)
      ensures err.None? ==> forall d :: d in jobs[i].deps ==> Listed(jobs, order, d)
      ensures err.None? ==> Fresh() <= old(Fresh()) && old(order) <= order
      ensures err.Some? ==> Explains(jobs, err.value)
      decreases Fresh(), 1
    {
      var deps := jobs[i].deps;
      for k := 0 to |deps|
        invariant Valid() && stack == old(stack)
        invariant Fresh() <= old(Fresh()) && old(order) <= order
        invariant AllListed(jobs, order, deps[..k])
      {
        DepMayBeVisited(jobs, index, stack, i, deps[k]);
        if deps[k] !in index {
          return Some(UnknownDep(jobs[i].name, deps[k]));
        }
        ghost var before := order;
        err := Visit(index[deps[k]]);
        if err.Some? {
          return err;
        }
        OneMoreListed(jobs, before, order, deps[..k], index[deps[k]]);
        assert deps[..k + 1] == deps[..k] + [deps[k]];
      }
      assert deps[..|deps|] == deps;
      err := None;
    }

    method Sort() returns (r: Result<seq<nat>, ValidationError>)
      requires IsIndex(jobs, index) && Valid() && stack == []
      modifies this, state
      ensures r.Ok? <==> DepsKnown(jobs) && Acyclic(DepGraph(jobs))
      ensures r.Ok? ==> TopoOrder(jobs, r.value)
      ensures r.Err? ==> Explains(jobs, r.error)
    {
      for i := 0 to |jobs|
        invariant Valid() && stack == []
        invariant forall k :: 0 <= k < i ==> k in order
      {
        ghost var before := order;
        var err := Visit(i);
        if err.Some? {
          ExplainedIsIllFormed(jobs, err.value);
          return Err(err.value);
        }
        assert forall x :: x in before ==> x in order;
      }
      assert forall k: nat :: k < |jobs| <==> k in order;
      CompleteOrder(|jobs|, order);
      assert UniqueNames(jobs);
      TopoOrderMeansAcyclic(jobs, order);
      return Ok(order);
    }
  }

  /** A list of distinct numbers that are exactly those below n has length n. */
  lemma CompleteOrder(n: nat, order: seq<nat>)
    requires Distinct(order)
    requires forall k: nat :: k < n <==> k in order
    ensures |order| == n
  {
    DistinctCount(order);
    assert Elements(order) == Below(n);
  }

  ghost function Position(order: seq<nat>, i: nat): (k: nat)
    requires i in order
    ensures k < |order| && order[k] == i
  {
    var k :| 0 <= k < |order| && order[k] == i;
    k
  }

  /** A topological order can exist only when every dependency is known and nothing is cyclic. */
  lemma TopoOrderMeansAcyclic(jobs: seq<Job>, order: seq<nat>)
    requires UniqueNames(jobs) && TopoOrder(jobs, order)
    ensures DepsKnown(jobs) && Acyclic(DepGraph(jobs))
  {
    forall i, d | 0 <= i < |jobs| && d in jobs[i].deps ensures HasJob(jobs, d) {
      PermutationIsComplete(order, |jobs|, i);
      assert DepsBefore(jobs, order, Position(order, i));
    }
    var g := DepGraph(jobs);
    forall n | n in g ensures HasJob(jobs, n) {
      DepGraphKeys(jobs, n);
    }
    var r := map n | n in g :: RankInOrder(jobs, order, n);
    forall a, b | a in g && b in g[a] && b in g ensures r[b] < r[a] {
      EdgeIffDep(jobs, a, b);
      var i :| 0 <= i < |jobs| && jobs[i].name == a && b in jobs[i].deps;
      PermutationIsComplete(order, |jobs|, i);
      assert jobs[order[r[a]]].name == a;
      assert order[r[a]] == i;
      assert DepsBefore(jobs, order, r[a]);
    }
    RankedIsAcyclic(g, r);
  }

  ghost function RankInOrder(jobs: seq<Job>, order: seq<nat>, n: Name): (k: nat)
    requires UniqueNames(jobs) && TopoOrder(jobs, order) && HasJob(jobs, n)
    ensures k < |order| && jobs[order[k]].name == n
    ensures forall m :: 0 <= m < |order| && jobs[order[m]].name == n ==> m == k
  {
    var i: nat :| i < |jobs| && jobs[i].name == n;
    PermutationIsComplete(order, |jobs|, i);
    Position(order, i)
  }

  /** The error names a job with the fault. */
  ghost predicate FaultIn(jobs: seq<Job>, e: ValidationError) {
    match e
    case EmptyPipeline => jobs == []
    case DuplicateJob(n) => exists i, k :: 0 <= i < k < |jobs| && jobs[i].name == jobs[k].name == n
    case EmptyJob(n) => exists j :: j in jobs && j.name == n && j.steps == []
    case ArtifactNoDep(n) => exists j, a :: j in jobs && j.name == n && a !in j.deps && SourceOf(j, a)
    case SelfDependency(n) => exists j :: j in jobs && j.name == n && n in j.deps
    case UnknownDep(n, d) => (exists j :: j in jobs && j.name == n && d in j.deps) && forall j :: j in jobs ==> j.name != d
    case CycleDetected(n) => OnCycle(DepGraph(jobs), n)
  }

  /** The job, or one of its steps, takes an artifact from n. */
  ghost predicate SourceOf(j: Job, n: Name) {
    (exists a :: a in j.artifacts && a.from == n) || exists s, a :: s in j.steps && a in s.artifacts && a.from == n
  }

  lemma NoDepFault(jobs: seq<Job>, i: nat)
    requires i < |jobs| && !ArtifactsFromDeps(jobs[i])
    ensures FaultIn(jobs, ArtifactNoDep(jobs[i].name))
  {
    var j := jobs[i];
    if a :| a in j.artifacts && a.from !in j.deps {
      assert SourceOf(j, a.from);
    } else {
      var s, a :| s in j.steps && a in s.artifacts && a.from !in j.deps;
      assert SourceOf(j, a.from);
    }
  }

  lemma ExplainedFault(jobs: seq<Job>, e: ValidationError)
    requires Explains(jobs, e)
    ensures FaultIn(jobs, e)
  {
    if e.UnknownDep? {
      forall j | j in jobs ensures j.name != e.dep {
        var i :| 0 <= i < |jobs| && jobs[i] == j;
      }
    }
  }

  /** Validate, for the parts that concern the graph. It accepts exactly the well-formed job slices,
      and then returns a topological order of them. */
  method ValidateJobs(jobs: seq<Job>) returns (r: Result<seq<nat>, ValidationError>)
    ensures r.Ok? <==> WellFormedJobs(jobs)
    ensures r.Ok? ==> TopoOrder(jobs, r.value)
    ensures r.Err? && (r.error.UnknownDep? || r.error.CycleDetected?) ==> Explains(jobs, r.error)
    ensures r.Err? ==> FaultIn(jobs, r.error)
  {
    if jobs == [] {
      return Err(EmptyPipeline);
    }
    var index: map<Name, nat> := map[];
    for i := 0 to |jobs|
      invariant IsIndex(jobs[..i], index)
      invariant forall k :: 0 <= k < i ==> jobs[k].steps != [] && ArtifactsFromDeps(jobs[k])
    {
      var name := jobs[i].name;
      if name in index {
        assert jobs[index[name]].name == jobs[i].name;
        return Err(DuplicateJob(name));
      }
      index := index[name := i];
      assert jobs[..i + 1] == jobs[..i] + [jobs[i]];
      if jobs[i].steps == [] {
        return Err(EmptyJob(name));
      }
      if !ArtifactsFromDeps(jobs[i]) {
        NoDepFault(jobs, i);
        return Err(ArtifactNoDep(name));
      }
    }
    assert jobs[..|jobs|] == jobs;
    assert UniqueNames(jobs);
    for i := 0 to |jobs| {
      if jobs[i].name in jobs[i].deps {
        SelfDepIsCycle(jobs, i);
        return Err(SelfDependency(jobs[i].name));
      }
    }
    var sorter := new TopoSorter(jobs, index);
    r := sorter.Sort();
    if r.Ok? {
      TopoOrderMeansAcyclic(jobs, r.value);
    } else {
      ExplainedIsIllFormed(jobs, r.error);
      ExplainedFault(jobs, r.error);
    }
  }

  lemma SelfDepIsCycle(jobs: seq<Job>, i: nat)
    requires UniqueNames(jobs) && i < |jobs| && jobs[i].name in jobs[i].deps
    ensures !Acyclic(DepGraph(jobs))
  {
    DepGraphAt(jobs, i);
    var n := jobs[i].name;
    BackEdgeIsCycle(DepGraph(jobs), [n], 0);
  }

  lemma ExplainedIsIllFormed(jobs: seq<Job>, err: ValidationError)
    requires Explains(jobs, err)
    ensures !DepsKnown(jobs) || !Acyclic(DepGraph(jobs))
  {
  }
}
