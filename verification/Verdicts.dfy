/** The parser and the runner judge a graph alike. */
module Verdicts {
  import opened Prelude
  import opened Graphs
  import opened PipelineModel
  import opened Validate
  import Runner
  import Dag

  // ---------------------------------------------------------------- an order exists

  ghost function NamesIn(jobs: seq<Job>, order: seq<nat>): (r: set<Name>)
    requires forall k :: 0 <= k < |order| ==> order[k] < |jobs|
    ensures forall n :: n in r <==> Listed(jobs, order, n)
  {
    set k | 0 <= k < |order| :: jobs[order[k]].name
  }

  /** Some job can be listed next, until all are. */
  lemma NextInOrder(jobs: seq<Job>, order: seq<nat>) returns (i: nat)
    requires UniqueNames(jobs) && DepsKnown(jobs) && Acyclic(DepGraph(jobs))
    requires PartialOrder(jobs, order) && |order| < |jobs|
    ensures i < |jobs| && i !in order && forall d :: d in jobs[i].deps ==> Listed(jobs, order, d)
  {
    var g, done := DepGraph(jobs), NamesIn(jobs, order);
    var first := SomeUnlisted(|jobs|, order);
    DepGraphAt(jobs, first);
    UnlistedName(jobs, order, first);
    assert IsPath(g, [jobs[first].name]);
    var ready := FindReady(g, done, [jobs[first].name]);
    DepGraphKeys(jobs, ready);
    i :| 0 <= i < |jobs| && jobs[i].name == ready;
    DepGraphAt(jobs, i);
    if i in order {
      ListedUnlessUnlisted(jobs, order, i);
      assert false;
    }
    forall d | d in jobs[i].deps ensures Listed(jobs, order, d) {
      DepGraphKeys(jobs, d);
    }
  }

  lemma SomeUnlisted(n: nat, order: seq<nat>) returns (i: nat)
    requires Distinct(order) && |order| < n
    ensures i < n && i !in order
  {
    if forall k: nat :: k < n ==> k in order {
      DistinctCount(order);
      assert Below(n) <= Elements(order);
      CardinalityMonotone(Below(n), Elements(order));
      assert false;
    }
    i :| i < n && i !in order;
  }

  lemma UnlistedName(jobs: seq<Job>, order: seq<nat>, i: nat)
    requires UniqueNames(jobs) && PartialOrder(jobs, order) && i < |jobs| && i !in order
    ensures !Listed(jobs, order, jobs[i].name)
  {
    forall m | 0 <= m < |order| ensures jobs[order[m]].name != jobs[i].name {
      assert order[m] in order;
    }
  }

  lemma ListedUnlessUnlisted(jobs: seq<Job>, order: seq<nat>, i: nat)
    requires i < |jobs| && i in order
    ensures Listed(jobs, order, jobs[i].name)
  {
  }

  lemma {:induction false} CompletedOrder(jobs: seq<Job>, order: seq<nat>) returns (full: seq<nat>)
    requires UniqueNames(jobs) && DepsKnown(jobs) && Acyclic(DepGraph(jobs)) && PartialOrder(jobs, order)
    requires |order| <= |jobs|
    ensures TopoOrder(jobs, full)
    decreases |jobs| - |order|
  {
    if |order| == |jobs| {
      full := order;
    } else {
      var i := NextInOrder(jobs, order);
      ExtendPartialOrder(jobs, order, i);
      full := CompletedOrder(jobs, order + [i]);
    }
  }

  /** Jobs can be ordered if and only if their dependencies are known and no cycle exists. */
  lemma OrderIffAcyclic(jobs: seq<Job>)
    requires UniqueNames(jobs)
    ensures (exists order :: TopoOrder(jobs, order)) <==> DepsKnown(jobs) && Acyclic(DepGraph(jobs))
  {
    if DepsKnown(jobs) && Acyclic(DepGraph(jobs)) {
      var full := CompletedOrder(jobs, []);
    }
    if order :| TopoOrder(jobs, order) {
      TopoOrderMeansAcyclic(jobs, order);
    }
  }

  // ---------------------------------------------------------------- the runner sees the same graph

  /** The runner's jobs carry the names and dependencies of the pipeline's. */
  ghost predicate SameJobs(jobs: seq<Job>, named: seq<Dag.NamedJob>) {
    |named| == |jobs| && forall i :: 0 <= i < |jobs| ==> named[i].name == jobs[i].name && named[i].job.deps == jobs[i].deps
  }

  lemma SharedNames(jobs: seq<Job>, named: seq<Dag.NamedJob>, nodes: map<Name, Runner.Job>, n: Name)
    requires SameJobs(jobs, named) && Dag.Indexes(nodes, named)
    ensures n in Dag.GraphOf(nodes) <==> n in DepGraph(jobs)
  {
    DepGraphKeys(jobs, n);
    if HasJob(jobs, n) {
      var i :| 0 <= i < |jobs| && jobs[i].name == n;
      assert Dag.JobNames(named)[i] == n;
    }
    if n in nodes {
      var i :| 0 <= i < |named| && Dag.JobNames(named)[i] == n;
      assert jobs[i].name == n;
    }
  }

  lemma SharedDeps(jobs: seq<Job>, named: seq<Dag.NamedJob>, nodes: map<Name, Runner.Job>, n: Name)
    requires UniqueNames(jobs) && SameJobs(jobs, named) && Dag.Indexes(nodes, named)
    requires n in Dag.GraphOf(nodes)
    ensures n in DepGraph(jobs) && Dag.GraphOf(nodes)[n] == DepGraph(jobs)[n]
  {
    var i :| 0 <= i < |named| && Dag.JobNames(named)[i] == n;
    DepGraphAt(jobs, i);
    assert nodes[named[i].name] == named[i].job;
  }

  lemma SharedGraph(jobs: seq<Job>, named: seq<Dag.NamedJob>, nodes: map<Name, Runner.Job>)
    requires UniqueNames(jobs) && SameJobs(jobs, named) && Dag.Indexes(nodes, named)
    ensures Dag.GraphOf(nodes) == DepGraph(jobs)
  {
    forall n ensures n in Dag.GraphOf(nodes) <==> n in DepGraph(jobs) {
      SharedNames(jobs, named, nodes, n);
    }
    forall n | n in Dag.GraphOf(nodes) ensures Dag.GraphOf(nodes)[n] == DepGraph(jobs)[n] {
      SharedDeps(jobs, named, nodes, n);
    }
  }

  /** On known dependencies the sort succeeds exactly when the cycle search does: an order exists if and
      only if the runner's graph is acyclic. */
  lemma SameVerdict(jobs: seq<Job>, named: seq<Dag.NamedJob>, nodes: map<Name, Runner.Job>)
    requires UniqueNames(jobs) && DepsKnown(jobs) && SameJobs(jobs, named) && Dag.Indexes(nodes, named)
    ensures Closed(Dag.GraphOf(nodes))
    ensures (exists order :: TopoOrder(jobs, order)) <==> Acyclic(Dag.GraphOf(nodes))
  {
    SharedGraph(jobs, named, nodes);
    KnownDepsClose(jobs);
    OrderIffAcyclic(jobs);
  }
}
