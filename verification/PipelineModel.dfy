/** The parsed pipeline: its jobs, their steps, and the graph of names that their depends-on lists span between
    them. */
module PipelineModel {
  import opened Prelude
  import opened Graphs

  type Name = string

  datatype Artifact = Artifact(from: Name, source: string, target: string)

  datatype Export = Export(path: string, local: string)

  /** A when condition; a deferred one refers to outputs and is left to the runner. */
  datatype When = When(expression: string, deferred: bool)

  /** One axis of a build matrix. */
  datatype Dimension = Dimension(name: string, values: seq<string>)

  /** One value per dimension. */
  type Combo = map<string, string>

  datatype Step = Step(
    name: Name,
    run: seq<string>,
    exports: seq<Export>,
    artifacts: seq<Artifact>,
    when: Option<When>)

  datatype Job = Job(
    name: Name,
    image: string,
    deps: seq<Name>,
    exports: seq<Export>,
    artifacts: seq<Artifact>,
    publish: Option<string>,
    steps: seq<Step>,
    when: Option<When>,
    matrix: Option<seq<Dimension>>,
    matrixValues: Option<Combo>)

  ghost predicate UniqueNames(jobs: seq<Job>) {
    forall i, j :: 0 <= i < j < |jobs| ==> jobs[i].name != jobs[j].name
  }

  predicate HasJob(jobs: seq<Job>, n: Name) {
    exists i :: 0 <= i < |jobs| && jobs[i].name == n
  }

  /** Name -> depends-on list, as the loops over the job slice fill it. */
  function DepGraph(jobs: seq<Job>): Graph<Name> {
    if jobs == [] then map[]
    else var last := jobs[|jobs| - 1]; DepGraph(jobs[..|jobs| - 1])[last.name := last.deps]
  }

  lemma {:induction false} DepGraphKeys(jobs: seq<Job>, n: Name)
    ensures n in DepGraph(jobs) <==> HasJob(jobs, n)
  {
    if jobs != [] {
      var front, last := jobs[..|jobs| - 1], jobs[|jobs| - 1];
      DepGraphKeys(front, n);
      if HasJob(front, n) {
        var i :| 0 <= i < |front| && front[i].name == n;
        assert jobs[i].name == n;
      }
      assert forall i :: 0 <= i < |front| ==> front[i] == jobs[i];
      assert last.name == n ==> HasJob(jobs, n);
    }
  }

  lemma {:induction false} DepGraphAt(jobs: seq<Job>, i: nat)
    requires UniqueNames(jobs) && i < |jobs|
    ensures jobs[i].name in DepGraph(jobs) && DepGraph(jobs)[jobs[i].name] == jobs[i].deps
  {
    if i < |jobs| - 1 {
      DepGraphAt(jobs[..|jobs| - 1], i);
    }
  }

  /** With distinct names an edge of the graph is a depends-on entry of the one job of that name. */
  lemma EdgeIffDep(jobs: seq<Job>, a: Name, b: Name)
    requires UniqueNames(jobs)
    ensures Edge(DepGraph(jobs), a, b) <==> exists i :: 0 <= i < |jobs| && jobs[i].name == a && b in jobs[i].deps
  {
    DepGraphKeys(jobs, a);
    if HasJob(jobs, a) {
      var i :| 0 <= i < |jobs| && jobs[i].name == a;
      DepGraphAt(jobs, i);
    }
  }

  ghost predicate DepsKnown(jobs: seq<Job>) {
    forall i, d :: 0 <= i < |jobs| && d in jobs[i].deps ==> HasJob(jobs, d)
  }

  lemma KnownDepsClose(jobs: seq<Job>)
    requires UniqueNames(jobs) && DepsKnown(jobs)
    ensures Closed(DepGraph(jobs))
  {
    forall a, b | a in DepGraph(jobs) && b in DepGraph(jobs)[a] ensures b in DepGraph(jobs) {
      EdgeIffDep(jobs, a, b);
      DepGraphKeys(jobs, b);
    }
  }

  /** Every artifact of a job and of its steps comes from one of the job's dependencies. */
  predicate ArtifactsFromDeps(j: Job) {
    && (forall a :: a in j.artifacts ==> a.from in j.deps)
    && (forall s :: s in j.steps ==> forall a :: a in s.artifacts ==> a.from in j.deps)
  }

  /** order lists every job index once, dependencies before their dependents. */
  ghost predicate TopoOrder(jobs: seq<Job>, order: seq<nat>) {
    && |order| == |jobs|
    && Distinct(order)
    && (forall k :: 0 <= k < |order| ==> order[k] < |jobs|)
    && (forall k :: 0 <= k < |order| ==> DepsBefore(jobs, order, k))
  }

  ghost predicate DepsBefore(jobs: seq<Job>, order: seq<nat>, k: nat)
    requires k < |order| && forall k :: 0 <= k < |order| ==> order[k] < |jobs|
  {
    forall d :: d in jobs[order[k]].deps ==> exists m :: 0 <= m < k && jobs[order[m]].name == d
  }

  /** What Validate establishes of a pipeline, as far as the graph is concerned. */
  ghost predicate WellFormedJobs(jobs: seq<Job>) {
    && jobs != []
    && UniqueNames(jobs)
    && (forall i :: 0 <= i < |jobs| ==> jobs[i].steps != [] && ArtifactsFromDeps(jobs[i]))
    && DepsKnown(jobs)
    && Acyclic(DepGraph(jobs))
  }
}
