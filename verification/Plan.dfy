/** From a validated pipeline to what is built. */
module Plan {
  // The command line's path behind the parser: cut the pipeline to its targets, prune it by its
  // conditions, build what is left.

  import opened Prelude
  import opened Graphs
  import opened PipelineModel
  import opened Filter
  import opened Conditions
  import BuildOrder

  // ---------------------------------------------------------------- a cut is valid again

  lemma {:induction false} NamesWhereDistinct(jobs: seq<Job>, keep: Name -> bool)
    requires UniqueNames(jobs)
    ensures Distinct(NamesWhere(jobs, keep))
    ensures forall n :: n in NamesWhere(jobs, keep) ==> HasJob(jobs, n)
  {
    if jobs != [] {
      var front, last := jobs[..|jobs| - 1], jobs[|jobs| - 1];
      NamesWhereDistinct(front, keep);
      assert forall i :: 0 <= i < |front| ==> front[i].name != last.name;
      assert !HasJob(front, last.name);
      forall n | n in NamesWhere(jobs, keep) ensures HasJob(jobs, n) {
        if n in NamesWhere(front, keep) {
          var i :| 0 <= i < |front| && front[i].name == n;
          assert jobs[i].name == n;
        } else {
          assert jobs[|jobs| - 1].name == n;
        }
      }
    }
  }

  lemma UniqueIfDistinct(jobs: seq<Job>)
    requires Distinct(Names(jobs))
    ensures UniqueNames(jobs)
  {
    forall i, k | 0 <= i < k < |jobs| ensures jobs[i].name != jobs[k].name {
      assert Names(jobs)[i] != Names(jobs)[k];
    }
  }

  /** The cut of a job with its steps and sources in order has them in order. */
  lemma CutJobIsWellFormed(jobs: seq<Job>, start: FilterTarget, stop: FilterTarget, j: Job, r: Job)
    requires CutFrom(jobs, start, stop, j, r) && j.steps != [] && ArtifactsFromDeps(j)
    ensures r.steps != [] && ArtifactsFromDeps(r)
  {
    assert !Behind(j, stop, 0);
    forall s | s in r.steps ensures forall a :: a in s.artifacts ==> a.from in r.deps {
      var i :| 0 <= i < |r.steps| && r.steps[i] == s;
      assert s.artifacts == j.steps[i].artifacts && j.steps[i] in j.steps;
    }
  }

  lemma CutEdge(jobs: seq<Job>, start: FilterTarget, stop: FilterTarget, result: seq<Job>, a: Name, b: Name)
    requires UniqueNames(jobs) && UniqueNames(result) && Edge(DepGraph(result), a, b)
    requires forall r :: r in result ==> exists j :: j in jobs && CutFrom(jobs, start, stop, j, r)
    ensures Edge(DepGraph(jobs), a, b)
  {
    EdgeIffDep(result, a, b);
    var i :| 0 <= i < |result| && result[i].name == a && b in result[i].deps;
    assert result[i] in result;
    var j :| j in jobs && CutFrom(jobs, start, stop, j, result[i]);
    var k :| 0 <= k < |jobs| && jobs[k] == j;
    EdgeIffDep(jobs, a, b);
  }

  /** Where the window holds a name at all, it holds a job. */
  lemma WindowHasJob(jobs: seq<Job>, start: FilterTarget, stop: FilterTarget, n: Name)
    requires UniqueNames(jobs) && InWindow(jobs, start, stop, n)
    requires start.job != "" ==> HasJob(jobs, start.job)
    requires stop.job != "" ==> HasJob(jobs, stop.job)
    ensures exists j :: j in jobs && Needed(jobs, start, stop, j.name)
  {
    var g := DepGraph(jobs);
    if start.job != "" {
      var p: seq<Name> :| Links(g, p, n, start.job);
      DepGraphKeys(jobs, n);
      NeededJob(jobs, start, stop, n, n);
    } else {
      ReachesSelf(g, stop.job);
      NeededJob(jobs, start, stop, stop.job, stop.job);
    }
  }

  lemma NeededJob(jobs: seq<Job>, start: FilterTarget, stop: FilterTarget, w: Name, n: Name)
    requires InWindow(jobs, start, stop, w) && HasJob(jobs, n) && w == n
    ensures exists j :: j in jobs && Needed(jobs, start, stop, j.name)
  {
    ReachesSelf(DepGraph(jobs), n);
    var i :| 0 <= i < |jobs| && jobs[i].name == n;
    assert jobs[i] in jobs && Needed(jobs, start, stop, jobs[i].name);
  }

  /** Cutting a validated pipeline leaves a validated pipeline. */
  lemma CutKeepsValidity(jobs: seq<Job>, start: FilterTarget, stop: FilterTarget, result: seq<Job>)
    requires WellFormedJobs(jobs) && CutOutcome(jobs, start, stop, Ok(result))
    ensures WellFormedJobs(result)
  {
    CutIsExact(jobs, start, stop, result);
    NamesWhereDistinct(jobs, NeededIn(jobs, start, stop));
    UniqueIfDistinct(result);
    forall i | 0 <= i < |result| ensures result[i].steps != [] && ArtifactsFromDeps(result[i]) {
      assert result[i] in result;
      var j :| j in jobs && CutFrom(jobs, start, stop, j, result[i]);
      CutJobIsWellFormed(jobs, start, stop, j, result[i]);
    }
    forall i, d | 0 <= i < |result| && d in result[i].deps ensures HasJob(result, d) {
      assert result[i] in result;
      var j :| j in jobs && CutFrom(jobs, start, stop, j, result[i]);
      assert HasJob(jobs, d);
      var s :| s in result && s.name == d;
    }
    forall a, b | Edge(DepGraph(result), a, b) ensures Edge(DepGraph(jobs), a, b) {
      CutEdge(jobs, start, stop, result, a, b);
    }
    forall c: seq<Name> | IsCycle(DepGraph(result), c) ensures false {
      PathInBigger(DepGraph(result), DepGraph(jobs), c);
      assert IsCycle(DepGraph(jobs), c);
    }
    var n :| InWindow(jobs, start, stop, n);
    WindowHasJob(jobs, start, stop, n);
  }

  // ---------------------------------------------------------------- the whole path

  /** What FilterJobs may return. */
  ghost predicate FilterOutcome(jobs: seq<Job>, startAt: string, stopAfter: string, r: Result<seq<Job>, FilterError>) {
    if startAt == "" && stopAfter == "" then r == Ok(jobs)
    else exists start, stop :: ParsesTo(startAt, start) && ParsesTo(stopAfter, stop) && CutOutcome(jobs, start, stop, r)
  }

  lemma FilterKeepsUnique(jobs: seq<Job>, startAt: string, stopAfter: string, cut: seq<Job>)
    requires UniqueNames(jobs) && FilterOutcome(jobs, startAt, stopAfter, Ok(cut))
    ensures UniqueNames(cut)
  {
    if !(startAt == "" && stopAfter == "") {
      var start, stop :| ParsesTo(startAt, start) && ParsesTo(stopAfter, stop) && CutOutcome(jobs, start, stop, Ok(cut));
      CutIsExact(jobs, start, stop, cut);
      NamesWhereDistinct(jobs, NeededIn(jobs, start, stop));
      UniqueIfDistinct(cut);
    }
  }

  /** The jobs of a validated pipeline, cut to the targets and pruned by the conditions, are a validated
      pipeline again, or none are left. */
  lemma PlanKeepsValidity(ev: Evaluator, jobs: seq<Job>, startAt: string, stopAfter: string, cut: seq<Job>, skipped: set<Name>)
    requires WellFormedJobs(jobs) && FilterOutcome(jobs, startAt, stopAfter, Ok(cut)) && AreSkipped(ev, cut, skipped)
    ensures WellFormedJobs(cut)
    ensures Pruned(ev, cut, skipped) == [] || WellFormedJobs(Pruned(ev, cut, skipped))
  {
    if !(startAt == "" && stopAfter == "") {
      var start, stop :| ParsesTo(startAt, start) && ParsesTo(stopAfter, stop) && CutOutcome(jobs, start, stop, Ok(cut));
      CutKeepsValidity(jobs, start, stop, cut);
    }
    PruningKeepsValidity(ev, cut, skipped);
  }

  datatype PlanError = BadFilter(filter: FilterError) | BadCondition(condition: ConditionError)

  method PlanJobs(ev: Evaluator, jobs: seq<Job>, startAt: string, stopAfter: string)
    returns (r: Result<seq<Job>, PlanError>, ghost cut: seq<Job>, ghost skipped: set<Name>)
    requires UniqueNames(jobs)
    ensures r.Ok? ==> FilterOutcome(jobs, startAt, stopAfter, Ok(cut)) && AreSkipped(ev, cut, skipped)
    ensures r.Ok? ==> r.value == Pruned(ev, cut, skipped)
    ensures r.Err? && r.error.BadFilter? ==> FilterOutcome(jobs, startAt, stopAfter, Err(r.error.filter))
    ensures r.Err? && r.error.BadCondition? ==> FilterOutcome(jobs, startAt, stopAfter, Ok(cut)) && SomeError(ev, cut)
  {
    cut, skipped := [], {};
    var filtered := FilterJobs(jobs, startAt, stopAfter);
    if filtered.Err? {
      return Err(BadFilter(filtered.error)), cut, skipped;
    }
    cut := filtered.value;
    FilterKeepsUnique(jobs, startAt, stopAfter, cut);
    var evaluated := EvaluateConditions(ev, filtered.value);
    if evaluated.Err? {
      return Err(BadCondition(evaluated.error)), cut, skipped;
    }
    skipped := NameSet(evaluated.value.skipped);
    return Ok(evaluated.value.jobs), cut, skipped;
  }

  /** The plan is built without a cached order: of a validated pipeline everything left is built, each
      job behind its dependencies. */
  method BuildPlan(ev: Evaluator, jobs: seq<Job>, startAt: string, stopAfter: string)
    returns (r: Result<seq<Name>, PlanError>, ghost left: seq<Job>, ghost order: seq<nat>)
    requires WellFormedJobs(jobs)
    ensures r.Ok? ==> TopoOrder(left, order) && |r.value| == |left|
    ensures r.Ok? ==> forall k :: 0 <= k < |left| ==> r.value[k] == left[order[k]].name
    ensures r.Ok? ==> exists cut, skipped ::
      FilterOutcome(jobs, startAt, stopAfter, Ok(cut)) && AreSkipped(ev, cut, skipped) && left == Pruned(ev, cut, skipped)
    ensures r.Err? && r.error.BadFilter? ==> FilterOutcome(jobs, startAt, stopAfter, Err(r.error.filter))
    ensures r.Err? && r.error.BadCondition? ==>
      exists cut :: FilterOutcome(jobs, startAt, stopAfter, Ok(cut)) && SomeError(ev, cut)
  {
    ghost var cut, skipped;
    var plan;
    plan, cut, skipped := PlanJobs(ev, jobs, startAt, stopAfter);
    if plan.Err? {
      return Err(plan.error), [], [];
    }
    PlanKeepsValidity(ev, jobs, startAt, stopAfter, cut, skipped);
    left := plan.value;
    var names;
    names, order := BuildOrder.Build(plan.value, []);
    assert plan.value == [] ==> BuildOrder.BuildsAll(plan.value, BuildOrder.Nats([]));
    return Ok(names.value), left, order;
  }
}
