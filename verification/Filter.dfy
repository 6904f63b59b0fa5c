/** Cutting the job graph down to a start and a stop target. */
module Filter {
  import opened Prelude
  import opened Graphs
  import opened PipelineModel

  datatype FilterTarget = FilterTarget(job: Name, step: Name)

  datatype FilterError =
    | OrphanedStep
    | UnknownStartAt
    | UnknownStartAtStep
    | UnknownStopAfter
    | UnknownStopAfterStep
    | EmptyFilterResult
    | EmptyStepWindow

  // ---------------------------------------------------------------- target syntax

  /** The bracket depth in front of position i; a stray closing bracket does not go below zero. */
  function DepthAt(s: string, i: nat): nat
    requires i <= |s|
  {
    if i == 0 then 0
    else if s[i - 1] == '[' then DepthAt(s, i - 1) + 1
    else if s[i - 1] == ']' && DepthAt(s, i - 1) > 0 then DepthAt(s, i - 1) - 1
    else DepthAt(s, i - 1)
  }

  predicate Separator(s: string, i: nat)
    requires i < |s|
  {
    s[i] == ':' && DepthAt(s, i) == 0
  }

  predicate FirstSeparator(s: string, i: nat) {
    i < |s| && Separator(s, i) && forall k :: 0 <= k < i ==> !Separator(s, k)
  }

  ghost predicate ParsesTo(s: string, t: FilterTarget) {
    if exists i: nat :: FirstSeparator(s, i) then
      exists i: nat :: FirstSeparator(s, i) && t == FilterTarget(s[..i], s[i + 1..])
    else
      t == FilterTarget(s, "")
  }

  /** Splits at the first colon outside brackets. */
  method ParseFilterTarget(s: string) returns (t: FilterTarget)
    ensures ParsesTo(s, t)
  {
    var depth := 0;
    for i := 0 to |s|
      invariant depth == DepthAt(s, i)
      invariant forall k :: 0 <= k < i ==> !Separator(s, k)
    {
      match s[i] {
        case '[' => depth := depth + 1;
        case ']' =>
          if depth > 0 {
            depth := depth - 1;
          }
        case ':' =>
          if depth == 0 {
            assert FirstSeparator(s, i);
            return FilterTarget(s[..i], s[i + 1..]);
          }
        case _ =>
      }
    }
    return FilterTarget(s, "");
  }

  lemma {:induction false} DepthOfPrefix(a: string, b: string, i: nat)
    requires i <= |a|
    ensures DepthAt(a + b, i) == DepthAt(a, i)
  {
    if i > 0 {
      DepthOfPrefix(a, b, i - 1);
    }
  }

  /** Writing a job and a step with a colon between them and reading the target back returns the
      pair exactly when the job name closes all its brackets and has no colon outside them. */
  lemma TargetRoundTrip(job: Name, step: Name)
    ensures ParsesTo(job + ":" + step, FilterTarget(job, step)) <==>
      DepthAt(job, |job|) == 0 && forall i :: 0 <= i < |job| ==> !Separator(job, i)
  {
    var s, n := job + ":" + step, |job|;
    forall i | 0 <= i <= n ensures DepthAt(s, i) == DepthAt(job, i) {
      assert s == job + (":" + step);
      DepthOfPrefix(job, ":" + step, i);
    }
    assert forall i :: 0 <= i < n ==> s[i] == job[i] && Separator(s, i) == Separator(job, i);
    assert s[n] == ':' && s[..n] == job && s[n + 1..] == step;
    if ParsesTo(s, FilterTarget(job, step)) {
      var i: nat :| FirstSeparator(s, i) && FilterTarget(job, step) == FilterTarget(s[..i], s[i + 1..]);
      assert |s[..i]| == i == n;
    } else if DepthAt(job, n) == 0 && forall i :: 0 <= i < n ==> !Separator(job, i) {
      assert FirstSeparator(s, n);
    }
  }

  lemma {:induction false} DepthInBrackets(base: string, inner: string, i: nat)
    requires '[' !in base && ']' !in base && '[' !in inner && ']' !in inner
    requires i <= |base| + |inner| + 2
    ensures var s := base + "[" + inner + "]";
      DepthAt(s, i) == if |base| < i <= |base| + 1 + |inner| then 1 else 0
  {
    if i > 0 {
      var s := base + "[" + inner + "]";
      DepthInBrackets(base, inner, i - 1);
      assert s[i - 1] == if i - 1 < |base| then base[i - 1] else if i - 1 == |base| then '['
                         else if i - 1 < |base| + 1 + |inner| then inner[i - 2 - |base|] else ']';
    }
  }

  /** A variant's name may be a target although its values hold colons. */
  lemma VariantTarget(base: string, inner: string, step: Name)
    requires '[' !in base && ']' !in base && ':' !in base && '[' !in inner && ']' !in inner
    ensures ParsesTo(base + "[" + inner + "]" + ":" + step, FilterTarget(base + "[" + inner + "]", step))
  {
    var job := base + "[" + inner + "]";
    forall i | 0 <= i <= |job| ensures DepthAt(job, i) == if |base| < i <= |base| + 1 + |inner| then 1 else 0 {
      DepthInBrackets(base, inner, i);
    }
    forall i | 0 <= i < |job| ensures !Separator(job, i) {
      assert i < |base| ==> job[i] == base[i];
      assert i == |base| ==> job[i] == '[';
    }
    TargetRoundTrip(job, step);
  }

  // ---------------------------------------------------------------- reachability

  ghost function Targets(g: Graph<Name>): set<Name> {
    set a, b | a in g && b in g[a] :: b
  }

  /** The inner loop: names not seen before are marked and queued. */
  method Enqueue(nexts: seq<Name>, visited: set<Name>, queue: seq<Name>) returns (visited': set<Name>, queue': seq<Name>)
    ensures visited' == visited + Elements(nexts)
    ensures forall x :: x in queue' <==> x in queue || (x in nexts && x !in visited)
    ensures visited' == visited ==> queue' == queue
  {
    visited', queue' := visited, queue;
    for i := 0 to |nexts|
      invariant visited' == visited + Elements(nexts[..i])
      invariant forall x :: x in queue' <==> x in queue || (x in nexts[..i] && x !in visited)
      invariant visited' == visited ==> queue' == queue
    {
      assert nexts[..i + 1] == nexts[..i] + [nexts[i]];
      if nexts[i] !in visited' {
        visited' := visited' + {nexts[i]};
        queue' := queue' + [nexts[i]];
      }
    }
    assert nexts[..|nexts|] == nexts;
  }

  ghost predicate AllReached(adj: Graph<Name>, start: Name, s: set<Name>) {
    forall x :: x in s ==> Reaches(adj, start, x)
  }

  lemma ReachesNexts(adj: Graph<Name>, start: Name, cur: Name, s: set<Name>)
    requires AllReached(adj, start, s) && cur in s && cur in adj
    ensures AllReached(adj, start, s + Elements(adj[cur]))
  {
    forall x | x in adj[cur] ensures Reaches(adj, start, x) {
      ReachesEdge(adj, cur, x);
      ReachesTrans(adj, start, cur, x);
    }
  }

  /** Breadth-first search: returns exactly what start reaches. */
  method BfsReachable(start: Name, adj: Graph<Name>) returns (visited: set<Name>)
    ensures forall x :: x in visited <==> Reaches(adj, start, x)
  {
    visited := {start};
    var queue := [start];
    ReachesSelf(adj, start);
    while queue != []
      invariant start in visited && AllReached(adj, start, visited)
      invariant visited <= {start} + Targets(adj)
      invariant forall x :: x in queue ==> x in visited
      invariant forall x, y :: x in visited && x !in queue && x in adj && y in adj[x] ==> y in visited
      decreases ({start} + Targets(adj)) - visited, |queue|
    {
      var cur := queue[0];
      assert queue == [cur] + queue[1..];
      var nexts := if cur in adj then adj[cur] else [];
      assert forall y :: y in nexts ==> y in Targets(adj);
      if cur in adj {
        ReachesNexts(adj, start, cur, visited);
      }
      visited, queue := Enqueue(nexts, visited, queue[1..]);
    }
    forall x | Reaches(adj, start, x) ensures x in visited {
      ClosedSetHoldsReach(adj, visited, start, x);
    }
  }

  /** A nil set stands for the universe. */
  method IntersectSets(a: Option<set<Name>>, b: Option<set<Name>>) returns (r: Option<set<Name>>)
    ensures a.None? ==> r == b
    ensures b.None? ==> r == a
    ensures a.Some? && b.Some? ==> r == Some(a.value * b.value)
  {
    if a.None? {
      return b;
    }
    if b.None? {
      return a;
    }
    var both := set k | k in a.value && k in b.value;
    assert both == a.value * b.value;
    return Some(both);
  }

  /** A set of job names that is grown in place. */
  class JobNameSet {
    var names: set<Name>

    constructor (names: set<Name>)
      ensures this.names == names
    {
      this.names := names;
    }
  }

  ghost predicate DepsIn(deps: Graph<Name>, x: Name, s: set<Name>) {
    forall d :: x in deps && d in deps[x] ==> d in s
  }

  /** Everything added to before is reachable from name and has its dependencies in after. */
  ghost predicate Grows(deps: Graph<Name>, name: Name, before: set<Name>, after: set<Name>) {
    && before <= after
    && forall x :: x in after && x !in before ==> Reaches(deps, name, x) && DepsIn(deps, x, after)
  }

  /** Depth-first search from name that treats what the set already holds as done: whatever it adds
      is reachable and has its dependencies in the set; nothing is said of what was there before. */
  method AddTransitiveDeps(name: Name, deps: Graph<Name>, visited: JobNameSet)
    modifies visited
    ensures Grows(deps, name, old(visited.names), visited.names)
    ensures DepsIn(deps, name, visited.names)
    decreases Targets(deps) - visited.names
  {
    var nexts := if name in deps then deps[name] else [];
    for i := 0 to |nexts|
      invariant Grows(deps, name, old(visited.names), visited.names)
      invariant forall k :: 0 <= k < i ==> nexts[k] in visited.names
    {
      var dep := nexts[i];
      if dep !in visited.names {
        ghost var before := visited.names;
        assert name in deps && dep in deps[name] && dep in Targets(deps);
        visited.names := visited.names + {dep};
        AddTransitiveDeps(dep, deps, visited);
        GrowsThrough(deps, name, dep, old(visited.names), before, visited.names);
      }
    }
  }

  lemma GrowsThrough(deps: Graph<Name>, name: Name, dep: Name, start: set<Name>, before: set<Name>, after: set<Name>)
    requires Edge(deps, name, dep) && Grows(deps, name, start, before)
    requires Grows(deps, dep, before + {dep}, after) && DepsIn(deps, dep, after)
    ensures Grows(deps, name, start, after)
  {
    ReachesEdge(deps, name, dep);
    forall x | x in after && x !in start ensures Reaches(deps, name, x) && DepsIn(deps, x, after) {
      if x !in before && x != dep {
        ReachesTrans(deps, name, dep, x);
      }
    }
  }

  ghost predicate InClosure(deps: Graph<Name>, window: set<Name>, x: Name) {
    exists w :: w in window && Reaches(deps, w, x)
  }

  /** Starting from a set that already contains the whole window, the depth-first searches still add
      up to the full dependency closure. */
  method CloseOverDeps(window: set<Name>, deps: Graph<Name>) returns (full: set<Name>)
    ensures forall x :: x in full <==> InClosure(deps, window, x)
  {
    var visited := new JobNameSet(window);
    var todo := window;
    assert PartlyClosed(deps, window, window, window) by {
      forall w | w in window ensures InClosure(deps, window, w) {
        ReachesSelf(deps, w);
      }
    }
    while todo != {}
      invariant todo <= window
      invariant PartlyClosed(deps, window, todo, visited.names)
    {
      var name :| name in todo;
      ghost var before := visited.names;
      AddTransitiveDeps(name, deps, visited);
      ClosesMore(deps, window, todo, name, before, visited.names);
      todo := todo - {name};
    }
    full := visited.names;
    FullyClosed(deps, window, full);
  }

  lemma FullyClosed(deps: Graph<Name>, window: set<Name>, full: set<Name>)
    requires PartlyClosed(deps, window, {}, full)
    ensures forall x :: x in full <==> InClosure(deps, window, x)
  {
    forall x | InClosure(deps, window, x) ensures x in full {
      var w :| w in window && Reaches(deps, w, x);
      assert forall a :: a in full ==> DepsIn(deps, a, full);
      ClosedSetHoldsReach(deps, full, w, x);
    }
  }

  ghost predicate PartlyClosed(deps: Graph<Name>, window: set<Name>, todo: set<Name>, s: set<Name>) {
    && window <= s
    && (forall x :: x in s ==> InClosure(deps, window, x))
    && (forall x :: x in s && x !in todo ==> DepsIn(deps, x, s))
  }

  lemma ClosesMore(deps: Graph<Name>, window: set<Name>, todo: set<Name>, name: Name, before: set<Name>, after: set<Name>)
    requires PartlyClosed(deps, window, todo, before) && name in todo && todo <= window
    requires Grows(deps, name, before, after) && DepsIn(deps, name, after)
    ensures PartlyClosed(deps, window, todo - {name}, after)
  {
    forall x | x in after && x !in todo - {name} ensures DepsIn(deps, x, after) {
      if x in before && x != name {
        assert DepsIn(deps, x, before);
      }
    }
  }

  // ---------------------------------------------------------------- the selection

  /** Dependency name -> dependents, as the loops over the job slice fill it. */
  function DependentsGraph(jobs: seq<Job>): Graph<Name> {
    if jobs == [] then map[]
    else var last := jobs[|jobs| - 1]; AddDependent(DependentsGraph(jobs[..|jobs| - 1]), last.deps, last.name)
  }

  function AddDependent(g: Graph<Name>, deps: seq<Name>, name: Name): Graph<Name> {
    if deps == [] then g
    else var h, d := AddDependent(g, deps[..|deps| - 1], name), deps[|deps| - 1];
      h[d := (if d in h then h[d] else []) + [name]]
  }

  lemma {:induction false} AddDependentEdges(g: Graph<Name>, deps: seq<Name>, name: Name, a: Name, b: Name)
    ensures Edge(AddDependent(g, deps, name), a, b) <==> Edge(g, a, b) || (a in deps && b == name)
  {
    if deps != [] {
      AddDependentEdges(g, deps[..|deps| - 1], name, a, b);
      assert deps == deps[..|deps| - 1] + [deps[|deps| - 1]];
    }
  }

  ghost predicate DependsOn(jobs: seq<Job>, b: Name, a: Name) {
    exists i :: 0 <= i < |jobs| && jobs[i].name == b && a in jobs[i].deps
  }

  lemma {:induction false} DependentsEdges(jobs: seq<Job>, a: Name, b: Name)
    ensures Edge(DependentsGraph(jobs), a, b) <==> DependsOn(jobs, b, a)
  {
    if jobs != [] {
      var front, last := jobs[..|jobs| - 1], jobs[|jobs| - 1];
      DependentsEdges(front, a, b);
      AddDependentEdges(DependentsGraph(front), last.deps, last.name, a, b);
      if DependsOn(front, b, a) {
        var i :| 0 <= i < |front| && front[i].name == b && a in front[i].deps;
        assert jobs[i].name == b && a in jobs[i].deps;
      }
      assert forall i :: 0 <= i < |front| ==> jobs[i] == front[i];
    }
  }

  /** With distinct names the dependents graph is the dependency graph with its edges turned round. */
  lemma DependentsReverse(jobs: seq<Job>, a: Name, b: Name)
    requires UniqueNames(jobs)
    ensures Edge(DependentsGraph(jobs), a, b) <==> Edge(DepGraph(jobs), b, a)
  {
    DependentsEdges(jobs, a, b);
    EdgeIffDep(jobs, b, a);
  }

  lemma {:induction false} ReversePath(g: Graph<Name>, r: Graph<Name>, p: seq<Name>)
    requires forall a, b :: Edge(r, a, b) ==> Edge(g, b, a)
    requires IsPath(r, p)
    ensures Reaches(g, p[|p| - 1], p[0])
  {
    if |p| == 1 {
      ReachesSelf(g, p[0]);
    } else {
      ReversePath(g, r, p[1..]);
      ReachesEdge(g, p[1], p[0]);
      ReachesTrans(g, p[|p| - 1], p[1], p[0]);
    }
  }

  /** What start reaches along dependents is what reaches start along dependencies. */
  lemma ForwardIsBackward(jobs: seq<Job>, a: Name, b: Name)
    requires UniqueNames(jobs)
    ensures Reaches(DependentsGraph(jobs), a, b) <==> Reaches(DepGraph(jobs), b, a)
  {
    forall x, y ensures Edge(DependentsGraph(jobs), x, y) <==> Edge(DepGraph(jobs), y, x) {
      DependentsReverse(jobs, x, y);
    }
    if Reaches(DependentsGraph(jobs), a, b) {
      var p: seq<Name> :| Links(DependentsGraph(jobs), p, a, b);
      ReversePath(DepGraph(jobs), DependentsGraph(jobs), p);
    }
    if Reaches(DepGraph(jobs), b, a) {
      var p: seq<Name> :| Links(DepGraph(jobs), p, b, a);
      ReversePath(DependentsGraph(jobs), DepGraph(jobs), p);
    }
  }

  /** The execution window: start and everything that needs it, cut with stop and everything it
      needs. A target without a job does not cut. */
  ghost predicate InWindow(jobs: seq<Job>, start: FilterTarget, stop: FilterTarget, n: Name) {
    && (start.job != "" || stop.job != "")
    && (start.job != "" ==> Reaches(DepGraph(jobs), n, start.job))
    && (stop.job != "" ==> Reaches(DepGraph(jobs), stop.job, n))
  }

  /** What the window needs, directly or not. */
  ghost predicate Needed(jobs: seq<Job>, start: FilterTarget, stop: FilterTarget, n: Name) {
    exists w :: InWindow(jobs, start, stop, w) && Reaches(DepGraph(jobs), w, n)
  }

  function StripExports(steps: seq<Step>): (r: seq<Step>)
    ensures |r| == |steps|
    ensures forall i :: 0 <= i < |r| ==> r[i] == steps[i].(exports := [])
  {
    if steps == [] then [] else [steps[0].(exports := [])] + StripExports(steps[1..])
  }

  function StripJob(j: Job): Job {
    j.(exports := [], publish := None, steps := StripExports(j.steps))
  }

  /** The kept jobs in slice order, those outside the window without exports and publish. */
  function Selected(jobs: seq<Job>, full: set<Name>, window: set<Name>): seq<Job> {
    if jobs == [] then []
    else var last := jobs[|jobs| - 1];
      Selected(jobs[..|jobs| - 1], full, window)
      + if last.name !in full then [] else if last.name in window then [last] else [StripJob(last)]
  }

  /** The first step of that name, or -1. */
  function StepIndex(steps: seq<Step>, name: Name): (k: int)
    ensures k == -1 ==> forall i :: 0 <= i < |steps| ==> steps[i].name != name
    ensures k != -1 ==> 0 <= k < |steps| && steps[k].name == name && forall i :: 0 <= i < k ==> steps[i].name != name
  {
    if steps == [] then -1
    else if steps[0].name == name then 0
    else var k := StepIndex(steps[1..], name); if k == -1 then -1 else k + 1
  }

  function TrimIndex(j: Job, t: FilterTarget): int {
    if t.step != "" && j.name == t.job then StepIndex(j.steps, t.step) else -1
  }

  predicate EmptyWindow(j: Job, start: FilterTarget, stop: FilterTarget) {
    TrimIndex(j, start) >= 0 && TrimIndex(j, stop) >= 0 && TrimIndex(j, start) > TrimIndex(j, stop)
  }

  /** stop-after cuts the steps behind the named one; start-at strips exports in front of it. */
  function TrimJob(j: Job, start: FilterTarget, stop: FilterTarget): Job
    requires !EmptyWindow(j, start, stop)
  {
    var s, e := TrimIndex(j, start), TrimIndex(j, stop);
    var steps := if e >= 0 then j.steps[..e + 1] else j.steps;
    j.(steps := if s >= 0 then StripExports(steps[..s]) + steps[s..] else steps)
  }

  predicate HasStep(jobs: seq<Job>, t: FilterTarget) {
    exists j :: j in jobs && j.name == t.job && StepIndex(j.steps, t.step) >= 0
  }

  /** validateTarget. */
  function TargetError(jobs: seq<Job>, t: FilterTarget, errJob: FilterError, errStep: FilterError): Option<FilterError> {
    if t.job == "" then if t.step != "" then Some(OrphanedStep) else None
    else if !HasJob(jobs, t.job) then Some(errJob)
    else if t.step != "" && !HasStep(jobs, t) then Some(errStep)
    else None
  }

  method BuildJobAdj(jobs: seq<Job>) returns (dependents: Graph<Name>, dependencies: Graph<Name>)
    ensures dependents == DependentsGraph(jobs) && dependencies == DepGraph(jobs)
  {
    dependents, dependencies := map[], map[];
    for i := 0 to |jobs|
      invariant dependents == DependentsGraph(jobs[..i]) && dependencies == DepGraph(jobs[..i])
    {
      var deps := jobs[i].deps;
      dependencies := dependencies[jobs[i].name := deps];
      for k := 0 to |deps|
        invariant dependents == AddDependent(DependentsGraph(jobs[..i]), deps[..k], jobs[i].name)
      {
        assert deps[..k + 1][..k] == deps[..k];
        dependents := dependents[deps[k] := (if deps[k] in dependents then dependents[deps[k]] else []) + [jobs[i].name]];
      }
      assert deps[..|deps|] == deps && jobs[..i + 1][..i] == jobs[..i];
    }
    assert jobs[..|jobs|] == jobs;
  }

  method SelectJobs(jobs: seq<Job>, full: set<Name>, window: set<Name>) returns (filtered: seq<Job>)
    ensures filtered == Selected(jobs, full, window)
  {
    filtered := [];
    for i := 0 to |jobs|
      invariant filtered == Selected(jobs[..i], full, window)
    {
      assert jobs[..i + 1][..i] == jobs[..i];
      if jobs[i].name in full {
        filtered := filtered + [if jobs[i].name in window then jobs[i] else StripJob(jobs[i])];
      }
    }
    assert jobs[..|jobs|] == jobs;
  }

  /** applyStepTrimming, over all jobs. */
  method TrimJobs(jobs: seq<Job>, start: FilterTarget, stop: FilterTarget) returns (r: Result<seq<Job>, FilterError>)
    ensures r.Err? <==> exists i :: 0 <= i < |jobs| && EmptyWindow(jobs[i], start, stop)
    ensures r.Err? ==> r.error == EmptyStepWindow
    ensures r.Ok? ==> |r.value| == |jobs|
    ensures r.Ok? ==> forall i :: 0 <= i < |jobs| ==> r.value[i] == TrimJob(jobs[i], start, stop)
  {
    var trimmed := [];
    for i := 0 to |jobs|
      invariant |trimmed| == i
      invariant forall k :: 0 <= k < i ==> !EmptyWindow(jobs[k], start, stop) && trimmed[k] == TrimJob(jobs[k], start, stop)
    {
      if EmptyWindow(jobs[i], start, stop) {
        return Err(EmptyStepWindow);
      }
      trimmed := trimmed + [TrimJob(jobs[i], start, stop)];
    }
    return Ok(trimmed);
  }

  ghost predicate TrimmedFrom(kept: seq<Job>, start: FilterTarget, stop: FilterTarget, result: seq<Job>) {
    && |result| == |kept|
    && forall i :: 0 <= i < |kept| ==> !EmptyWindow(kept[i], start, stop) && result[i] == TrimJob(kept[i], start, stop)
  }

  ghost predicate IsWindow(jobs: seq<Job>, start: FilterTarget, stop: FilterTarget, window: set<Name>) {
    forall n :: n in window <==> InWindow(jobs, start, stop, n)
  }

  ghost predicate IsNeed(jobs: seq<Job>, start: FilterTarget, stop: FilterTarget, full: set<Name>) {
    forall n :: n in full <==> Needed(jobs, start, stop, n)
  }

  /** The result of a cut: the needed jobs, trimmed. */
  ghost predicate IsCut(jobs: seq<Job>, start: FilterTarget, stop: FilterTarget, result: seq<Job>) {
    exists full, window ::
      && IsWindow(jobs, start, stop, window)
      && IsNeed(jobs, start, stop, full)
      && TrimmedFrom(Selected(jobs, full, window), start, stop, result)
  }

  method ComputeWindow(jobs: seq<Job>, start: FilterTarget, stop: FilterTarget,
                       dependents: Graph<Name>, dependencies: Graph<Name>) returns (window: set<Name>)
    requires UniqueNames(jobs) && dependents == DependentsGraph(jobs) && dependencies == DepGraph(jobs)
    ensures IsWindow(jobs, start, stop, window)
  {
    var forwardSet: Option<set<Name>>, backwardSet: Option<set<Name>> := None, None;
    if start.job != "" {
      var reached := BfsReachable(start.job, dependents);
      forall n ensures Reaches(dependents, start.job, n) <==> Reaches(dependencies, n, start.job) {
        ForwardIsBackward(jobs, start.job, n);
      }
      forwardSet := Some(reached);
    }
    if stop.job != "" {
      var reached := BfsReachable(stop.job, dependencies);
      backwardSet := Some(reached);
    }
    var both := IntersectSets(forwardSet, backwardSet);
    window := if both.Some? then both.value else {};
  }

  // ---------------------------------------------------------------- when each error is returned

  ghost predicate NoJob(jobs: seq<Job>, t: FilterTarget) {
    t.job != "" && forall j :: j in jobs ==> j.name != t.job
  }

  ghost predicate NoStep(jobs: seq<Job>, t: FilterTarget) {
    && t.job != "" && t.step != "" && !NoJob(jobs, t)
    && forall j, s :: j in jobs && j.name == t.job && s in j.steps ==> s.name != t.step
  }

  predicate Orphaned(t: FilterTarget) {
    t.job == "" && t.step != ""
  }

  ghost predicate Acceptable(jobs: seq<Job>, t: FilterTarget) {
    !Orphaned(t) && !NoJob(jobs, t) && !NoStep(jobs, t)
  }

  /** Some needed job has its stop step in front of its start step. */
  ghost predicate StopsBeforeStart(jobs: seq<Job>, start: FilterTarget, stop: FilterTarget) {
    exists j, k: nat :: j in jobs && Needed(jobs, start, stop, j.name) && NamedBefore(j, start, stop, k)
  }

  ghost predicate NamedBefore(j: Job, start: FilterTarget, stop: FilterTarget, k: nat) {
    k < |j.steps| && NamesStep(j, stop, k) && InFront(j, start, k)
  }

  /** Each error exactly when it is due: the start target is judged before the stop target, both before
      the window, and the window before the steps. */
  ghost predicate Judged(jobs: seq<Job>, start: FilterTarget, stop: FilterTarget, r: Result<seq<Job>, FilterError>) {
    if Orphaned(start) then r == Err(OrphanedStep)
    else if NoJob(jobs, start) then r == Err(UnknownStartAt)
    else if NoStep(jobs, start) then r == Err(UnknownStartAtStep)
    else if Orphaned(stop) then r == Err(OrphanedStep)
    else if NoJob(jobs, stop) then r == Err(UnknownStopAfter)
    else if NoStep(jobs, stop) then r == Err(UnknownStopAfterStep)
    else if forall n :: !InWindow(jobs, start, stop, n) then r == Err(EmptyFilterResult)
    else if StopsBeforeStart(jobs, start, stop) then r == Err(EmptyStepWindow)
    else r.Ok?
  }

  lemma TargetErrorIs(jobs: seq<Job>, t: FilterTarget, errJob: FilterError, errStep: FilterError)
    ensures Orphaned(t) ==> TargetError(jobs, t, errJob, errStep) == Some(OrphanedStep)
    ensures NoJob(jobs, t) ==> TargetError(jobs, t, errJob, errStep) == Some(errJob)
    ensures NoStep(jobs, t) ==> TargetError(jobs, t, errJob, errStep) == Some(errStep)
    ensures Acceptable(jobs, t) ==> TargetError(jobs, t, errJob, errStep).None?
  {
    if HasJob(jobs, t.job) {
      var i :| 0 <= i < |jobs| && jobs[i].name == t.job;
      assert jobs[i] in jobs;
    }
    if j :| j in jobs && j.name == t.job {
      var i :| 0 <= i < |jobs| && jobs[i] == j;
      assert HasJob(jobs, t.job);
    }
    if HasStep(jobs, t) {
      var j :| j in jobs && j.name == t.job && StepIndex(j.steps, t.step) >= 0;
      assert j.steps[StepIndex(j.steps, t.step)] in j.steps;
    }
    if j, s :| j in jobs && j.name == t.job && s in j.steps && s.name == t.step {
      var i :| 0 <= i < |j.steps| && j.steps[i] == s;
      assert StepIndex(j.steps, t.step) >= 0;
    }
  }

  lemma EmptyWindowIs(j: Job, start: FilterTarget, stop: FilterTarget)
    ensures EmptyWindow(j, start, stop) <==> exists k: nat :: NamedBefore(j, start, stop, k)
  {
    if EmptyWindow(j, start, stop) {
      var k: nat := TrimIndex(j, stop);
      IndexPlaces(j, start, k);
      assert NamedBefore(j, start, stop, k);
    }
    if k: nat :| NamedBefore(j, start, stop, k) {
      IndexPlaces(j, start, k);
      var at := TrimIndex(j, stop);
      assert 0 <= at <= k;
    }
  }

  lemma OutcomeIsJudged(jobs: seq<Job>, start: FilterTarget, stop: FilterTarget, r: Result<seq<Job>, FilterError>)
    requires CutOutcome(jobs, start, stop, r)
    ensures Judged(jobs, start, stop, r)
  {
    TargetErrorIs(jobs, start, UnknownStartAt, UnknownStartAtStep);
    TargetErrorIs(jobs, stop, UnknownStopAfter, UnknownStopAfterStep);
    forall j ensures EmptyWindow(j, start, stop) <==> exists k: nat :: NamedBefore(j, start, stop, k) {
      EmptyWindowIs(j, start, stop);
    }
  }

  /** FilterJobs on jobs with distinct names. */
  method FilterJobs(jobs: seq<Job>, startAt: string, stopAfter: string) returns (r: Result<seq<Job>, FilterError>)
    requires UniqueNames(jobs)
    ensures startAt == "" && stopAfter == "" ==> r == Ok(jobs)
    ensures !(startAt == "" && stopAfter == "") ==>
      exists start, stop ::
        && ParsesTo(startAt, start) && ParsesTo(stopAfter, stop)
        && CutOutcome(jobs, start, stop, r) && Judged(jobs, start, stop, r)
  {
    if startAt == "" && stopAfter == "" {
      return Ok(jobs);
    }
    var start := ParseFilterTarget(startAt);
    var stop := ParseFilterTarget(stopAfter);
    r := CutJobs(jobs, start, stop);
  }

  /** When each error is returned, and what is returned without one. */
  ghost predicate CutOutcome(jobs: seq<Job>, start: FilterTarget, stop: FilterTarget, r: Result<seq<Job>, FilterError>) {
    var badStart := TargetError(jobs, start, UnknownStartAt, UnknownStartAtStep);
    var badStop := TargetError(jobs, stop, UnknownStopAfter, UnknownStopAfterStep);
    if badStart.Some? then r == Err(badStart.value)
    else if badStop.Some? then r == Err(badStop.value)
    else if !exists n :: InWindow(jobs, start, stop, n) then r == Err(EmptyFilterResult)
    else if exists j :: j in jobs && Needed(jobs, start, stop, j.name) && EmptyWindow(j, start, stop) then
      r == Err(EmptyStepWindow)
    else r.Ok? && IsCut(jobs, start, stop, r.value)
  }

  method CutJobs(jobs: seq<Job>, start: FilterTarget, stop: FilterTarget) returns (r: Result<seq<Job>, FilterError>)
    requires UniqueNames(jobs)
    ensures CutOutcome(jobs, start, stop, r) && Judged(jobs, start, stop, r)
  {
    r := CutToTargets(jobs, start, stop);
    OutcomeIsJudged(jobs, start, stop, r);
  }

  method CutToTargets(jobs: seq<Job>, start: FilterTarget, stop: FilterTarget) returns (r: Result<seq<Job>, FilterError>)
    requires UniqueNames(jobs)
    ensures CutOutcome(jobs, start, stop, r)
  {
    var dependents, dependencies := BuildJobAdj(jobs);
    var bad := TargetError(jobs, start, UnknownStartAt, UnknownStartAtStep);
    if bad.Some? {
      return Err(bad.value);
    }
    bad := TargetError(jobs, stop, UnknownStopAfter, UnknownStopAfterStep);
    if bad.Some? {
      return Err(bad.value);
    }
    var window := ComputeWindow(jobs, start, stop, dependents, dependencies);
    if window == {} {
      return Err(EmptyFilterResult);
    }
    var full := CloseOverDeps(window, dependencies);
    var kept := SelectJobs(jobs, full, window);
    assert IsNeed(jobs, start, stop, full) by {
      assert forall n :: InClosure(dependencies, window, n) <==> Needed(jobs, start, stop, n);
    }
    r := TrimJobs(kept, start, stop);
    KeptWindows(jobs, full, window, start, stop);
    if r.Ok? {
      assert IsCut(jobs, start, stop, r.value);
    }
  }

  lemma {:induction false} StripKeepsIndex(steps: seq<Step>, name: Name)
    ensures StepIndex(StripExports(steps), name) == StepIndex(steps, name)
  {
    if steps != [] {
      StripKeepsIndex(steps[1..], name);
      assert StripExports(steps)[1..] == StripExports(steps[1..]);
    }
  }

  function Bared(j: Job, inside: bool): Job {
    if inside then j else StripJob(j)
  }

  /** The member of the selection that a needed job becomes. */
  function Shown(j: Job, window: set<Name>): Job {
    Bared(j, j.name in window)
  }

  lemma {:induction false} SelectedMembers(jobs: seq<Job>, full: set<Name>, window: set<Name>, x: Job)
    ensures x in Selected(jobs, full, window) <==> exists j :: j in jobs && j.name in full && x == Shown(j, window)
  {
    if jobs != [] {
      var front, last := jobs[..|jobs| - 1], jobs[|jobs| - 1];
      SelectedMembers(front, full, window, x);
      assert jobs == front + [last];
    }
  }

  lemma ShownWindow(j: Job, window: set<Name>, start: FilterTarget, stop: FilterTarget)
    ensures EmptyWindow(Shown(j, window), start, stop) <==> EmptyWindow(j, start, stop)
  {
    StripKeepsIndex(j.steps, start.step);
    StripKeepsIndex(j.steps, stop.step);
  }

  lemma KeptWindows(jobs: seq<Job>, full: set<Name>, window: set<Name>, start: FilterTarget, stop: FilterTarget)
    ensures (exists x :: x in Selected(jobs, full, window) && EmptyWindow(x, start, stop))
      <==> (exists j :: j in jobs && j.name in full && EmptyWindow(j, start, stop))
  {
    if x :| x in Selected(jobs, full, window) && EmptyWindow(x, start, stop) {
      SelectedMembers(jobs, full, window, x);
      var j :| j in jobs && j.name in full && x == Shown(j, window);
      ShownWindow(j, window, start, stop);
    }
    if j :| j in jobs && j.name in full && EmptyWindow(j, start, stop) {
      SelectedMembers(jobs, full, window, Shown(j, window));
      ShownWindow(j, window, start, stop);
    }
  }

  function Names(jobs: seq<Job>): seq<Name> {
    seq(|jobs|, i requires 0 <= i < |jobs| => jobs[i].name)
  }

  /** The job names for which keep holds, in slice order. */
  ghost function NamesWhere(jobs: seq<Job>, keep: Name -> bool): seq<Name> {
    if jobs == [] then []
    else var last := jobs[|jobs| - 1].name; NamesWhere(jobs[..|jobs| - 1], keep) + if keep(last) then [last] else []
  }

  lemma {:induction false} SelectedInOrder(jobs: seq<Job>, full: set<Name>, window: set<Name>, keep: Name -> bool)
    requires forall n :: n in full <==> keep(n)
    ensures Names(Selected(jobs, full, window)) == NamesWhere(jobs, keep)
  {
    if jobs != [] {
      SelectedInOrder(jobs[..|jobs| - 1], full, window, keep);
    }
  }

  ghost function NeededIn(jobs: seq<Job>, start: FilterTarget, stop: FilterTarget): Name -> bool {
    n => Needed(jobs, start, stop, n)
  }

  ghost predicate NamesStep(j: Job, t: FilterTarget, k: nat)
    requires k < |j.steps|
  {
    t.step != "" && j.name == t.job && j.steps[k].name == t.step
  }

  /** Step i of j comes behind the step the target names. */
  ghost predicate Behind(j: Job, t: FilterTarget, i: nat)
    requires i < |j.steps|
  {
    exists k: nat :: k < i && NamesStep(j, t, k)
  }

  /** Step i of j comes in front of the step the target names. */
  ghost predicate InFront(j: Job, t: FilterTarget, i: nat)
    requires i < |j.steps|
  {
    && (exists k: nat :: k < |j.steps| && NamesStep(j, t, k))
    && (forall k: nat :: k <= i ==> !NamesStep(j, t, k))
  }

  lemma IndexPlaces(j: Job, t: FilterTarget, i: nat)
    requires i < |j.steps|
    ensures Behind(j, t, i) <==> 0 <= TrimIndex(j, t) < i
    ensures InFront(j, t, i) <==> i < TrimIndex(j, t)
  {
    var at := TrimIndex(j, t);
    assert at >= 0 ==> NamesStep(j, t, at);
    assert forall k: nat :: k < |j.steps| && NamesStep(j, t, k) ==> 0 <= at <= k;
  }

  /** The steps kept of j are those not behind the one named by stop-after. They lose their exports in
      front of the one named by start-at, and everywhere in a job outside the window. */
  ghost predicate StepsCut(j: Job, inside: bool, start: FilterTarget, stop: FilterTarget, steps: seq<Step>) {
    && |steps| <= |j.steps|
    && (forall i :: 0 <= i < |j.steps| ==> (i < |steps| <==> !Behind(j, stop, i)))
    && (forall i :: 0 <= i < |steps| ==>
          steps[i] == if inside && !InFront(j, start, i) then j.steps[i] else j.steps[i].(exports := []))
  }

  /** The steps TrimJob leaves, position by position. */
  lemma TrimmedAt(x: Job, start: FilterTarget, stop: FilterTarget, i: nat)
    requires !EmptyWindow(x, start, stop) && i < |x.steps|
    ensures var steps := TrimJob(x, start, stop).steps;
      && |steps| <= |x.steps|
      && (i < |steps| <==> !(0 <= TrimIndex(x, stop) < i))
      && (i < |steps| ==> steps[i] == if i < TrimIndex(x, start) then x.steps[i].(exports := []) else x.steps[i])
  {
  }

  lemma BaredIndex(j: Job, inside: bool, t: FilterTarget)
    ensures TrimIndex(Bared(j, inside), t) == TrimIndex(j, t)
  {
    StripKeepsIndex(j.steps, t.step);
  }

  lemma TrimCuts(j: Job, inside: bool, start: FilterTarget, stop: FilterTarget)
    requires !EmptyWindow(Bared(j, inside), start, stop)
    ensures StepsCut(j, inside, start, stop, TrimJob(Bared(j, inside), start, stop).steps)
  {
    var x := Bared(j, inside);
    var steps := TrimJob(x, start, stop).steps;
    assert |steps| <= |j.steps|;
    forall i: nat | i < |j.steps|
      ensures i < |steps| <==> !Behind(j, stop, i)
      ensures i < |steps| ==> steps[i] == if inside && !InFront(j, start, i) then j.steps[i] else j.steps[i].(exports := [])
    {
      TrimmedAt(x, start, stop, i);
      BaredIndex(j, inside, start);
      BaredIndex(j, inside, stop);
      IndexPlaces(j, stop, i);
      IndexPlaces(j, start, i);
    }
  }

  lemma TrimmedShown(jobs: seq<Job>, start: FilterTarget, stop: FilterTarget, window: set<Name>, j: Job)
    requires IsWindow(jobs, start, stop, window) && Needed(jobs, start, stop, j.name)
    requires !EmptyWindow(Shown(j, window), start, stop)
    ensures CutFrom(jobs, start, stop, j, TrimJob(Shown(j, window), start, stop))
  {
    TrimCuts(j, j.name in window, start, stop);
  }

  lemma CutOrigins(jobs: seq<Job>, start: FilterTarget, stop: FilterTarget, full: set<Name>, window: set<Name>, result: seq<Job>)
    requires IsWindow(jobs, start, stop, window) && IsNeed(jobs, start, stop, full)
    requires TrimmedFrom(Selected(jobs, full, window), start, stop, result)
    ensures forall r :: r in result ==> exists j :: j in jobs && CutFrom(jobs, start, stop, j, r)
    ensures forall j :: j in jobs && Needed(jobs, start, stop, j.name) ==>
      exists r :: r in result && CutFrom(jobs, start, stop, j, r)
  {
    var kept := Selected(jobs, full, window);
    forall r | r in result ensures exists j :: j in jobs && CutFrom(jobs, start, stop, j, r) {
      var i :| 0 <= i < |result| && result[i] == r;
      SelectedMembers(jobs, full, window, kept[i]);
      var j :| j in jobs && j.name in full && kept[i] == Shown(j, window);
      TrimmedShown(jobs, start, stop, window, j);
    }
    forall j | j in jobs && Needed(jobs, start, stop, j.name)
      ensures exists r :: r in result && CutFrom(jobs, start, stop, j, r)
    {
      SelectedMembers(jobs, full, window, Shown(j, window));
      var i :| 0 <= i < |kept| && kept[i] == Shown(j, window);
      TrimmedShown(jobs, start, stop, window, j);
      assert result[i] in result;
    }
  }

  /** A cut keeps exactly the needed jobs, in slice order; it is closed under dependencies; exports and
      publish survive exactly in the execution window; the kept steps and their exports are exactly
      those the step targets leave; and nothing else of a job changes. */
  lemma CutIsExact(jobs: seq<Job>, start: FilterTarget, stop: FilterTarget, result: seq<Job>)
    requires UniqueNames(jobs) && IsCut(jobs, start, stop, result)
    ensures Names(result) == NamesWhere(jobs, NeededIn(jobs, start, stop))
    ensures forall r :: r in result ==> exists j :: j in jobs && CutFrom(jobs, start, stop, j, r)
    ensures forall j :: j in jobs && Needed(jobs, start, stop, j.name) ==>
      exists r :: r in result && CutFrom(jobs, start, stop, j, r)
    ensures forall r, d :: r in result && d in r.deps && HasJob(jobs, d) ==> exists s :: s in result && s.name == d
  {
    var full, window :|
      && IsWindow(jobs, start, stop, window)
      && IsNeed(jobs, start, stop, full)
      && TrimmedFrom(Selected(jobs, full, window), start, stop, result);
    SelectedInOrder(jobs, full, window, NeededIn(jobs, start, stop));
    assert Names(result) == Names(Selected(jobs, full, window));
    CutOrigins(jobs, start, stop, full, window, result);
    forall r, d | r in result && d in r.deps && HasJob(jobs, d) ensures exists s :: s in result && s.name == d {
      NeededDep(jobs, start, stop, r, d);
    }
  }

  /** r is what the cut makes of the needed job j: exports and publish only inside the window, the
      steps as cut, and everything else as it was. */
  ghost predicate CutFrom(jobs: seq<Job>, start: FilterTarget, stop: FilterTarget, j: Job, r: Job) {
    var inside := InWindow(jobs, start, stop, j.name);
    && Needed(jobs, start, stop, j.name)
    && StepsCut(j, inside, start, stop, r.steps)
    && r == j.(exports := if inside then j.exports else [], publish := if inside then j.publish else None, steps := r.steps)
  }

  lemma NeededDep(jobs: seq<Job>, start: FilterTarget, stop: FilterTarget, r: Job, d: Name)
    requires UniqueNames(jobs) && HasJob(jobs, d) && d in r.deps
    requires exists j :: j in jobs && CutFrom(jobs, start, stop, j, r)
    ensures Needed(jobs, start, stop, d) && exists j :: j in jobs && j.name == d
  {
    var j :| j in jobs && CutFrom(jobs, start, stop, j, r);
    var w :| InWindow(jobs, start, stop, w) && Reaches(DepGraph(jobs), w, j.name);
    EdgeIffDep(jobs, j.name, d);
    ReachesEdge(DepGraph(jobs), j.name, d);
    ReachesTrans(DepGraph(jobs), w, j.name, d);
    var k :| 0 <= k < |jobs| && jobs[k].name == d;
    assert jobs[k] in jobs;
  }
}
