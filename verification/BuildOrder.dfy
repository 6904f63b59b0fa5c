/** Building jobs in a cached topological order, or else in a fresh one. */
module BuildOrder {
  // The order in which the builder turns jobs into build definitions: a cached topological order is
  // reused if it is a permutation, and each job must find its dependencies already built.

  import opened Prelude
  import opened PipelineModel
  import opened Validate

  /** validOrder: as many entries as jobs, all in range, none repeated. */
  method ValidOrder(order: seq<int>, n: nat) returns (ok: bool)
    ensures ok <==> IsPermutation(order, n)
  {
    if |order| != n {
      return false;
    }
    var seen := new bool[n](i => false);
    for k := 0 to |order|
      invariant InRange(order[..k], n) && Distinct(order[..k])
      invariant forall i :: 0 <= i < n ==> (seen[i] <==> i in order[..k])
    {
      var idx := order[k];
      assert order[..k + 1] == order[..k] + [idx];
      assert order[..k + 1][k] == idx && order[k] in order[..k + 1];
      if idx < 0 || idx >= n {
        return false;
      }
      if seen[idx] {
        assert exists m :: 0 <= m < k && order[m] == order[k];
        return false;
      }
      seen[idx] := true;
    }
    assert order[..|order|] == order;
    return true;
  }

  // ---------------------------------------------------------------- building in order

  predicate SourcesBuilt(artifacts: seq<Artifact>, states: set<Name>) {
    forall i :: 0 <= i < |artifacts| ==> artifacts[i].from in states
  }

  /** Everything the job copies from or mounts has a state. */
  predicate CanBuild(j: Job, states: set<Name>) {
    && SourcesBuilt(j.artifacts, states)
    && (forall i :: 0 <= i < |j.deps| ==> j.deps[i] in states)
    && (forall i :: 0 <= i < |j.steps| ==> SourcesBuilt(j.steps[i].artifacts, states))
  }

  method CheckSources(artifacts: seq<Artifact>, states: set<Name>) returns (missing: Option<Name>)
    ensures missing.None? <==> SourcesBuilt(artifacts, states)
  {
    for i := 0 to |artifacts|
      invariant SourcesBuilt(artifacts[..i], states)
    {
      if artifacts[i].from !in states {
        return Some(artifacts[i].from);
      }
    }
    assert artifacts[..|artifacts|] == artifacts;
    missing := None;
  }

  /** The lookups of buildJob: job artifacts, then dependency mounts, then step artifacts. */
  method CheckJob(j: Job, states: set<Name>) returns (missing: Option<Name>)
    ensures missing.None? <==> CanBuild(j, states)
  {
    missing := CheckSources(j.artifacts, states);
    if missing.Some? {
      return;
    }
    for i := 0 to |j.deps|
      invariant forall k :: 0 <= k < i ==> j.deps[k] in states
    {
      if j.deps[i] !in states {
        return Some(j.deps[i]);
      }
    }
    for i := 0 to |j.steps|
      invariant forall k :: 0 <= k < i ==> SourcesBuilt(j.steps[k].artifacts, states)
    {
      missing := CheckSources(j.steps[i].artifacts, states);
      if missing.Some? {
        return;
      }
    }
    missing := None;
  }

  /** The names of the first n jobs in order. */
  ghost function BuiltBefore(jobs: seq<Job>, order: seq<nat>, n: nat): set<Name>
    requires n <= |order| && forall k :: 0 <= k < |order| ==> order[k] < |jobs|
  {
    set k | 0 <= k < n :: jobs[order[k]].name
  }

  ghost predicate BuildsAll(jobs: seq<Job>, order: seq<nat>)
    requires forall k :: 0 <= k < |order| ==> order[k] < |jobs|
  {
    forall k :: 0 <= k < |order| ==> CanBuild(jobs[order[k]], BuiltBefore(jobs, order, k))
  }

  /** The job loop of Build, given an order. */
  method BuildInOrder(jobs: seq<Job>, order: seq<nat>) returns (r: Result<seq<Name>, Name>)
    requires forall k :: 0 <= k < |order| ==> order[k] < |jobs|
    ensures r.Ok? <==> BuildsAll(jobs, order)
    ensures r.Ok? ==> |r.value| == |order| && forall k :: 0 <= k < |order| ==> r.value[k] == jobs[order[k]].name
  {
    var states: set<Name>, names: seq<Name> := {}, [];
    for k := 0 to |order|
      invariant states == BuiltBefore(jobs, order, k)
      invariant |names| == k && forall m :: 0 <= m < k ==> names[m] == jobs[order[m]].name
      invariant forall m :: 0 <= m < k ==> CanBuild(jobs[order[m]], BuiltBefore(jobs, order, m))
    {
      var j := jobs[order[k]];
      var missing := CheckJob(j, states);
      if missing.Some? {
        return Err(missing.value);
      }
      states := states + {j.name};
      names := names + [j.name];
    }
    return Ok(names);
  }

  /** Building in an order succeeds only if the order is topological, and, where artifacts come from
      dependencies, exactly then: a stale cached order never builds a job before its dependencies. */
  lemma BuildsIffTopological(jobs: seq<Job>, order: seq<nat>)
    requires |order| == |jobs| && Distinct(order) && forall k :: 0 <= k < |order| ==> order[k] < |jobs|
    ensures BuildsAll(jobs, order) ==> TopoOrder(jobs, order)
    ensures (forall i :: 0 <= i < |jobs| ==> ArtifactsFromDeps(jobs[i])) && TopoOrder(jobs, order) ==> BuildsAll(jobs, order)
  {
    forall k | 0 <= k < |order|
      ensures CanBuild(jobs[order[k]], BuiltBefore(jobs, order, k)) ==> DepsBefore(jobs, order, k)
      ensures ArtifactsFromDeps(jobs[order[k]]) && DepsBefore(jobs, order, k) ==>
        CanBuild(jobs[order[k]], BuiltBefore(jobs, order, k))
    {
      BuildsIffDepsBefore(jobs, order, k);
    }
  }

  lemma BuildsIffDepsBefore(jobs: seq<Job>, order: seq<nat>, k: nat)
    requires k < |order| && forall k :: 0 <= k < |order| ==> order[k] < |jobs|
    ensures CanBuild(jobs[order[k]], BuiltBefore(jobs, order, k)) ==> DepsBefore(jobs, order, k)
    ensures ArtifactsFromDeps(jobs[order[k]]) && DepsBefore(jobs, order, k) ==>
      CanBuild(jobs[order[k]], BuiltBefore(jobs, order, k))
  {
    var j, states := jobs[order[k]], BuiltBefore(jobs, order, k);
    forall d ensures d in states <==> exists m :: 0 <= m < k && jobs[order[m]].name == d {
    }
    assert DepsBefore(jobs, order, k) <==> forall d :: d in j.deps ==> d in states;
    if ArtifactsFromDeps(j) && forall d :: d in j.deps ==> d in states {
      forall i | 0 <= i < |j.artifacts| ensures j.artifacts[i].from in states {
        assert j.artifacts[i] in j.artifacts;
      }
      forall i | 0 <= i < |j.steps| ensures SourcesBuilt(j.steps[i].artifacts, states) {
        assert j.steps[i] in j.steps;
        forall n | 0 <= n < |j.steps[i].artifacts| ensures j.steps[i].artifacts[n].from in states {
          assert j.steps[i].artifacts[n] in j.steps[i].artifacts;
        }
      }
    }
  }

  /** In a build that goes through, whatever a job or one of its steps copies from is built before it. */
  lemma SourcesComeFirst(jobs: seq<Job>, order: seq<nat>, k: nat, n: Name)
    requires (forall k :: 0 <= k < |order| ==> order[k] < |jobs|) && BuildsAll(jobs, order) && k < |order|
    requires n in jobs[order[k]].deps || SourceOf(jobs[order[k]], n)
    ensures exists m :: 0 <= m < k && jobs[order[m]].name == n
  {
    var j := jobs[order[k]];
    assert CanBuild(j, BuiltBefore(jobs, order, k));
    assert n in BuiltBefore(jobs, order, k);
  }

  function Nats(order: seq<int>): (r: seq<nat>)
    requires forall k :: 0 <= k < |order| ==> order[k] >= 0
    ensures |r| == |order| && forall k :: 0 <= k < |r| ==> r[k] == order[k]
  {
    seq(|order|, k requires 0 <= k < |order| && order[k] >= 0 => order[k])
  }

  /** Build: reuses the cached order if it is a permutation of the jobs, otherwise validates. Either
      way jobs come out in an order in which each follows its dependencies; a cached permutation
      that is not such an order makes the build fail. */
  method Build(jobs: seq<Job>, cached: seq<int>) returns (names: Option<seq<Name>>, ghost order: seq<nat>)
    ensures IsPermutation(cached, |jobs|) ==> (names.Some? <==> BuildsAll(jobs, Nats(cached)))
    ensures !IsPermutation(cached, |jobs|) ==> (names.Some? <==> WellFormedJobs(jobs))
    ensures names.Some? ==> TopoOrder(jobs, order) && |names.value| == |jobs|
    ensures names.Some? ==> forall k :: 0 <= k < |jobs| ==> names.value[k] == jobs[order[k]].name
  {
    var used: seq<nat>;
    var reuse := ValidOrder(cached, |jobs|);
    if reuse {
      used := Nats(cached);
    } else {
      var v := ValidateJobs(jobs);
      if v.Err? {
        return None, [];
      }
      used := v.value;
    }
    var built := BuildInOrder(jobs, used);
    BuildsIffTopological(jobs, used);
    if built.Err? {
      return None, used;
    }
    return Some(built.value), used;
  }
}
