/** Display layers: the length of a job's longest dependency chain. */
module Layers {
  import opened Prelude
  import opened Graphs
  import opened PipelineModel
  import opened Validate

  /** Some chain of d dependencies starts at n, and none is longer. */
  ghost predicate LongestChain(jobs: seq<Job>, n: Name, d: nat) {
    && (exists p :: IsPath(DepGraph(jobs), p) && p[0] == n && |p| == d + 1)
    && (forall p :: IsPath(DepGraph(jobs), p) && p[0] == n ==> |p| <= d + 1)
  }

  lemma LongestChainIsUnique(jobs: seq<Job>, n: Name, d: nat, e: nat)
    requires LongestChain(jobs, n, d) && LongestChain(jobs, n, e)
    ensures d == e
  {
  }

  /** One more than the deepest dependency, or 0 without dependencies, is again a longest chain. */
  lemma LongestChainStep(jobs: seq<Job>, index: map<Name, nat>, i: nat, depths: seq<nat>, d: nat)
    requires IsIndex(jobs, index) && i < |jobs| && |depths| == |jobs|
    requires forall x :: x in jobs[i].deps ==> x in index && LongestChain(jobs, x, depths[index[x]])
    requires forall x :: x in jobs[i].deps ==> depths[index[x]] + 1 <= d
    requires d == 0 || exists x :: x in jobs[i].deps && d == depths[index[x]] + 1
    ensures LongestChain(jobs, jobs[i].name, d)
  {
    var g, n := DepGraph(jobs), jobs[i].name;
    IndexedGraph(jobs, index, i);
    if d == 0 {
      assert IsPath(g, [n]) && [n][0] == n;
    } else {
      var x :| x in jobs[i].deps && d == depths[index[x]] + 1;
      var p :| IsPath(g, p) && p[0] == x && |p| == d;
      var q := [n] + p;
      assert q[1..] == p && Edge(g, n, x);
      assert IsPath(g, q) && q[0] == n && |q| == d + 1;
    }
    forall p | IsPath(g, p) && p[0] == n ensures |p| <= d + 1 {
      if |p| > 1 {
        assert IsPath(g, p[1..]) && p[1..][0] in jobs[i].deps;
      }
    }
  }

  /** A job of positive depth depends on a job exactly one layer below. */
  lemma ChainBelow(jobs: seq<Job>, index: map<Name, nat>, i: nat, depths: seq<nat>)
    requires IsIndex(jobs, index) && i < |jobs| && AreDepths(jobs, depths) && DepsKnown(jobs)
    requires depths[i] > 0
    ensures exists k :: 0 <= k < |jobs| && jobs[k].name in jobs[i].deps && depths[k] == depths[i] - 1
  {
    var g := DepGraph(jobs);
    IndexedGraph(jobs, index, i);
    assert LongestChain(jobs, jobs[i].name, depths[i]);
    var p :| IsPath(g, p) && p[0] == jobs[i].name && |p| == depths[i] + 1;
    assert p[1] in jobs[i].deps && p[1] in index;
    var k := index[p[1]];
    assert LongestChain(jobs, jobs[k].name, depths[k]);
    assert IsPath(g, p[1..]) && p[1..][0] == jobs[k].name;
    assert |p[1..]| <= depths[k] + 1;
    var q :| IsPath(g, q) && q[0] == jobs[k].name && |q| == depths[k] + 1;
    var longer := [jobs[i].name] + q;
    assert longer[1..] == q && IsPath(g, longer) && longer[0] == jobs[i].name;
  }

  ghost predicate AreDepths(jobs: seq<Job>, depths: seq<nat>) {
    |depths| == |jobs| && forall i :: 0 <= i < |jobs| ==> LongestChain(jobs, jobs[i].name, depths[i])
  }

  /** The indices whose depth is l, in ascending order. */
  function Group(depths: seq<nat>, l: nat): seq<nat> {
    if depths == [] then []
    else var k := |depths| - 1; Group(depths[..k], l) + if depths[k] == l then [k] else []
  }

  lemma {:induction false} GroupMembers(depths: seq<nat>, l: nat)
    ensures forall i: nat :: i in Group(depths, l) <==> i < |depths| && depths[i] == l
    ensures Distinct(Group(depths, l))
    ensures forall i, k :: 0 <= i < k < |Group(depths, l)| ==> Group(depths, l)[i] < Group(depths, l)[k]
  {
    if depths != [] {
      var front := depths[..|depths| - 1];
      GroupMembers(front, l);
      assert forall i: nat :: i < |front| ==> front[i] == depths[i];
      var before := Group(front, l);
      forall i | 0 <= i < |before| ensures before[i] < |front| {
        assert before[i] in before;
      }
    }
  }

  /** d is one more than the greatest depth of the names, or 0 without names. */
  ghost predicate JustAbove(depths: seq<nat>, index: map<Name, nat>, names: seq<Name>, d: nat)
    requires forall x :: x in names ==> x in index && index[x] < |depths|
  {
    && (forall x :: x in names ==> depths[index[x]] + 1 <= d)
    && (d == 0 || exists x :: x in names && d == depths[index[x]] + 1)
  }

  lemma JustAboveMore(depths: seq<nat>, index: map<Name, nat>, names: seq<Name>, x: Name, d: nat)
    requires (forall y :: y in names ==> y in index && index[y] < |depths|) && x in index && index[x] < |depths|
    requires JustAbove(depths, index, names, d)
    ensures JustAbove(depths, index, names + [x], if depths[index[x]] + 1 > d then depths[index[x]] + 1 else d)
  {
    assert x in names + [x];
    if d != 0 {
      var y :| y in names && d == depths[index[y]] + 1;
      assert y in names + [x];
    }
  }

  /** The inner loop: raises the depth of one job above each of its dependencies. */
  method RaiseDepth(jobs: seq<Job>, nameToIdx: map<Name, nat>, idx: nat, depths: array<nat>)
    requires IsIndex(jobs, nameToIdx) && idx < |jobs| == depths.Length && depths[idx] == 0
    requires forall x :: x in jobs[idx].deps ==> x in nameToIdx && nameToIdx[x] != idx
    requires forall x :: x in jobs[idx].deps ==> LongestChain(jobs, x, depths[nameToIdx[x]])
    modifies depths
    ensures forall i :: 0 <= i < |jobs| && i != idx ==> depths[i] == old(depths[i])
    ensures LongestChain(jobs, jobs[idx].name, depths[idx])
  {
    var deps := jobs[idx].deps;
    ghost var before := depths[..];
    for k := 0 to |deps|
      invariant forall i :: 0 <= i < |jobs| && i != idx ==> depths[i] == before[i]
      invariant JustAbove(before, nameToIdx, deps[..k], depths[idx])
    {
      JustAboveMore(before, nameToIdx, deps[..k], deps[k], depths[idx]);
      assert deps[..k + 1] == deps[..k] + [deps[k]];
      if deps[k] in nameToIdx {
        var di := nameToIdx[deps[k]];
        if depths[di] + 1 > depths[idx] {
          depths[idx] := depths[di] + 1;
        }
      }
    }
    assert deps[..|deps|] == deps;
    LongestChainStep(jobs, nameToIdx, idx, before, depths[idx]);
  }

  method ComputeDepths(jobs: seq<Job>, topoOrder: seq<nat>, nameToIdx: map<Name, nat>) returns (depths: array<nat>)
    requires IsIndex(jobs, nameToIdx) && TopoOrder(jobs, topoOrder)
    ensures fresh(depths) && AreDepths(jobs, depths[..])
  {
    depths := new nat[|jobs|](i => 0);
    for t := 0 to |topoOrder|
      invariant forall i :: 0 <= i < |jobs| && i !in topoOrder[..t] ==> depths[i] == 0
      invariant forall i :: i in topoOrder[..t] ==> LongestChain(jobs, jobs[i].name, depths[i])
    {
      var idx := topoOrder[t];
      assert idx !in topoOrder[..t];
      DepsComeEarlier(jobs, nameToIdx, topoOrder, t);
      RaiseDepth(jobs, nameToIdx, idx, depths);
      assert topoOrder[..t + 1] == topoOrder[..t] + [idx];
    }
    assert topoOrder[..|topoOrder|] == topoOrder;
    OrderListsAll(jobs, topoOrder);
  }

  lemma OrderListsAll(jobs: seq<Job>, order: seq<nat>)
    requires TopoOrder(jobs, order)
    ensures forall i :: 0 <= i < |jobs| ==> i in order
  {
    forall i | 0 <= i < |jobs| ensures i in order {
      PermutationIsComplete(order, |jobs|, i);
    }
  }

  lemma DepsComeEarlier(jobs: seq<Job>, index: map<Name, nat>, order: seq<nat>, t: nat)
    requires IsIndex(jobs, index) && TopoOrder(jobs, order) && t < |order|
    ensures forall x :: x in jobs[order[t]].deps ==> x in index && index[x] in order[..t]
  {
    assert DepsBefore(jobs, order, t);
    forall x | x in jobs[order[t]].deps ensures x in index && index[x] in order[..t] {
      var m :| 0 <= m < t && jobs[order[m]].name == x;
      assert order[..t][m] == index[x];
    }
  }

  method GroupByDepth(depths: seq<nat>) returns (grouped: seq<seq<nat>>)
    requires depths != []
    ensures |grouped| > 0 && forall l :: 0 <= l < |grouped| ==> grouped[l] == Group(depths, l)
    ensures forall i :: 0 <= i < |depths| ==> depths[i] < |grouped|
    ensures exists i :: 0 <= i < |depths| && depths[i] == |grouped| - 1
  {
    var maxDepth := depths[0];
    for i := 1 to |depths|
      invariant forall k :: 0 <= k < i ==> depths[k] <= maxDepth
      invariant exists k :: 0 <= k < i && depths[k] == maxDepth
    {
      if depths[i] > maxDepth {
        maxDepth := depths[i];
      }
    }
    var layers := new seq<nat>[maxDepth + 1](l => []);
    for i := 0 to |depths|
      invariant forall l :: 0 <= l <= maxDepth ==> layers[l] == Group(depths[..i], l)
    {
      var next := depths[..i + 1];
      assert next[..i] == depths[..i];
      layers[depths[i]] := layers[depths[i]] + [i];
    }
    assert depths[..|depths|] == depths;
    grouped := layers[..];
  }

  /** Over a topological order, layer l lists exactly the jobs whose longest dependency chain has l
      links; without an order all jobs land in one layer. */
  method BuildLayers(jobs: seq<Job>, topoOrder: seq<nat>, nameToIdx: map<Name, nat>) returns (layers: seq<seq<nat>>)
    requires IsIndex(jobs, nameToIdx)
    requires topoOrder == [] || TopoOrder(jobs, topoOrder)
    ensures jobs == [] ==> layers == []
    ensures jobs != [] && topoOrder == [] ==> layers == [seq(|jobs|, i => i)]
    ensures jobs != [] && topoOrder != [] ==> exists depths :: AreLayers(jobs, depths, layers)
  {
    if jobs == [] {
      return [];
    }
    if topoOrder == [] {
      return [seq(|jobs|, i => i)];
    }
    var depths := ComputeDepths(jobs, topoOrder, nameToIdx);
    layers := GroupByDepth(depths[..]);
    assert AreLayers(jobs, depths[..], layers);
  }

  ghost predicate AreLayers(jobs: seq<Job>, depths: seq<nat>, layers: seq<seq<nat>>) {
    && AreDepths(jobs, depths)
    && (forall l :: 0 <= l < |layers| ==> layers[l] == Group(depths, l))
    && (forall i :: 0 <= i < |jobs| ==> depths[i] < |layers|)
    && |layers| > 0 && exists i :: 0 <= i < |jobs| && depths[i] == |layers| - 1
  }

  lemma {:induction false} EveryDepthOccurs(jobs: seq<Job>, index: map<Name, nat>, depths: seq<nat>, i: nat, l: nat)
    requires IsIndex(jobs, index) && DepsKnown(jobs) && AreDepths(jobs, depths)
    requires i < |jobs| && l <= depths[i]
    ensures exists k :: 0 <= k < |jobs| && depths[k] == l
    decreases depths[i]
  {
    if l < depths[i] {
      ChainBelow(jobs, index, i, depths);
      var k :| 0 <= k < |jobs| && jobs[k].name in jobs[i].deps && depths[k] == depths[i] - 1;
      EveryDepthOccurs(jobs, index, depths, k, l);
    }
  }

  lemma LayersAreNonEmpty(jobs: seq<Job>, index: map<Name, nat>, depths: seq<nat>, layers: seq<seq<nat>>, l: nat)
    requires IsIndex(jobs, index) && DepsKnown(jobs) && AreLayers(jobs, depths, layers) && l < |layers|
    ensures layers[l] != []
  {
    var top :| 0 <= top < |jobs| && depths[top] == |layers| - 1;
    EveryDepthOccurs(jobs, index, depths, top, l);
    GroupMembers(depths, l);
  }

  /** The layers partition the jobs, none is empty, and every dependency lies strictly below. */
  lemma LayersAreStrict(jobs: seq<Job>, index: map<Name, nat>, depths: seq<nat>, layers: seq<seq<nat>>)
    requires IsIndex(jobs, index) && DepsKnown(jobs) && AreLayers(jobs, depths, layers)
    ensures forall l, i: nat :: 0 <= l < |layers| ==> (i in layers[l] <==> i < |jobs| && depths[i] == l)
    ensures forall l :: 0 <= l < |layers| ==> layers[l] != [] && Distinct(layers[l])
    ensures forall i, k :: 0 <= i < |jobs| && 0 <= k < |jobs| && jobs[k].name in jobs[i].deps ==> depths[k] < depths[i]
  {
    forall l | 0 <= l < |layers|
      ensures layers[l] != [] && Distinct(layers[l])
      ensures forall i: nat :: i in layers[l] <==> i < |jobs| && depths[i] == l
    {
      GroupMembers(depths, l);
      LayersAreNonEmpty(jobs, index, depths, layers, l);
    }
    forall i, k | 0 <= i < |jobs| && 0 <= k < |jobs| && jobs[k].name in jobs[i].deps
      ensures depths[k] < depths[i]
    {
      DepIsLower(jobs, index, depths, i, k);
    }
  }

  lemma DepIsLower(jobs: seq<Job>, index: map<Name, nat>, depths: seq<nat>, i: nat, k: nat)
    requires IsIndex(jobs, index) && AreDepths(jobs, depths)
    requires i < |jobs| && k < |jobs| && jobs[k].name in jobs[i].deps
    ensures depths[k] < depths[i]
  {
    var g := DepGraph(jobs);
    IndexedGraph(jobs, index, i);
    assert LongestChain(jobs, jobs[k].name, depths[k]) && LongestChain(jobs, jobs[i].name, depths[i]);
    var q :| IsPath(g, q) && q[0] == jobs[k].name && |q| == depths[k] + 1;
    var longer := [jobs[i].name] + q;
    assert longer[1..] == q && IsPath(g, longer) && longer[0] == jobs[i].name;
  }
}
