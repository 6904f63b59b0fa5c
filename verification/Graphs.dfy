/** Directed graphs given by successor lists, with the facts about paths, cycles and ranks that the other
    modules share. */
module Graphs {
  import opened Prelude

  type Graph<T> = map<T, seq<T>>

  ghost predicate Edge<T>(g: Graph<T>, a: T, b: T) {
    a in g && b in g[a]
  }

  /** p visits nodes along edges of g, first node first. */
  ghost predicate IsPath<T>(g: Graph<T>, p: seq<T>) {
    |p| > 0 && (|p| > 1 ==> Edge(g, p[0], p[1]) && IsPath(g, p[1..]))
  }

  ghost predicate Links<T>(g: Graph<T>, p: seq<T>, a: T, b: T) {
    IsPath(g, p) && p[0] == a && p[|p| - 1] == b
  }

  /** b is a, or some chain of edges leads from a to b. */
  ghost predicate Reaches<T(!new)>(g: Graph<T>, a: T, b: T) {
    exists p: seq<T> :: Links(g, p, a, b)
  }

  ghost predicate IsCycle<T>(g: Graph<T>, p: seq<T>) {
    |p| > 1 && IsPath(g, p) && p[0] == p[|p| - 1]
  }

  ghost predicate Acyclic<T(!new)>(g: Graph<T>) {
    forall p: seq<T> :: !IsCycle(g, p)
  }

  /** Every edge leads to a node that has a successor list. */
  ghost predicate Closed<T>(g: Graph<T>) {
    forall a, b :: a in g && b in g[a] ==> b in g
  }

  /** r strictly decreases along every edge that stays inside g. */
  ghost predicate Ranked<T>(g: Graph<T>, r: map<T, nat>) {
    && r.Keys == g.Keys
    && forall a, b :: a in g && b in g[a] && b in g ==> r[b] < r[a]
  }

  lemma {:induction false} PathJoin<T>(g: Graph<T>, p: seq<T>, q: seq<T>)
    requires IsPath(g, p) && IsPath(g, q) && p[|p| - 1] == q[0]
    ensures Links(g, p + q[1..], p[0], q[|q| - 1])
  {
    if |p| == 1 {
      assert p + q[1..] == q;
    } else {
      PathJoin(g, p[1..], q);
      assert (p + q[1..])[1..] == p[1..] + q[1..];
    }
  }

  lemma ReachesSelf<T(!new)>(g: Graph<T>, a: T)
    ensures Reaches(g, a, a)
  {
    assert Links(g, [a], a, a);
  }

  lemma ReachesEdge<T(!new)>(g: Graph<T>, a: T, b: T)
    requires Edge(g, a, b)
    ensures Reaches(g, a, b)
  {
    assert IsPath(g, [a, b][1..]);
    assert Links(g, [a, b], a, b);
  }

  lemma ReachesTrans<T(!new)>(g: Graph<T>, a: T, b: T, c: T)
    requires Reaches(g, a, b) && Reaches(g, b, c)
    ensures Reaches(g, a, c)
  {
    var p: seq<T> :| Links(g, p, a, b);
    var q: seq<T> :| Links(g, q, b, c);
    PathJoin(g, p, q);
  }

  /** A set that contains a and is closed under the edges of g contains everything a reaches. */
  lemma {:induction false} ClosedSetHoldsPath<T>(g: Graph<T>, s: set<T>, p: seq<T>)
    requires IsPath(g, p) && p[0] in s
    requires forall a, b :: a in s && a in g && b in g[a] ==> b in s
    ensures p[|p| - 1] in s
  {
    if |p| > 1 {
      ClosedSetHoldsPath(g, s, p[1..]);
    }
  }

  lemma ClosedSetHoldsReach<T(!new)>(g: Graph<T>, s: set<T>, a: T, b: T)
    requires Reaches(g, a, b) && a in s
    requires forall x, y :: x in s && x in g && y in g[x] ==> y in s
    ensures b in s
  {
    var p: seq<T> :| Links(g, p, a, b);
    ClosedSetHoldsPath(g, s, p);
  }

  /** Along a path that ends inside g the rank drops. */
  lemma {:induction false} RankDrops<T>(g: Graph<T>, r: map<T, nat>, p: seq<T>)
    requires Ranked(g, r) && IsPath(g, p) && |p| > 1 && p[|p| - 1] in g
    ensures p[0] in g && r[p[|p| - 1]] < r[p[0]]
  {
    if |p| > 2 {
      RankDrops(g, r, p[1..]);
    }
  }

  lemma RankedIsAcyclic<T(!new)>(g: Graph<T>, r: map<T, nat>)
    requires Ranked(g, r)
    ensures Acyclic(g)
  {
    forall p: seq<T> | IsCycle(g, p) ensures false {
      RankDrops(g, r, p);
    }
  }

  lemma {:induction false} PathAppend<T>(g: Graph<T>, p: seq<T>, b: T)
    requires IsPath(g, p) && Edge(g, p[|p| - 1], b)
    ensures IsPath(g, p + [b])
  {
    assert IsPath(g, [b]);
    assert IsPath(g, [p[|p| - 1], b][1..]);
    PathJoin(g, p, [p[|p| - 1], b]);
  }

  lemma {:induction false} PathSuffix<T>(g: Graph<T>, p: seq<T>, k: nat)
    requires IsPath(g, p) && k < |p|
    ensures IsPath(g, p[k..])
    decreases k
  {
    if k > 0 {
      PathSuffix(g, p[1..], k - 1);
      assert p[1..][k - 1..] == p[k..];
    }
  }

  /** The end of a path that steps back onto an earlier node closes a cycle. */
  lemma BackEdgeIsCycle<T>(g: Graph<T>, p: seq<T>, k: nat)
    requires IsPath(g, p) && k < |p| && Edge(g, p[|p| - 1], p[k])
    ensures IsCycle(g, p[k..] + [p[k]])
  {
    PathSuffix(g, p, k);
    PathAppend(g, p[k..], p[k]);
  }

  lemma {:induction false} PathInBigger<T(!new)>(g: Graph<T>, h: Graph<T>, p: seq<T>)
    requires forall a, b :: Edge(g, a, b) ==> Edge(h, a, b)
    requires IsPath(g, p)
    ensures IsPath(h, p)
  {
    if |p| > 1 {
      PathInBigger(g, h, p[1..]);
    }
  }

  /** Some cycle of g starts at name. */
  ghost predicate OnCycle<T(!new)>(g: Graph<T>, name: T) {
    exists c: seq<T> :: IsCycle(g, c) && c[0] == name
  }

  /** A depth-first search that comes back to a node of its stack has found a cycle. */
  lemma RevisitIsCycle<T(!new)>(g: Graph<T>, stack: seq<T>, name: T)
    requires name in stack && IsPath(g, stack) && Edge(g, stack[|stack| - 1], name)
    ensures OnCycle(g, name)
  {
    var k :| 0 <= k < |stack| && stack[k] == name;
    BackEdgeIsCycle(g, stack, k);
    assert (stack[k..] + [stack[k]])[0] == name;
  }

  lemma OffPath<T(!new)>(g: Graph<T>, p: seq<T>, d: T)
    requires Acyclic(g) && IsPath(g, p) && Edge(g, p[|p| - 1], d)
    ensures d !in p
  {
    forall k | 0 <= k < |p| ensures p[k] != d {
      if p[k] == d {
        BackEdgeIsCycle(g, p, k);
        assert false;
      }
    }
  }

  lemma FewerLeft<T(!new)>(all: set<T>, p: seq<T>, d: T)
    requires d in all && d !in p
    ensures |all - (set x | x in p + [d])| < |all - (set x | x in p)|
  {
    var before, after := all - (set x | x in p), all - (set x | x in p + [d]);
    assert d in p + [d];
    assert after <= before - {d};
    CardinalityMonotone(after, before - {d});
  }

  /** Walks along undone successors until it meets a node all of whose successors are done. */
  lemma {:induction false} FindReady<T(!new)>(g: Graph<T>, done: set<T>, p: seq<T>) returns (ready: T)
    requires Acyclic(g) && IsPath(g, p)
    requires forall x :: x in p ==> x in g && x !in done
    ensures ready in g && ready !in done
    ensures forall d :: d in g[ready] && d in g ==> d in done
    decreases |g.Keys - (set x | x in p)|
  {
    var last := p[|p| - 1];
    if d :| d in g[last] && d in g && d !in done {
      OffPath(g, p, d);
      PathAppend(g, p, d);
      FewerLeft(g.Keys, p, d);
      ready := FindReady(g, done, p + [d]);
    } else {
      ready := last;
    }
  }

  /** Ranks one ready node after the other, above everything ranked so far. */
  lemma {:induction false} GrowRank<T(!new)>(g: Graph<T>, r: map<T, nat>, next: nat) returns (full: map<T, nat>)
    requires Acyclic(g) && r.Keys <= g.Keys
    requires forall a, b :: a in r && b in g[a] && b in g ==> b in r && r[b] < r[a]
    requires forall a :: a in r ==> r[a] < next
    ensures Ranked(g, full)
    decreases g.Keys - r.Keys
  {
    if r.Keys == g.Keys {
      full := r;
    } else {
      var x :| x in g && x !in r;
      var ready := FindReady(g, r.Keys, [x]);
      assert ready in g.Keys - r.Keys && ready in r[ready := next].Keys;
      full := GrowRank(g, r[ready := next], next + 1);
    }
  }

  /** A graph has no cycle exactly when its nodes can be ranked. */
  lemma AcyclicIffRanked<T(!new)>(g: Graph<T>)
    ensures Acyclic(g) <==> exists r :: Ranked(g, r)
  {
    if Acyclic(g) {
      var r := GrowRank(g, map[], 0);
      assert Ranked(g, r);
    }
    if r :| Ranked(g, r) {
      RankedIsAcyclic(g, r);
    }
  }

  ghost function RankOf<T(!new)>(g: Graph<T>): (r: map<T, nat>)
    requires Acyclic(g)
    ensures Ranked(g, r)
  {
    AcyclicIffRanked(g);
    var r :| Ranked(g, r);
    r
  }

  /** A number above every rank. */
  ghost function RankBound<T(!new)>(rank: map<T, nat>): (top: nat)
    ensures forall x :: x in rank ==> rank[x] < top
    decreases rank.Keys
  {
    if rank == map[] then 0 else
    var x :| x in rank;
    var rest := rank - {x};
    assert x in rank.Keys && x !in rest.Keys && rest.Keys <= rank.Keys;
    var below := RankBound(rest);
    assert forall y :: y in rank ==> y == x || (y in rest && rest[y] == rank[y]);
    if below > rank[x] then below else rank[x] + 1
  }

  // ---------------------------------------------------------------- budgets

  /** Nodes hold budgets, and every edge leads to a node that holds one unit less. */
  ghost predicate Budgeted<T(!new)>(g: Graph<T>, has: (T, nat) -> bool) {
    forall a, b, f: nat :: Edge(g, a, b) && has(a, f) ==> f > 1 && has(b, f - 1)
  }

  lemma {:induction false} PathUsesBudget<T(!new)>(g: Graph<T>, has: (T, nat) -> bool, p: seq<T>, f: nat)
    requires Budgeted(g, has) && IsPath(g, p) && has(p[0], f)
    ensures |p| - 1 <= f && has(p[|p| - 1], f - (|p| - 1))
  {
    if |p| > 1 {
      assert Edge(g, p[0], p[1]);
      PathUsesBudget(g, has, p[1..], f - 1);
    }
  }

  /** A node with a budget reaches no cycle. */
  lemma {:induction false} BudgetExcludesCycles<T(!new)>(g: Graph<T>, has: (T, nat) -> bool, cycle: seq<T>, f: nat)
    requires Budgeted(g, has) && |cycle| > 0 && has(cycle[0], f)
    ensures !IsCycle(g, cycle)
    decreases f
  {
    if IsCycle(g, cycle) {
      PathUsesBudget(g, has, cycle, f);
      BudgetExcludesCycles(g, has, cycle, f - (|cycle| - 1));
      assert false;
    }
  }

  // ---------------------------------------------------------------- projections

  /** f maps every edge of g to an edge of h. */
  ghost predicate Projects<T(!new)>(g: Graph<T>, h: Graph<T>, f: T -> T) {
    forall a, b :: Edge(g, a, b) ==> Edge(h, f(a), f(b))
  }

  function Image<T>(p: seq<T>, f: T -> T): (r: seq<T>)
    ensures |r| == |p| && forall i :: 0 <= i < |r| ==> r[i] == f(p[i])
  {
    seq(|p|, i requires 0 <= i < |p| => f(p[i]))
  }

  lemma {:induction false} PathProjects<T(!new)>(g: Graph<T>, h: Graph<T>, f: T -> T, p: seq<T>)
    requires Projects(g, h, f) && IsPath(g, p)
    ensures IsPath(h, Image(p, f))
  {
    if |p| > 1 {
      assert Edge(g, p[0], p[1]);
      PathProjects(g, h, f, p[1..]);
      assert Image(p, f)[1..] == Image(p[1..], f);
    }
  }

  lemma CycleProjects<T(!new)>(g: Graph<T>, h: Graph<T>, f: T -> T, c: seq<T>)
    requires Projects(g, h, f) && IsCycle(g, c)
    ensures IsCycle(h, Image(c, f))
  {
    PathProjects(g, h, f, c);
  }

  /** A graph that projects into an acyclic one is acyclic. */
  lemma ProjectionKeepsAcyclic<T(!new)>(g: Graph<T>, h: Graph<T>, f: T -> T)
    requires Projects(g, h, f) && Acyclic(h)
    ensures Acyclic(g)
  {
    forall c: seq<T> ensures !IsCycle(g, c) {
      if IsCycle(g, c) {
        CycleProjects(g, h, f, c);
        assert false;
      }
    }
  }
}
