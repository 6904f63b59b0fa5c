/** Small datatypes, sequence operations and facts about counting that all the other modules of this project
    share between them. */
module Prelude {

  datatype Option<+T> = None | Some(value: T)

  datatype Result<+T, +E> = Ok(value: T) | Err(error: E)

  predicate StartsWith(s: string, w: string) {
    |w| <= |s| && s[..|w|] == w
  }

  predicate Contains(s: string, u: string) {
    exists i :: 0 <= i <= |s| && StartsWith(s[i..], u)
  }

  ghost predicate Distinct<T>(s: seq<T>) {
    forall i, j :: 0 <= i < j < |s| ==> s[i] != s[j]
  }

  ghost function Elements<T(!new)>(s: seq<T>): (r: set<T>)
    ensures forall x :: x in r <==> x in s
  {
    set x | x in s
  }

  lemma {:induction false} DistinctCount<T(!new)>(s: seq<T>)
    requires Distinct(s)
    ensures |Elements(s)| == |s|
  {
    if s != [] {
      var front, last := s[..|s| - 1], s[|s| - 1];
      DistinctCount(front);
      assert s == front + [last];
      assert Elements(s) == Elements(front) + {last};
    }
  }

  /** The elements that satisfy p, in order. */
  function Where<T>(s: seq<T>, p: T -> bool): seq<T> {
    if s == [] then []
    else Where(s[..|s| - 1], p) + if p(s[|s| - 1]) then [s[|s| - 1]] else []
  }

  lemma {:induction false} WhereMembers<T>(s: seq<T>, p: T -> bool, x: T)
    ensures x in Where(s, p) <==> x in s && p(x)
  {
    if s != [] {
      WhereMembers(s[..|s| - 1], p, x);
      assert s == s[..|s| - 1] + [s[|s| - 1]];
    }
  }

  lemma {:induction false} WhereAppend<T>(s: seq<T>, x: T, p: T -> bool)
    ensures Where(s + [x], p) == Where(s, p) + if p(x) then [x] else []
  {
    assert (s + [x])[..|s|] == s;
  }

  lemma {:induction false} WhereTwice<T(!new)>(s: seq<T>, p: T -> bool, q: T -> bool, both: T -> bool)
    requires forall x :: both(x) <==> p(x) && q(x)
    ensures Where(Where(s, p), q) == Where(s, both)
  {
    if s != [] {
      var front, last := s[..|s| - 1], s[|s| - 1];
      WhereTwice(front, p, q, both);
      if p(last) {
        WhereAppend(Where(front, p), last, q);
      } else {
        assert Where(s, p) == Where(front, p);
      }
    }
  }

  lemma {:induction false} WhereAll<T>(s: seq<T>, p: T -> bool)
    requires forall i :: 0 <= i < |s| ==> p(s[i])
    ensures Where(s, p) == s
  {
    if s != [] {
      WhereAll(s[..|s| - 1], p);
    }
  }

  /** r holds, in their order, exactly the elements of s at the positions at. */
  ghost predicate PickedAt<T>(s: seq<T>, at: seq<nat>, r: seq<T>) {
    && |at| == |r|
    && (forall i, k :: 0 <= i < k < |at| ==> at[i] < at[k])
    && (forall i :: 0 <= i < |at| ==> at[i] < |s| && r[i] == s[at[i]])
  }

  ghost predicate PositionsOf<T>(s: seq<T>, p: T -> bool, at: seq<nat>) {
    forall k: nat :: k in at <==> k < |s| && p(s[k])
  }

  /** r holds, in their order, exactly the elements of s that satisfy p. */
  ghost predicate Selects<T>(s: seq<T>, p: T -> bool, r: seq<T>) {
    exists at: seq<nat> :: PickedAt(s, at, r) && PositionsOf(s, p, at)
  }

  lemma SelectsSame<T(!new)>(s: seq<T>, p: T -> bool, q: T -> bool, r: seq<T>)
    requires Selects(s, p, r) && forall x :: p(x) <==> q(x)
    ensures Selects(s, q, r)
  {
    var at: seq<nat> :| PickedAt(s, at, r) && PositionsOf(s, p, at);
    assert PositionsOf(s, q, at);
  }

  lemma {:induction false} WhereSelects<T>(s: seq<T>, p: T -> bool)
    ensures Selects(s, p, Where(s, p))
  {
    var at := WherePositions(s, p);
  }

  lemma {:induction false} WherePositions<T>(s: seq<T>, p: T -> bool) returns (at: seq<nat>)
    ensures PickedAt(s, at, Where(s, p)) && PositionsOf(s, p, at)
  {
    at := [];
    if s != [] {
      var n := |s| - 1;
      var front := WherePositions(s[..n], p);
      assert s == s[..n] + [s[n]];
      at := OneMorePosition(s[..n], s[n], p, front, Where(s[..n], p));
    }
  }

  lemma OneMorePosition<T>(s: seq<T>, x: T, p: T -> bool, at: seq<nat>, r: seq<T>) returns (at': seq<nat>)
    requires PickedAt(s, at, r) && PositionsOf(s, p, at)
    ensures PickedAt(s + [x], at', r + if p(x) then [x] else []) && PositionsOf(s + [x], p, at')
  {
    var t := s + [x];
    assert forall k: nat :: k < |s| ==> t[k] == s[k];
    at' := if p(x) then at + [|s|] else at;
    forall k: nat ensures k in at' <==> k < |t| && p(t[k]) {
      assert k in at' <==> k in at || (p(x) && k == |s|);
    }
  }

  function FlatMap<T, R>(s: seq<T>, f: T -> seq<R>): seq<R> {
    if s == [] then [] else FlatMap(s[..|s| - 1], f) + f(s[|s| - 1])
  }

  lemma FlatMapAppend<T, R>(s: seq<T>, x: T, f: T -> seq<R>)
    ensures FlatMap(s + [x], f) == FlatMap(s, f) + f(x)
  {
    assert (s + [x])[..|s|] == s;
  }

  /** The parts are joined in their order. */
  lemma {:induction false} FlatMapSplit<T, R>(s: seq<T>, t: seq<T>, f: T -> seq<R>)
    ensures FlatMap(s + t, f) == FlatMap(s, f) + FlatMap(t, f)
  {
    if t == [] {
      assert s + t == s;
    } else {
      var n := |t| - 1;
      FlatMapSplit(s, t[..n], f);
      assert s + t == (s + t[..n]) + [t[n]];
      FlatMapAppend(s + t[..n], t[n], f);
    }
  }

  lemma {:induction false} FlatMapMembers<T, R>(s: seq<T>, f: T -> seq<R>, y: R)
    ensures y in FlatMap(s, f) <==> exists i :: 0 <= i < |s| && y in f(s[i])
  {
    if s != [] {
      var front := s[..|s| - 1];
      FlatMapMembers(front, f, y);
      assert forall i :: 0 <= i < |front| ==> front[i] == s[i];
    }
  }

  // ---------------------------------------------------------------- numbers

  /** The largest int64. */
  const MAX_INT64: nat := 0x7fff_ffff_ffff_ffff

  /** Dividing the limit tells whether a product exceeds it. */
  lemma OverflowGuard(total: nat, n: nat)
    requires n > 0
    ensures total > MAX_INT64 / n <==> total * n > MAX_INT64
  {
    var q, r := MAX_INT64 / n, MAX_INT64 % n;
    assert MAX_INT64 == q * n + r;
    if total > q {
      assert total * n >= (q + 1) * n == q * n + n;
    } else {
      assert total * n <= q * n;
    }
  }

  /** The numbers below n. */
  ghost function Below(n: nat): (r: set<int>)
    ensures |r| == n && forall x :: x in r <==> 0 <= x < n
  {
    if n == 0 then {} else Below(n - 1) + {n - 1}
  }

  ghost predicate InRange(order: seq<int>, n: nat) {
    forall k :: 0 <= k < |order| ==> 0 <= order[k] < n
  }

  ghost predicate IsPermutation(order: seq<int>, n: nat) {
    |order| == n && InRange(order, n) && Distinct(order)
  }

  lemma {:induction false} CardinalityMonotone<T>(a: set<T>, b: set<T>)
    requires a <= b
    ensures |a| <= |b|
  {
    assert b == a + (b - a);
    assert |b| == |a| + |b - a|;
  }

  /** A permutation lists every number below its length. */
  lemma PermutationIsComplete(order: seq<int>, n: nat, i: nat)
    requires IsPermutation(order, n) && i < n
    ensures i in order
  {
    if i !in order {
      DistinctCount(order);
      assert Elements(order) <= Below(n) - {i};
      CardinalityMonotone(Elements(order), Below(n) - {i});
    }
  }
}
