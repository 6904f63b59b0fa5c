/** When two expansions of a name are one, exactly. */
module Composition {
  import opened PipelineModel
  import opened Names

  /** A text cut at its first separator, i, with another separator and text behind it. */
  lemma SumSlices(a: string, b: string, sep: char, i: nat)
    requires i < |a| && a[i] == sep && sep !in a[..i]
    ensures var s := a + [sep] + b;
      s[..i] == a[..i] && s[i + 1..] == a[i + 1..] + [sep] + b && IndexOf(s, sep) == i
  {
    var s := a + [sep] + b;
    assert s[..i] == a[..i] && s[i] == sep;
    IndexOfFirst(s, sep, i);
  }

  lemma SumWhole(a: string, b: string, sep: char)
    requires sep !in a
    ensures var s := a + [sep] + b; s[..|a|] == a && s[|a| + 1..] == b && IndexOf(s, sep) == |a|
  {
    var s := a + [sep] + b;
    assert s[..|a|] == a;
    IndexOfFirst(s, sep, |a|);
  }

  lemma {:induction false} SplitOfSum(a: string, b: string, sep: char)
    ensures Split(a + [sep] + b, sep) == Split(a, sep) + Split(b, sep)
    decreases |a|
  {
    var i := IndexOf(a, sep);
    if i == |a| {
      assert a[..i] == a;
      SumWhole(a, b, sep);
    } else {
      SumSlices(a, b, sep, i);
      SplitOfSum(a[i + 1..], b, sep);
    }
  }

  /** Up to its first comma, a printed pair is one piece, and still holds the whole key. */
  lemma FirstPiece(k: string, v: string)
    requires ',' !in k
    ensures var cut := v[..IndexOf(v, ',')]; PairText(k, cut) == Split(PairText(k, v), ',')[0]
  {
    var i, p := IndexOf(v, ','), PairText(k, v);
    var front := PairText(k, v[..i]);
    assert forall j :: 0 <= j < |front| ==> p[j] == front[j];
    assert ',' !in v[..i];
    PlainPair(k, v[..i]);
    assert p[..|front|] == front;
    if i < |v| {
      assert p[|front|] == v[i];
      IndexOfFirst(p, ',', |front|);
    } else {
      assert v[..i] == v;
    }
  }

  lemma {:induction false} PieceBinds(parts: seq<string>, p: string)
    requires p in parts && IndexOf(p, '=') < |p|
    ensures p[..IndexOf(p, '=')] in ParsePairs(parts)
    decreases |parts|
  {
    var front, last := parts[..|parts| - 1], parts[|parts| - 1];
    assert parts == front + [last];
    if p != last {
      PieceBinds(front, p);
    }
  }

  lemma {:induction false} EveryKeyHasPiece(keys: seq<string>, m: Combo, k: string) returns (p: string)
    requires PlainKeys(m) && (forall x :: x in keys ==> x in m) && k in keys
    ensures p in Split(Join(Pairs(keys, m), ','), ',') && IndexOf(p, '=') == |k| < |p| && p[..|k|] == k
    decreases |keys|
  {
    var first, rest := PairText(keys[0], m[keys[0]]), Pairs(keys[1..], m);
    assert Pairs(keys, m)[1..] == rest && Pairs(keys, m)[0] == first;
    if |keys| > 1 {
      SplitOfSum(first, Join(rest, ','), ',');
      assert Join(Pairs(keys, m), ',') == first + [','] + Join(rest, ',');
    }
    if keys[0] == k {
      FirstPiece(k, m[k]);
      p := PairText(k, m[k][..IndexOf(m[k], ',')]);
      ParsePairOfText(map[], k, m[k][..IndexOf(m[k], ',')]);
      FirstEquals(k, m[k][..IndexOf(m[k], ',')]);
    } else {
      p := EveryKeyHasPiece(keys[1..], m, k);
    }
  }

  /** What a printed suffix is read back as. */
  function ReRead(m: Combo): Combo {
    ParsePairs(Split(Join(Pairs(SortedKeys(m.Keys), m), ','), ','))
  }

  lemma NoKeyIsLost(m: Combo, k: string)
    requires PlainKeys(m) && k in m
    ensures k in ReRead(m)
  {
    var keys := SortedKeys(m.Keys);
    var p := EveryKeyHasPiece(keys, m, k);
    PieceBinds(Split(Join(Pairs(keys, m), ','), ','), p);
  }

  lemma {:induction false} JoinDecides(ps: seq<string>, qs: seq<string>, i: nat, sep: char)
    requires |ps| == |qs| && i < |ps| && (forall j :: 0 <= j < |ps| && j != i ==> ps[j] == qs[j])
    requires Join(ps, sep) == Join(qs, sep)
    ensures ps[i] == qs[i]
    decreases |ps|
  {
    if |ps| > 1 {
      var x, y := Join(ps[1..], sep), Join(qs[1..], sep);
      if i == 0 {
        assert ps[1..] == qs[1..];
        assert ps[0] + ([sep] + x) == Join(ps, sep) && qs[0] + ([sep] + x) == Join(qs, sep);
        SameFront(ps[0], qs[0], [sep] + x);
      } else {
        SameBack(ps[0], x, y, sep);
        JoinDecides(ps[1..], qs[1..], i - 1, sep);
      }
    }
  }

  lemma SameFront(a: string, b: string, tail: string)
    requires a + tail == b + tail
    ensures a == b
  {
    assert |a| == |b|;
    assert (a + tail)[..|a|] == a && (b + tail)[..|b|] == b;
  }

  lemma SameBack(a: string, x: string, y: string, sep: char)
    requires a + [sep] + x == a + [sep] + y
    ensures x == y
  {
    AtSeparator(a, sep, x);
    AtSeparator(a, sep, y);
  }

  /** Combos that differ in one value only print differently. */
  lemma OneValueShows(name: string, a: Combo, b: Combo, k: string)
    requires a.Keys == b.Keys && k in a && a[k] != b[k] && forall x :: x in a && x != k ==> a[x] == b[x]
    ensures Print(name, a) != Print(name, b)
  {
    var keys := SortedKeys(a.Keys);
    var i :| 0 <= i < |keys| && keys[i] == k;
    if Print(name, a) == Print(name, b) {
      var p, q := Join(Pairs(keys, a), ','), Join(Pairs(keys, b), ',');
      SamePrint(name, p, q);
      JoinDecides(Pairs(keys, a), Pairs(keys, b), i, ',');
      KeyedValue(k, a[k], b[k]);
      assert false;
    }
  }

  lemma SamePrint(name: string, p: string, q: string)
    requires name + "[" + p + "]" == name + "[" + q + "]"
    ensures p == q
  {
    assert (name + "[" + p + "]")[|name| + 1..][..|p|] == p;
    assert (name + "[" + q + "]")[|name| + 1..][..|q|] == q;
  }

  lemma KeyedValue(k: string, v: string, u: string)
    requires PairText(k, v) == PairText(k, u)
    ensures v == u
  {
    assert PairText(k, v)[|k| + 1..] == v && PairText(k, u)[|k| + 1..] == u;
  }

  ghost predicate ComposesAlways(name: string, c1: Combo) {
    forall c2: Combo :: ExpandedName(ExpandedName(name, c1), c2) == ExpandedName(name, c1 + c2)
  }

  /** Expanding by c1 composes with every second expansion if and only if no value of c1 has a comma. */
  lemma CompositionExactly(name: string, c1: Combo)
    requires '[' !in name && PlainKeys(c1)
    ensures ComposesAlways(name, c1) <==> CommaFree(c1)
  {
    if CommaFree(c1) {
      forall c2: Combo ensures ExpandedName(ExpandedName(name, c1), c2) == ExpandedName(name, c1 + c2) {
        ExpansionComposes(name, c1, c2);
      }
    } else {
      var k :| k in c1 && ',' in c1[k];
      CommaShows(name, c1, k);
    }
  }

  lemma SecondPhase(name: string, c1: Combo, c2: Combo)
    requires '[' !in name
    ensures ExpandedName(ExpandedName(name, c1), c2) == Print(name, ReRead(c1) + c2)
    ensures ExpandedName(name, c1 + c2) == Print(name, c1 + c2)
  {
    var none: Combo := map[];
    assert Parse(name) == (name, none);
    assert none + c1 == c1 && none + (c1 + c2) == c1 + c2;
    ParseOfPrintSplits(name, c1);
  }

  lemma SameButOne(read: Combo, c1: Combo, k: string, c2: Combo)
    requires k in read && k in c1 && c2 == map x | x in c1.Keys + read.Keys - {k} :: ""
    ensures (read + c2).Keys == (c1 + c2).Keys && (read + c2)[k] == read[k] && (c1 + c2)[k] == c1[k]
    ensures forall x :: x in read + c2 && x != k ==> (read + c2)[x] == (c1 + c2)[x]
  {
  }

  /** The second combo that shows it binds every other key there is, and leaves the one with the comma. */
  lemma CommaShows(name: string, c1: Combo, k: string)
    requires '[' !in name && PlainKeys(c1) && k in c1 && ',' in c1[k]
    ensures !ComposesAlways(name, c1)
  {
    var read := ReRead(c1);
    var c2: Combo := map x | x in c1.Keys + read.Keys - {k} :: "";
    NoKeyIsLost(c1, k);
    ParsedValuesCommaFree(Split(Join(Pairs(SortedKeys(c1.Keys), c1), ','), ','));
    SameButOne(read, c1, k, c2);
    OneValueShows(name, read + c2, c1 + c2, k);
    SecondPhase(name, c1, c2);
  }
}
