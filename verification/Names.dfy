/** Variant names such as `build[os=linux,ver=1]`, printed by one phase and re-read by the next. */
module Names {
  // One expansion phase prints the bracket suffix; the next reads it back, merges its own dimensions
  // in, and prints it again.

  import opened Prelude
  import opened PipelineModel

  // ---------------------------------------------------------------- splitting and joining

  /** The first position of c, or |s|. */
  function IndexOf(s: string, c: char): (i: nat)
    ensures i <= |s|
    ensures i < |s| ==> s[i] == c
    ensures forall k :: 0 <= k < i ==> s[k] != c
  {
    if s == "" || s[0] == c then 0 else 1 + IndexOf(s[1..], c)
  }

  /** The position behind the last c, or 0. */
  function AfterLast(s: string, c: char): (i: nat)
    ensures i <= |s|
    ensures i > 0 ==> s[i - 1] == c
    ensures forall k :: i <= k < |s| ==> s[k] != c
  {
    if s == "" || s[|s| - 1] == c then |s| else AfterLast(s[..|s| - 1], c)
  }

  /** strings.Split: the pieces between the separators, at least one. */
  function Split(s: string, sep: char): (parts: seq<string>)
    ensures parts != []
    ensures forall p :: p in parts ==> sep !in p
    decreases |s|
  {
    var i := IndexOf(s, sep);
    if i == |s| then [s] else [s[..i]] + Split(s[i + 1..], sep)
  }

  function Join(parts: seq<string>, sep: char): string {
    if parts == [] then ""
    else if |parts| == 1 then parts[0]
    else parts[0] + [sep] + Join(parts[1..], sep)
  }

  lemma IndexOfFirst(s: string, c: char, i: nat)
    requires i < |s| && s[i] == c && c !in s[..i]
    ensures IndexOf(s, c) == i
  {
    var k := IndexOf(s, c);
    assert forall j :: 0 <= j < i ==> s[j] == s[..i][j];
  }

  /** Taking a text apart at a separator it was put together with. */
  lemma AtSeparator(p: string, c: char, x: string)
    ensures var s := p + [c] + x;
      |s| == |p| + 1 + |x| && s[|p|] == c && s[..|p|] == p && s[|p| + 1..] == x
  {
  }

  lemma FirstSeparator(p: string, c: char, x: string)
    requires c !in p
    ensures IndexOf(p + [c] + x, c) == |p|
  {
    AtSeparator(p, c, x);
    IndexOfFirst(p + [c] + x, c, |p|);
  }

  lemma LastSeparator(p: string, c: char, x: string)
    requires c !in x
    ensures AfterLast(p + [c] + x, c) == |p| + 1
  {
    var s := p + [c] + x;
    AtSeparator(p, c, x);
    forall k | |p| < k < |s| ensures s[k] != c {
      assert s[k] == x[k - |p| - 1];
    }
  }

  lemma {:induction false} SplitOfJoin(parts: seq<string>, sep: char)
    requires parts != [] && forall p :: p in parts ==> sep !in p
    ensures Split(Join(parts, sep), sep) == parts
  {
    var s := Join(parts, sep);
    if |parts| == 1 {
      assert s == parts[0] && s in parts;
    } else {
      var n := |parts[0]|;
      assert s[..n] == parts[0] && s[n] == sep && s[n + 1..] == Join(parts[1..], sep);
      IndexOfFirst(s, sep, n);
      SplitOfJoin(parts[1..], sep);
    }
  }

  // ---------------------------------------------------------------- sorted keys

  /** Byte-wise lexicographic order. */
  predicate LexLeq(a: string, b: string) {
    a == "" || (b != "" && (a[0] < b[0] || (a[0] == b[0] && LexLeq(a[1..], b[1..]))))
  }

  /** At k, where they first differ, a has the smaller character. */
  predicate SmallerAt(a: string, b: string, k: nat) {
    k < |a| && k < |b| && a[..k] == b[..k] && a[k] < b[k]
  }

  /** One text comes before another if it begins it, or has the smaller character where they differ. */
  lemma {:induction false} LexIs(a: string, b: string)
    ensures LexLeq(a, b) <==> (|a| <= |b| && b[..|a|] == a) || exists k: nat :: SmallerAt(a, b, k)
  {
    assert a != "" && |a| <= |b| && b[..|a|] == a ==> b[0] == a[0];
    forall k: nat | SmallerAt(a, b, k) && k > 0 ensures a[0] == b[0] {
      assert a[..k][0] == b[..k][0];
    }
    if a != "" && b != "" && a[0] == b[0] {
      LexIs(a[1..], b[1..]);
      assert a == [a[0]] + a[1..] && b == [b[0]] + b[1..];
      assert |a| <= |b| ==> b[..|a|] == [b[0]] + b[1..][..|a| - 1];
      if k: nat :| SmallerAt(a[1..], b[1..], k) {
        assert a[..k + 1] == [a[0]] + a[1..][..k] && b[..k + 1] == [b[0]] + b[1..][..k];
        assert SmallerAt(a, b, k + 1);
      }
      if k: nat :| SmallerAt(a, b, k) {
        assert k > 0;
        assert a[1..][..k - 1] == a[..k][1..] && b[1..][..k - 1] == b[..k][1..];
        assert SmallerAt(a[1..], b[1..], k - 1);
      }
    } else if a != "" && b != "" {
      assert a[0] < b[0] ==> SmallerAt(a, b, 0);
    }
  }

  lemma {:induction false} LexTotal(a: string, b: string)
    ensures LexLeq(a, b) || LexLeq(b, a)
    ensures LexLeq(a, b) && LexLeq(b, a) ==> a == b
  {
    if a != "" && b != "" && a[0] == b[0] {
      LexTotal(a[1..], b[1..]);
      assert a == [a[0]] + a[1..] && b == [b[0]] + b[1..];
    }
  }

  lemma {:induction false} LexTransitive(a: string, b: string, c: string)
    requires LexLeq(a, b) && LexLeq(b, c)
    ensures LexLeq(a, c)
  {
    if a != "" && a[0] == b[0] && b[0] == c[0] {
      LexTransitive(a[1..], b[1..], c[1..]);
    }
  }

  predicate IsLeast(k: string, keys: set<string>) {
    k in keys && forall x :: x in keys ==> LexLeq(k, x)
  }

  lemma {:induction false} LeastExists(keys: set<string>)
    requires keys != {}
    ensures exists k :: IsLeast(k, keys)
  {
    var x :| x in keys;
    if keys == {x} {
      LexTotal(x, x);
      assert IsLeast(x, keys);
    } else {
      LeastExists(keys - {x});
      var k :| IsLeast(k, keys - {x});
      LexTotal(k, x);
      if LexLeq(k, x) {
        assert IsLeast(k, keys);
      } else {
        forall y | y in keys ensures LexLeq(x, y) {
          LexTotal(x, y);
          if y != x {
            LexTransitive(x, k, y);
          }
        }
        assert IsLeast(x, keys);
      }
    }
  }

  function Least(keys: set<string>): (k: string)
    requires keys != {}
    ensures IsLeast(k, keys)
  {
    LeastExists(keys);
    assert forall a, b :: IsLeast(a, keys) && IsLeast(b, keys) ==> a == b by {
      forall a, b | IsLeast(a, keys) && IsLeast(b, keys) { LexTotal(a, b); }
    }
    var k :| IsLeast(k, keys);
    k
  }

  /** slices.Sorted of a set of keys: each once, in ascending order. */
  function SortedKeys(keys: set<string>): (r: seq<string>)
    ensures forall k :: k in r <==> k in keys
    ensures forall i, j :: 0 <= i < j < |r| ==> r[i] != r[j] && LexLeq(r[i], r[j])
    decreases |keys|
  {
    if keys == {} then [] else var k := Least(keys); [k] + SortedKeys(keys - {k})
  }

  // ---------------------------------------------------------------- printing and parsing

  function PairText(k: string, v: string): string {
    k + "=" + v
  }

  /** The key is what stands in front of the first equals sign. */
  lemma FirstEquals(k: string, v: string)
    requires '=' !in k
    ensures IndexOf(PairText(k, v), '=') == |k|
    ensures PairText(k, v)[..|k|] == k && PairText(k, v)[|k| + 1..] == v
  {
    var s := PairText(k, v);
    assert s[..|k|] == k && s[|k|] == '=';
    IndexOfFirst(s, '=', |k|);
  }

  function Pairs(keys: seq<string>, m: Combo): (r: seq<string>)
    requires forall k :: k in keys ==> k in m
    ensures |r| == |keys| && forall i :: 0 <= i < |r| ==> r[i] == PairText(keys[i], m[keys[i]])
  {
    seq(|keys|, i requires 0 <= i < |keys| && keys[i] in m => PairText(keys[i], m[keys[i]]))
  }

  function Print(name: string, m: Combo): string {
    name + "[" + Join(Pairs(SortedKeys(m.Keys), m), ',') + "]"
  }

  /** SplitN at the first '='; pieces without one are dropped, later pieces win. */
  function ParsePair(m: Combo, part: string): Combo {
    var i := IndexOf(part, '=');
    if i < |part| then m[part[..i] := part[i + 1..]] else m
  }

  function ParsePairs(parts: seq<string>): Combo {
    if parts == [] then map[] else ParsePair(ParsePairs(parts[..|parts| - 1]), parts[|parts| - 1])
  }

  predicate HasSuffix(base: string) {
    IndexOf(base, '[') < |base| && AfterLast(base, ']') > IndexOf(base, '[') + 1
  }

  function Parse(base: string): (string, Combo) {
    if HasSuffix(base) then
      var i, e := IndexOf(base, '['), AfterLast(base, ']') - 1;
      (base[..i], ParsePairs(Split(base[i + 1..e], ',')))
    else
      (base, map[])
  }

  /** A name has a suffix if some bracket opens in front of one that closes; the base is what stands in
      front of the first that opens. */
  lemma SuffixIs(base: string)
    ensures HasSuffix(base) <==> exists i, e :: 0 <= i < e < |base| && base[i] == '[' && base[e] == ']'
    ensures HasSuffix(base) ==> '[' !in Parse(base).0 && StartsWith(base, Parse(base).0 + "[")
    ensures !HasSuffix(base) ==> Parse(base) == (base, map[])
  {
    var i := IndexOf(base, '[');
    if HasSuffix(base) {
      var e := AfterLast(base, ']') - 1;
      assert base[i] == '[' && base[e] == ']';
      assert base[..i + 1] == base[..i] + "[";
    }
    if k, e :| 0 <= k < e < |base| && base[k] == '[' && base[e] == ']' {
      assert i <= k;
    }
  }

  /** Piece i binds k to v. */
  predicate PieceBindsTo(part: string, k: string, v: string) {
    '=' !in k && part == k + "=" + v
  }

  ghost predicate LastBinding(parts: seq<string>, i: nat, k: string, v: string) {
    i < |parts| && PieceBindsTo(parts[i], k, v) && forall j, u :: i < j < |parts| ==> !PieceBindsTo(parts[j], k, u)
  }

  /** The suffix binds what its pieces bind, the later ones winning; a piece without an equals sign binds
      nothing. */
  lemma {:induction false} PiecesBind(parts: seq<string>, k: string, v: string)
    ensures (k in ParsePairs(parts) && ParsePairs(parts)[k] == v) <==> exists i: nat :: LastBinding(parts, i, k, v)
  {
    if parts != [] {
      var n := |parts| - 1;
      var front, last := parts[..n], parts[n];
      PiecesBind(front, k, v);
      PieceSplits(last, k);
      var e := IndexOf(last, '=');
      if e < |last| && last[..e] == k {
        assert PieceBindsTo(parts[n], k, last[e + 1..]);
        forall i: nat | LastBinding(parts, i, k, v) ensures i == n {
        }
        assert v == last[e + 1..] ==> LastBinding(parts, n, k, v);
      } else {
        assert forall u :: !PieceBindsTo(parts[n], k, u);
        forall i: nat ensures LastBinding(parts, i, k, v) <==> LastBinding(front, i, k, v) {
          assert forall j :: 0 <= j < n ==> front[j] == parts[j];
        }
      }
    }
  }

  lemma PieceSplits(part: string, k: string)
    ensures forall v :: PieceBindsTo(part, k, v) <==>
      IndexOf(part, '=') < |part| && part[..IndexOf(part, '=')] == k && part[IndexOf(part, '=') + 1..] == v
  {
    var i := IndexOf(part, '=');
    forall v ensures PieceBindsTo(part, k, v) <==> i < |part| && part[..i] == k && part[i + 1..] == v {
      if PieceBindsTo(part, k, v) {
        FirstEquals(k, v);
      }
      if i < |part| && part[..i] == k && part[i + 1..] == v {
        assert part == part[..i] + [part[i]] + part[i + 1..];
      }
    }
  }

  /** expandedName as a function: the reference for the method below. */
  function ExpandedName(base: string, combo: Combo): string {
    var (name, existing) := Parse(base);
    Print(name, existing + combo)
  }

  method ParseName(base: string) returns (name: string, existing: Combo)
    ensures (name, existing) == Parse(base)
  {
    existing, name := map[], base;
    var idx := IndexOf(base, '[');
    if idx < |base| {
      var afterEnd := AfterLast(base, ']');
      if afterEnd > idx + 1 {
        name := base[..idx];
        var parts := Split(base[idx + 1..afterEnd - 1], ',');
        for i := 0 to |parts|
          invariant existing == ParsePairs(parts[..i])
        {
          assert parts[..i + 1][..i] == parts[..i];
          var eq := IndexOf(parts[i], '=');
          if eq < |parts[i]| {
            existing := existing[parts[i][..eq] := parts[i][eq + 1..]];
          }
        }
        assert parts[..|parts|] == parts;
      }
    }
  }

  method PrintName(name: string, existing: Combo) returns (text: string)
    ensures text == Print(name, existing)
  {
    var keys := SortedKeys(existing.Keys);
    var inner := PrintPairs(keys, existing);
    text := name + "[" + inner + "]";
  }

  method PrintPairs(keys: seq<string>, existing: Combo) returns (inner: string)
    requires forall k :: k in keys ==> k in existing
    ensures inner == Join(Pairs(keys, existing), ',')
  {
    inner := "";
    for i := 0 to |keys|
      invariant inner == Join(Pairs(keys[..i], existing), ',')
    {
      if i > 0 {
        inner := inner + ",";
      }
      inner := inner + PairText(keys[i], existing[keys[i]]);
      assert keys[..i + 1] == keys[..i] + [keys[i]];
      PairsAppend(keys[..i], keys[i], existing);
      JoinAppend(Pairs(keys[..i], existing), PairText(keys[i], existing[keys[i]]), ',');
    }
    assert keys[..|keys|] == keys;
  }

  method ExpandName(base: string, combo: Combo) returns (text: string)
    ensures text == ExpandedName(base, combo)
  {
    var name, existing := ParseName(base);
    text := PrintName(name, existing + combo);
  }

  lemma {:induction false} JoinAppend(parts: seq<string>, p: string, sep: char)
    ensures Join(parts + [p], sep) == Join(parts, sep) + (if parts == [] then "" else [sep]) + p
  {
    if |parts| > 1 {
      JoinAppend(parts[1..], p, sep);
      assert (parts + [p])[1..] == parts[1..] + [p];
    } else if |parts| == 1 {
      assert (parts + [p])[1..] == [p];
    }
  }

  // ---------------------------------------------------------------- the round trip

  predicate PlainKeys(m: Combo) {
    forall k :: k in m ==> '=' !in k && ',' !in k
  }

  predicate CommaFree(m: Combo) {
    forall k :: k in m ==> ',' !in m[k]
  }

  lemma ParsePairOfText(m: Combo, k: string, v: string)
    requires '=' !in k
    ensures ParsePair(m, PairText(k, v)) == m[k := v]
  {
    var part := PairText(k, v);
    assert part[..|k|] == k && part[|k|] == '=' && part[|k| + 1..] == v;
    IndexOfFirst(part, '=', |k|);
  }

  function Submap(keys: seq<string>, m: Combo): Combo
    requires forall k :: k in keys ==> k in m
  {
    map k | k in keys :: m[k]
  }

  lemma SubmapAppend(keys: seq<string>, k: string, m: Combo)
    requires k in m && forall x :: x in keys ==> x in m
    ensures Submap(keys + [k], m) == Submap(keys, m)[k := m[k]]
  {
  }

  lemma ParsePairsAppend(parts: seq<string>, p: string)
    ensures ParsePairs(parts + [p]) == ParsePair(ParsePairs(parts), p)
  {
    assert (parts + [p])[..|parts|] == parts;
  }

  lemma PairsAppend(front: seq<string>, k: string, m: Combo)
    requires k in m && forall x :: x in front ==> x in m
    ensures Pairs(front + [k], m) == Pairs(front, m) + [PairText(k, m[k])]
  {
  }

  lemma {:induction false} ParseOfPairs(keys: seq<string>, m: Combo)
    requires PlainKeys(m) && forall k :: k in keys ==> k in m
    ensures ParsePairs(Pairs(keys, m)) == Submap(keys, m)
  {
    if keys != [] {
      var front, last := keys[..|keys| - 1], keys[|keys| - 1];
      assert keys == front + [last];
      ParseOfPairs(front, m);
      ParseOneMore(front, last, m);
    }
  }

  lemma ParseOneMore(front: seq<string>, last: string, m: Combo)
    requires PlainKeys(m) && last in m && forall k :: k in front ==> k in m
    requires ParsePairs(Pairs(front, m)) == Submap(front, m)
    ensures ParsePairs(Pairs(front + [last], m)) == Submap(front + [last], m)
  {
    PairsAppend(front, last, m);
    ParsePairsAppend(Pairs(front, m), PairText(last, m[last]));
    ParsePairOfText(Submap(front, m), last, m[last]);
    SubmapAppend(front, last, m);
  }

  lemma PairsAreCommaFree(keys: seq<string>, m: Combo)
    requires PlainKeys(m) && CommaFree(m) && forall k :: k in keys ==> k in m
    ensures forall p :: p in Pairs(keys, m) ==> ',' !in p
  {
  }

  /** A printed name splits at its first '[' and its final ']'. */
  lemma SuffixSplits(name: string, inner: string)
    requires '[' !in name
    ensures var s := name + "[" + inner + "]";
      HasSuffix(s) && IndexOf(s, '[') == |name| && AfterLast(s, ']') == |s|
      && s[..|name|] == name && s[|name| + 1..|s| - 1] == inner
  {
    var open, close: string := ['['], [']'];
    assert "[" == open && "]" == close;
    var s := name + open + inner + close;
    var none: string := [];
    assert s == name + open + (inner + close) && s == (name + open + inner) + close + none;
    FirstSeparator(name, '[', inner + close);
    AtSeparator(name, '[', inner + close);
    LastSeparator(name + open + inner, ']', none);
    assert s[|name| + 1..|s| - 1] == (inner + close)[..|inner|];
  }

  lemma ParseOfPrintSplits(name: string, m: Combo)
    requires '[' !in name
    ensures Parse(Print(name, m)) == (name, ParsePairs(Split(Join(Pairs(SortedKeys(m.Keys), m), ','), ',')))
  {
    SuffixSplits(name, Join(Pairs(SortedKeys(m.Keys), m), ','));
  }

  /** Values read back from a suffix never contain a comma. */
  lemma {:induction false} ParsedValuesCommaFree(parts: seq<string>)
    requires forall p :: p in parts ==> ',' !in p
    ensures CommaFree(ParsePairs(parts))
  {
    if parts != [] {
      var last := parts[|parts| - 1];
      ParsedValuesCommaFree(parts[..|parts| - 1]);
      assert last in parts;
      var i := IndexOf(last, '=');
      if i < |last| {
        assert ',' !in last[i + 1..];
      }
    }
  }

  /** Reading a printed name back returns the base name and the dimensions exactly when no value
      contains a comma; name validation lets such values through. */
  lemma ParseOfPrint(name: string, m: Combo)
    requires '[' !in name && PlainKeys(m)
    ensures Parse(Print(name, m)) == (name, m) <==> CommaFree(m)
  {
    ParseOfPrintSplits(name, m);
    ParsedValuesCommaFree(Split(Join(Pairs(SortedKeys(m.Keys), m), ','), ','));
    if CommaFree(m) {
      InnerReadsBack(m);
    }
  }

  lemma InnerReadsBack(m: Combo)
    requires PlainKeys(m) && CommaFree(m)
    ensures ParsePairs(Split(Join(Pairs(SortedKeys(m.Keys), m), ','), ',')) == m
  {
    KeysReadBack(SortedKeys(m.Keys), m);
  }

  lemma KeysReadBack(keys: seq<string>, m: Combo)
    requires PlainKeys(m) && CommaFree(m) && forall k :: k in keys <==> k in m
    ensures ParsePairs(Split(Join(Pairs(keys, m), ','), ',')) == m
  {
    var pairs := Pairs(keys, m);
    ParseOfPairs(keys, m);
    assert Submap(keys, m) == m;
    if pairs == [] {
      NothingReadsBack();
    } else {
      PairsAreCommaFree(keys, m);
      SplitOfJoin(pairs, ',');
    }
  }

  lemma NothingReadsBack()
    ensures ParsePairs(Split("", ',')) == map[]
  {
    var none: string := [];
    assert Split(none, ',') == [none];
    assert ParsePairs([none][..0]) == map[];
  }

  /** Printing in two phases is printing once with both phases' dimensions. */
  lemma ExpansionComposes(name: string, c1: Combo, c2: Combo)
    requires '[' !in name && PlainKeys(c1) && CommaFree(c1)
    ensures ExpandedName(ExpandedName(name, c1), c2) == ExpandedName(name, c1 + c2)
    ensures ExpandedName(name, c1) == Print(name, c1)
  {
    assert Parse(name) == (name, map[]);
    assert map[] + c1 == c1 && map[] + (c1 + c2) == c1 + c2;
    ParseOfPrint(name, c1);
  }

  /** Different bases or different dimensions give different names. */
  lemma PrintIsInjective(n1: string, c1: Combo, n2: string, c2: Combo)
    requires '[' !in n1 && PlainKeys(c1) && CommaFree(c1)
    requires '[' !in n2 && PlainKeys(c2) && CommaFree(c2)
    requires Print(n1, c1) == Print(n2, c2)
    ensures n1 == n2 && c1 == c2
  {
    ParseOfPrint(n1, c1);
    ParseOfPrint(n2, c2);
  }

  lemma OnePair(k: string, v: string)
    ensures var m: Combo := map[k := v]; Join(Pairs(SortedKeys(m.Keys), m), ',') == PairText(k, v)
  {
    var m: Combo := map[k := v];
    assert m.Keys == {k} && Least({k}) == k && {k} - {k} == {};
  }

  /** A comma in a value forges a dimension: one printed pair is read back as two. */
  lemma CommaForgesDimension(name: string, k1: string, v1: string, k2: string, v2: string)
    requires '[' !in name && k1 != k2
    requires forall s :: s in [k1, v1, k2, v2] ==> '=' !in s && ',' !in s
    ensures Parse(Print(name, map[k1 := v1 + "," + PairText(k2, v2)])) == (name, map[k1 := v1, k2 := v2])
  {
    var v := v1 + "," + PairText(k2, v2);
    ParseOfPrintSplits(name, map[k1 := v]);
    OnePair(k1, v);
    ForgedPairReads(k1, v1, k2, v2);
  }

  lemma ForgedPairReads(k1: string, v1: string, k2: string, v2: string)
    requires k1 != k2 && forall s :: s in [k1, v1, k2, v2] ==> '=' !in s && ',' !in s
    ensures ParsePairs(Split(PairText(k1, v1 + "," + PairText(k2, v2)), ',')) == map[k1 := v1, k2 := v2]
  {
    assert forall i :: 0 <= i < 4 ==> [k1, v1, k2, v2][i] in [k1, v1, k2, v2];
    PlainPair(k1, v1);
    PlainPair(k2, v2);
    ForgedText(k1, v1, PairText(k2, v2));
    SplitTwo(PairText(k1, v1), PairText(k2, v2));
    ParseTwo(k1, v1, k2, v2);
  }

  lemma PlainPair(k: string, v: string)
    requires ',' !in k && ',' !in v
    ensures ',' !in PairText(k, v)
  {
  }

  lemma ForgedText(k: string, v: string, more: string)
    ensures PairText(k, v + "," + more) == PairText(k, v) + [','] + more
  {
  }

  lemma SplitTwo(p1: string, p2: string)
    requires ',' !in p1 && ',' !in p2
    ensures Split(p1 + [','] + p2, ',') == [p1, p2]
  {
    assert [p1, p2][1..] == [p2];
    SplitOfJoin([p1, p2], ',');
  }

  lemma ParseTwo(k1: string, v1: string, k2: string, v2: string)
    requires '=' !in k1 && '=' !in k2
    ensures ParsePairs([PairText(k1, v1), PairText(k2, v2)]) == map[k1 := v1][k2 := v2]
  {
    var p1, p2 := PairText(k1, v1), PairText(k2, v2);
    ParsePairsAppend([], p1);
    ParsePairsAppend([p1], p2);
    assert [] + [p1] == [p1] && [p1] + [p2] == [p1, p2];
    ParsePairOfText(map[], k1, v1);
    ParsePairOfText(map[k1 := v1], k2, v2);
  }

  lemma TwoPairsLength(name: string, k1: string, k2: string, m: Combo)
    requires k1 != k2 && m.Keys == {k1, k2}
    ensures |Print(name, m)| == |name| + |k1| + |k2| + |m[k1]| + |m[k2]| + 5
  {
    var ks := SortedKeys(m.Keys);
    assert k1 in ks && k2 in ks;
    DistinctCount(ks);
    assert Elements(ks) == {k1, k2};
    assert ks == [k1, k2] || ks == [k2, k1];
    var ps := Pairs(ks, m);
    assert Join(ps, ',') == ps[0] + [','] + Join(ps[1..], ',');
  }

  /** So without the comma condition the two phases can disagree: the second phase overwrites the
      forged dimension instead of adding its own. */
  lemma CommaBreaksComposition(name: string, k1: string, v1: string, k2: string, v2: string, v3: string)
    requires '[' !in name && k1 != k2 && forall s :: s in [k1, v1, k2, v2] ==> '=' !in s && ',' !in s
    ensures var c1, c2: Combo := map[k1 := v1 + "," + PairText(k2, v2)], map[k2 := v3];
      ExpandedName(ExpandedName(name, c1), c2) != ExpandedName(name, c1 + c2)
  {
    var v := v1 + "," + PairText(k2, v2);
    var c1: Combo, c2: Combo := map[k1 := v], map[k2 := v3];
    var read: Combo := map[k1 := v1, k2 := v2];
    assert map[] + c1 == c1 && map[] + (c1 + c2) == c1 + c2;
    CommaForgesDimension(name, k1, v1, k2, v2);
    DifferentLengths(name, k1, v1, k2, v, v3, read + c2, c1 + c2);
  }

  lemma DifferentLengths(name: string, k1: string, v1: string, k2: string, v: string, v3: string, m: Combo, n: Combo)
    requires k1 != k2 && |v1| < |v| && m == map[k1 := v1, k2 := v3] && n == map[k1 := v, k2 := v3]
    ensures Print(name, m) != Print(name, n)
  {
    TwoPairsLength(name, k1, k2, m);
    TwoPairsLength(name, k1, k2, n);
  }
}
