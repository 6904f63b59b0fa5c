/** Two substitution passes against one: the exact laws. */
module TwoPasses {
  import opened Prelude
  import opened PipelineModel
  import opened Names
  import opened Substitute

  // ---------------------------------------------------------------- templates and values

  predicate Opens(s: string, i: nat) {
    i + 1 < |s| && s[i] == '$' && s[i + 1] == '{'
  }

  /** x, behind an opening brace, can grow into a placeholder: it holds no delimiter and agrees with
      the prefix as far as both go. */
  predicate CanLead(x: string, prefix: string) {
    '$' !in x && '}' !in x && (StartsWith(prefix, x) || StartsWith(x, prefix))
  }

  ghost predicate PlaceholderAhead(s: string, prefix: string) {
    exists k :: PlainKey(k) && StartsWith(s, Placeholder(prefix, k))
  }

  /** A placeholder at m stands inside an opening at i that its value could complete. */
  ghost predicate NestedAt(s: string, prefix: string, i: nat, m: nat) {
    Opens(s, i) && i + 2 <= m <= |s| && CanLead(s[i + 2..m], prefix) && PlaceholderAhead(s[m..], prefix)
  }

  ghost predicate Nested(s: string, prefix: string) {
    exists i, m: nat :: NestedAt(s, prefix, i, m)
  }

  lemma NotNestedSuffix(s: string, prefix: string, k: nat)
    requires !Nested(s, prefix) && k <= |s|
    ensures !Nested(s[k..], prefix)
  {
    forall i: nat, m: nat ensures !NestedAt(s[k..], prefix, i, m) {
      if NestedAt(s[k..], prefix, i, m) {
        assert s[k..][i + 2..m] == s[k + i + 2..k + m] && s[k..][m..] == s[k + m..];
        assert NestedAt(s, prefix, k + i, k + m);
      }
    }
  }

  predicate Comparable(a: string, b: string) {
    StartsWith(a, b) || StartsWith(b, a)
  }

  /** z holds, or can grow into, a placeholder of some key that the first phase does not bind. */
  ghost predicate CanBegin(z: string, prefix: string, c: Combo) {
    exists k :: PlainKey(k) && k !in c && Comparable(z, Placeholder(prefix, k))
  }

  /** Neither the value nor any tail of it, nor the value behind a dollar sign, can begin a
      placeholder of the second phase. */
  ghost predicate SafeValue(v: string, prefix: string, c: Combo) {
    forall i: nat :: i <= |v| ==> !CanBegin((['$'] + v)[i..], prefix, c)
  }

  ghost predicate SafeValues(c: Combo, prefix: string) {
    forall k :: k in c ==> SafeValue(c[k], prefix, c)
  }

  /** Values without a dollar sign that neither are empty nor begin with a brace: all that the
      alphabet of valid names allows. */
  predicate InertValues(combo: Combo) {
    forall k :: k in combo ==> combo[k] != "" && '$' !in combo[k] && combo[k][0] != '{'
  }

  lemma InertIsSafe(c: Combo, prefix: string)
    requires InertValues(c)
    ensures SafeValues(c, prefix)
  {
    forall k, i: nat | k in c && i <= |c[k]| ensures !CanBegin((['$'] + c[k])[i..], prefix, c) {
      InertTail(c[k], i, prefix, c);
    }
  }

  lemma InertTail(v: string, i: nat, prefix: string, c: Combo)
    requires v != "" && '$' !in v && v[0] != '{' && i <= |v|
    ensures !CanBegin((['$'] + v)[i..], prefix, c)
  {
    var z := (['$'] + v)[i..];
    forall k ensures !Comparable(z, Placeholder(prefix, k)) {
      var ph := Placeholder(prefix, k);
      assert ph[0] == '$' && ph[1] == '{';
      if i == 0 {
        assert z == ['$'] + v && z[1] == v[0];
        DifferAt(z, ph, 1);
      } else {
        assert z[0] == v[i - 1];
        DifferAt(z, ph, 0);
      }
    }
  }

  lemma DifferAt(a: string, b: string, i: nat)
    requires i < |a| && i < |b| && a[i] != b[i]
    ensures !Comparable(a, b)
  {
    if StartsWith(a, b) {
      AgreeAt(a, b, i);
    }
    if StartsWith(b, a) {
      AgreeAt(b, a, i);
    }
  }

  lemma AgreeAt(a: string, b: string, i: nat)
    requires StartsWith(a, b) && i < |b|
    ensures a[i] == b[i]
  {
    assert a[..|b|][i] == a[i];
  }

  // ---------------------------------------------------------------- single steps

  lemma NoKeyWithoutDollar(s: string, combo: Combo, prefix: string)
    requires s != "" && s[0] != '$'
    ensures KeyAt(s, combo, prefix).None?
  {
    var open := "${" + prefix;
    assert |open| <= |s| ==> s[..|open|][0] == s[0];
  }

  lemma CopyStep(c: char, t: string, combo: Combo, prefix: string)
    requires KeyAt([c] + t, combo, prefix).None?
    ensures Subst([c] + t, combo, prefix) == [c] + Subst(t, combo, prefix)
  {
    assert ([c] + t)[1..] == t;
  }

  lemma ReplaceStep(k: string, rest: string, combo: Combo, prefix: string)
    requires PlainKey(k) && k in combo
    ensures KeyAt(Placeholder(prefix, k) + rest, combo, prefix) == Some(k)
    ensures Subst(Placeholder(prefix, k) + rest, combo, prefix) == combo[k] + Subst(rest, combo, prefix)
  {
    var ph := Placeholder(prefix, k);
    var s := ph + rest;
    assert s[..|ph|] == ph && s[|ph|..] == rest;
    KeyAtPlaceholder(s, combo, prefix, k);
  }

  lemma {:induction false} InertPrefix(v: string, t: string, combo: Combo, prefix: string)
    requires '$' !in v
    ensures Subst(v + t, combo, prefix) == v + Subst(t, combo, prefix)
  {
    if v == "" {
      assert v + t == t;
    } else {
      InertPrefix(v[1..], t, combo, prefix);
      assert v + t == [v[0]] + (v[1..] + t);
      NoKeyWithoutDollar(v + t, combo, prefix);
      CopyStep(v[0], v[1..] + t, combo, prefix);
    }
  }

  /** A safe value in front is passed over by the second phase. */
  lemma {:induction false} SafePrefix(v: string, t: string, c1: Combo, c2: Combo, prefix: string)
    requires PlainKeysIn(c2) && c1.Keys !! c2.Keys
    requires forall i: nat :: i < |v| ==> !CanBegin(v[i..], prefix, c1)
    ensures Subst(v + t, c2, prefix) == v + Subst(t, c2, prefix)
  {
    if v == "" {
      assert v + t == t;
    } else {
      forall i: nat | i < |v[1..]| ensures !CanBegin(v[1..][i..], prefix, c1) {
        assert v[1..][i..] == v[i + 1..];
      }
      SafePrefix(v[1..], t, c1, c2, prefix);
      assert v[0..] == v;
      NoneBegins(v, t, c1, c2, prefix);
      CopyFirst(v, t, c2, prefix);
    }
  }

  lemma CopyFirst(v: string, t: string, c: Combo, prefix: string)
    requires v != "" && KeyAt(v + t, c, prefix).None?
    requires Subst(v[1..] + t, c, prefix) == v[1..] + Subst(t, c, prefix)
    ensures Subst(v + t, c, prefix) == v + Subst(t, c, prefix)
  {
    assert v + t == [v[0]] + (v[1..] + t);
    CopyStep(v[0], v[1..] + t, c, prefix);
    assert v == [v[0]] + v[1..];
  }

  lemma NoneBegins(v: string, t: string, c1: Combo, c2: Combo, prefix: string)
    requires PlainKeysIn(c2) && c1.Keys !! c2.Keys && !CanBegin(v, prefix, c1)
    ensures KeyAt(v + t, c2, prefix).None?
  {
    var key := KeyAt(v + t, c2, prefix);
    if key.Some? {
      var k := key.value;
      KeyAtIsMember(v + t, c2, prefix);
      KeyAtPlaceholder(v + t, c2, prefix, k);
      PrefixOfSum(v, t, Placeholder(prefix, k));
      assert false;
    }
  }

  lemma PrefixOfSum(v: string, t: string, w: string)
    requires StartsWith(v + t, w)
    ensures Comparable(v, w)
  {
    if |w| <= |v| {
      assert v[..|w|] == (v + t)[..|w|];
    } else {
      assert w[..|v|] == (v + t)[..|w|][..|v|] == v;
    }
  }

  /** If the substituted text starts with w, then so did the original, or a placeholder starts
      inside or at the front of w's place. */
  lemma {:induction false} StartsBefore(u: string, w: string, combo: Combo, prefix: string) returns (j: nat)
    requires StartsWith(Subst(u, combo, prefix), w)
    ensures j <= |w| && j <= |u| && u[..j] == w[..j]
    ensures j < |w| ==> KeyAt(u[j..], combo, prefix).Some?
    decreases |w|
  {
    if w == "" {
      j := 0;
    } else if KeyAt(u, combo, prefix).Some? {
      j := 0;
      assert u[0..] == u;
    } else {
      assert u != "";
      var t := Subst(u[1..], combo, prefix);
      CopiedFirst(u, t, w);
      var k := StartsBefore(u[1..], w[1..], combo, prefix);
      ShiftPrefix(u, w, k);
      assert u[k + 1..] == u[1..][k..];
      j := k + 1;
    }
  }

  lemma CopiedFirst(u: string, t: string, w: string)
    requires u != "" && w != "" && StartsWith([u[0]] + t, w)
    ensures u[0] == w[0] && StartsWith(t, w[1..])
  {
    assert ([u[0]] + t)[..|w|][0] == w[0];
    assert t[..|w| - 1] == ([u[0]] + t)[..|w|][1..];
  }

  lemma ShiftPrefix(u: string, w: string, k: nat)
    requires u != "" && w != "" && u[0] == w[0] && k < |u| && k < |w| && u[1..][..k] == w[1..][..k]
    ensures u[..k + 1] == w[..k + 1]
  {
    assert u[..k + 1] == [u[0]] + u[1..][..k] && w[..k + 1] == [w[0]] + w[1..][..k];
  }

  /** A text that starts with no placeholder still starts with none of the second phase's after the
      first phase has been applied behind its first character. */
  lemma NothingAppears(s: string, c1: Combo, c2: Combo, prefix: string)
    requires s != "" && !Nested(s, prefix) && PlainKey(prefix) && SafeValues(c1, prefix)
    requires PlainKeysIn(c1) && PlainKeysIn(c2) && c1.Keys !! c2.Keys
    requires KeyAt(s, c2, prefix).None?
    ensures KeyAt([s[0]] + Subst(s[1..], c1, prefix), c2, prefix).None?
  {
    var t := Subst(s[1..], c1, prefix);
    var key := KeyAt([s[0]] + t, c2, prefix);
    if key.Some? {
      KeyAtIsMember([s[0]] + t, c2, prefix);
      PlaceholderAppears(s, t, key.value, c1, c2, prefix);
    }
  }

  lemma KeyAtIsMember(s: string, combo: Combo, prefix: string)
    requires KeyAt(s, combo, prefix).Some?
    ensures KeyAt(s, combo, prefix).value in combo
  {
  }

  /** A placeholder behind its dollar sign. */
  function PlaceholderBody(prefix: string, k: string): (r: string)
    requires PlainKey(prefix) && PlainKey(k)
    ensures ['$'] + r == Placeholder(prefix, k) && '$' !in r && r[0] == '{' && '}' !in r[..|r| - 1]
  {
    "{" + prefix + k + "}"
  }

  lemma PlaceholderAppears(s: string, t: string, k: string, c1: Combo, c2: Combo, prefix: string)
    requires s != "" && !Nested(s, prefix) && PlainKey(prefix) && SafeValues(c1, prefix)
    requires PlainKeysIn(c1) && PlainKeysIn(c2) && c1.Keys !! c2.Keys
    requires t == Subst(s[1..], c1, prefix) && k in c2 && KeyAt([s[0]] + t, c2, prefix) == Some(k)
    ensures KeyAt(s, c2, prefix) == Some(k)
  {
    var u, w := s[1..], PlaceholderBody(prefix, k);
    KeyAtPlaceholder([s[0]] + t, c2, prefix, k);
    BodyFollows(s[0], t, w);
    var j := StartsBefore(u, w, c1, prefix);
    if j == |w| {
      PlaceholderBack(s, w);
      KeyAtPlaceholder(s, c2, prefix, k);
    } else if j == 0 {
      assert u[0..] == u;
      ValuesDoNotOpen(u, t, k, c1, prefix);
      assert false;
    } else {
      NestedOpening(s, u, k, j, c1, prefix);
      assert false;
    }
  }

  lemma BodyFollows(c: char, t: string, w: string)
    requires StartsWith([c] + t, ['$'] + w)
    ensures c == '$' && StartsWith(t, w)
  {
    CopiedFirst([c], t, ['$'] + w);
    assert (['$'] + w)[1..] == w;
  }

  lemma PlaceholderBack(s: string, w: string)
    requires s != "" && s[0] == '$' && StartsWith(s[1..], w)
    ensures StartsWith(s, ['$'] + w)
  {
    assert s[..|w| + 1] == [s[0]] + s[1..][..|w|];
  }

  /** A value that replaces a placeholder in front does not complete one behind a dollar sign. */
  lemma ValuesDoNotOpen(u: string, t: string, k: string, c1: Combo, prefix: string)
    requires t == Subst(u, c1, prefix) && KeyAt(u, c1, prefix).Some? && SafeValues(c1, prefix)
    requires PlainKey(prefix) && PlainKey(k) && k !in c1
    ensures !StartsWith(t, PlaceholderBody(prefix, k))
  {
    var w := PlaceholderBody(prefix, k);
    KeyAtIsMember(u, c1, prefix);
    var v := c1[KeyAt(u, c1, prefix).value];
    var rest := Subst(u[|Placeholder(prefix, KeyAt(u, c1, prefix).value)|..], c1, prefix);
    assert t == v + rest;
    if StartsWith(t, w) {
      PlaceholderBack(['$'] + t, w);
      assert (['$'] + v) + rest == ['$'] + t;
      PrefixOfSum(['$'] + v, rest, ['$'] + w);
      assert (['$'] + v)[0..] == ['$'] + v;
      assert CanBegin((['$'] + v)[0..], prefix, c1);
      assert false;
    }
  }

  lemma NestedOpening(s: string, u: string, k: string, j: nat, c1: Combo, prefix: string)
    requires s != "" && s[0] == '$' && u == s[1..] && PlainKey(prefix) && PlainKey(k) && PlainKeysIn(c1)
    requires var w := PlaceholderBody(prefix, k); 0 < j < |w| && j <= |u| && u[..j] == w[..j]
    requires KeyAt(u[j..], c1, prefix).Some?
    ensures Nested(s, prefix)
  {
    var w := PlaceholderBody(prefix, k);
    assert u[0] == u[..j][0] == w[..j][0] == '{';
    assert Opens(s, 0);
    var x := s[2..j + 1];
    assert x == u[..j][1..] == w[1..j];
    LeadsIn(prefix, k, x);
    KeyAtIsMember(u[j..], c1, prefix);
    KeyAtPlaceholder(u[j..], c1, prefix, KeyAt(u[j..], c1, prefix).value);
    assert s[j + 1..] == u[j..];
    assert PlaceholderAhead(s[j + 1..], prefix);
    assert NestedAt(s, prefix, 0, j + 1);
  }

  /** The beginning of a placeholder's inside can lead to a placeholder. */
  lemma LeadsIn(prefix: string, k: string, x: string)
    requires PlainKey(prefix) && PlainKey(k) && |x| <= |prefix + k| && x == (prefix + k)[..|x|]
    ensures CanLead(x, prefix)
  {
    if |x| <= |prefix| {
      assert prefix[..|x|] == x;
    } else {
      assert x[..|prefix|] == prefix;
    }
  }

  /** Substituting one phase after the other equals one pass with both phases' values, when no
      placeholder is nested in another and no value of the first phase can begin one. */
  lemma {:induction false} TwoPassesAreOne(s: string, c1: Combo, c2: Combo, prefix: string)
    requires !Nested(s, prefix) && PlainKey(prefix) && SafeValues(c1, prefix)
    requires PlainKeysIn(c1) && PlainKeysIn(c2) && c1.Keys !! c2.Keys
    ensures Subst(Subst(s, c1, prefix), c2, prefix) == Subst(s, c1 + c2, prefix)
    decreases |s|
  {
    if s != "" {
      match KeyAt(s, c1 + c2, prefix) {
        case Some(k) =>
          KeyAtIsMember(s, c1 + c2, prefix);
          KeyAtPlaceholder(s, c1 + c2, prefix, k);
          var n := |Placeholder(prefix, k)|;
          var rest := s[n..];
          assert s == Placeholder(prefix, k) + rest;
          NotNestedSuffix(s, prefix, n);
          TwoPassesAreOne(rest, c1, c2, prefix);
          if k in c1 {
            ReplaceStep(k, rest, c1, prefix);
            SafeTails(c1[k], prefix, c1);
            SafePrefix(c1[k], Subst(rest, c1, prefix), c1, c2, prefix);
          } else {
            CopyPlaceholder(k, rest, c1, prefix);
            ReplaceStep(k, Subst(rest, c1, prefix), c2, prefix);
          }
        case None =>
          NotNestedSuffix(s, prefix, 1);
          TwoPassesAreOne(s[1..], c1, c2, prefix);
          NothingAppears(s, c1, c2, prefix);
          CopyStep(s[0], Subst(s[1..], c1, prefix), c2, prefix);
      }
    }
  }

  lemma SafeTails(v: string, prefix: string, c: Combo)
    requires SafeValue(v, prefix, c)
    ensures forall i: nat :: i < |v| ==> !CanBegin(v[i..], prefix, c)
  {
    forall i: nat | i < |v| ensures !CanBegin(v[i..], prefix, c) {
      assert (['$'] + v)[i + 1..] == v[i..];
    }
  }

  lemma KeyIgnoresOthers(k: string, rest: string, combo: Combo, prefix: string)
    requires PlainKey(k) && PlainKeysIn(combo) && k !in combo
    ensures KeyAt(Placeholder(prefix, k) + rest, combo, prefix).None?
  {
    var s := Placeholder(prefix, k) + rest;
    assert s[..|Placeholder(prefix, k)|] == Placeholder(prefix, k);
    KeyAtStarts(s, combo, prefix);
    if KeyAt(s, combo, prefix).Some? {
      OneKeyStarts(s, prefix, k, KeyAt(s, combo, prefix).value);
      assert false;
    }
  }

  /** A text starts with at most one plain placeholder. */
  lemma OneKeyStarts(s: string, prefix: string, k: string, l: string)
    requires PlainKey(k) && PlainKey(l) && StartsWith(s, Placeholder(prefix, k)) && StartsWith(s, Placeholder(prefix, l))
    ensures k == l
  {
    var both: Combo := map[k := "", l := ""];
    KeyAtPlaceholder(s, both, prefix, k);
    KeyAtPlaceholder(s, both, prefix, l);
  }

  lemma CopyPlaceholder(k: string, rest: string, combo: Combo, prefix: string)
    requires PlainKey(prefix) && PlainKey(k) && PlainKeysIn(combo) && k !in combo
    ensures Subst(Placeholder(prefix, k) + rest, combo, prefix) == Placeholder(prefix, k) + Subst(rest, combo, prefix)
  {
    var body := PlaceholderBody(prefix, k);
    KeyIgnoresOthers(k, rest, combo, prefix);
    CopyBody(body, rest, combo, prefix);
  }

  lemma CopyBody(body: string, rest: string, combo: Combo, prefix: string)
    requires '$' !in body && KeyAt(['$'] + body + rest, combo, prefix).None?
    ensures Subst(['$'] + body + rest, combo, prefix) == ['$'] + body + Subst(rest, combo, prefix)
  {
    assert ['$'] + body + rest == ['$'] + (body + rest);
    CopyStep('$', body + rest, combo, prefix);
    InertPrefix(body, rest, combo, prefix);
    assert ['$'] + (body + Subst(rest, combo, prefix)) == ['$'] + body + Subst(rest, combo, prefix);
  }

  /** Nesting breaks the law: the first phase can complete the name of an outer placeholder, which a
      single pass leaves alone. */
  lemma NestingBreaksTwoPasses(prefix: string, a: string, b: string, v: string)
    requires PlainKey(prefix) && '{' !in prefix && PlainKey(a) && PlainKey(b) && b != "" && b[0] != '{' && a != b
    requires v != Placeholder(prefix, b) && '$' !in b
    ensures var s, c1, c2 := "${" + prefix + Placeholder(prefix, a) + "}", map[a := b], map[b := v];
      Subst(Subst(s, c1, prefix), c2, prefix) == v && Subst(s, c1 + c2, prefix) == Placeholder(prefix, b)
  {
    var c1: Combo, c2: Combo := map[a := b], map[b := v];
    var s := "${" + prefix + Placeholder(prefix, a) + "}";
    NestedPass(prefix, a, b, c1);
    assert (c1 + c2)[a] == b;
    NestedPass(prefix, a, b, c1 + c2);
    var mid := Placeholder(prefix, b);
    KeyAtPlaceholder(mid, c2, prefix, b);
    assert mid[..|mid|] == mid && mid[|mid|..] == "";
  }

  lemma NestedPass(prefix: string, a: string, b: string, c: Combo)
    requires PlainKey(prefix) && '{' !in prefix && PlainKey(a) && a in c && c[a] == b && PlainKey(b)
    requires PlainKeysIn(c)
    ensures Subst("${" + prefix + Placeholder(prefix, a) + "}", c, prefix) == Placeholder(prefix, b)
  {
    var body, inner := "{" + prefix, Placeholder(prefix, a);
    var tail := inner + "}";
    SplitOpening(prefix, inner);
    SplitOpening(prefix, b);
    NoKeyAcrossOpening("${" + prefix + inner + "}", c, prefix, tail);
    CopyStep('$', body + tail, c, prefix);
    InertPrefix(body, tail, c, prefix);
    NestedTail(prefix, a, c);
  }

  lemma SplitOpening(prefix: string, x: string)
    ensures "${" + prefix + x + "}" == ['$'] + (("{" + prefix) + (x + "}"))
    ensures "${" + prefix + x + "}" == "${" + prefix + (x + "}")
  {
  }

  lemma NestedTail(prefix: string, a: string, c: Combo)
    requires PlainKey(a) && a in c
    ensures Subst(Placeholder(prefix, a) + "}", c, prefix) == c[a] + "}"
  {
    ReplaceStep(a, "}", c, prefix);
    NoKeyWithoutDollar("}", c, prefix);
    CopyStep('}', "", c, prefix);
    assert ['}'] + "" == "}";
  }

  /** A placeholder whose name would contain another opening is not recognised. */
  lemma NoKeyAcrossOpening(s: string, c: Combo, prefix: string, tail: string)
    requires PlainKeysIn(c) && s == "${" + prefix + tail && tail != "" && tail[0] == '$'
    ensures KeyAt(s, c, prefix).None?
  {
    var rest := s[|prefix| + 2..];
    assert rest == tail;
    var i := IndexOf(rest, '}');
    if 0 < i < |rest| {
      assert rest[..i][0] == '$';
    }
  }

  // ---------------------------------------------------------------- how the law fails

  ghost predicate Law(s: string, c1: Combo, c2: Combo, prefix: string) {
    Subst(Subst(s, c1, prefix), c2, prefix) == Subst(s, c1 + c2, prefix)
  }

  lemma {:induction false} NeverLonger(s: string, k: string, prefix: string)
    requires PlainKey(k)
    ensures |Subst(s, map[k := ""], prefix)| <= |s|
    decreases |s|
  {
    if s != "" {
      var c: Combo := map[k := ""];
      match KeyAt(s, c, prefix) {
        case Some(j) =>
          KeyAtIsMember(s, c, prefix);
          KeyAtPlaceholder(s, c, prefix, j);
          NeverLonger(s[|Placeholder(prefix, j)|..], k, prefix);
        case None =>
          NeverLonger(s[1..], k, prefix);
      }
    }
  }

  /** Substituting the empty text for a placeholder that occurs somewhere shortens the text. */
  lemma {:induction false} Vanishes(s: string, k: string, q: nat, prefix: string)
    requires PlainKey(k) && q <= |s| && StartsWith(s[q..], Placeholder(prefix, k))
    ensures |Subst(s, map[k := ""], prefix)| < |s|
    decreases |s|
  {
    var c: Combo := map[k := ""];
    match KeyAt(s, c, prefix) {
      case Some(j) =>
        KeyAtIsMember(s, c, prefix);
        KeyAtPlaceholder(s, c, prefix, j);
        NeverLonger(s[|Placeholder(prefix, j)|..], k, prefix);
      case None =>
        assert q == 0 ==> s[q..] == s;
        KeyAtPlaceholder(s, c, prefix, k);
        assert s[1..][q - 1..] == s[q..];
        Vanishes(s[1..], k, q - 1, prefix);
    }
  }

  lemma {:induction false} SameWithout(s: string, c: Combo, k: string, prefix: string)
    requires PlainKeysIn(c) && PlainKey(k) && k !in c && !Contains(s, Placeholder(prefix, k))
    ensures Subst(s, c + map[k := ""], prefix) == Subst(s, c, prefix)
    decreases |s|
  {
    if s != "" {
      SameKeyWithout(s, c, k, prefix);
      match KeyAt(s, c, prefix) {
        case Some(j) =>
          KeyAtIsMember(s, c, prefix);
          KeyAtPlaceholder(s, c, prefix, j);
          NotInTail(s, Placeholder(prefix, k), |Placeholder(prefix, j)|);
          SameWithout(s[|Placeholder(prefix, j)|..], c, k, prefix);
        case None =>
          NotInTail(s, Placeholder(prefix, k), 1);
          SameWithout(s[1..], c, k, prefix);
      }
    }
  }

  lemma NotInTail(s: string, w: string, n: nat)
    requires !Contains(s, w) && n <= |s|
    ensures !Contains(s[n..], w)
  {
    forall i | 0 <= i <= |s[n..]| ensures !StartsWith(s[n..][i..], w) {
      assert s[n..][i..] == s[n + i..];
    }
  }

  lemma SameKeyWithout(s: string, c: Combo, k: string, prefix: string)
    requires PlainKeysIn(c) && PlainKey(k) && k !in c && !Contains(s, Placeholder(prefix, k))
    ensures KeyAt(s, c + map[k := ""], prefix) == KeyAt(s, c, prefix)
  {
    var more := c + map[k := ""];
    assert s[0..] == s;
    KeyAtPlaceholder(s, more, prefix, k);
  }

  /** The law fails where the first phase puts together a placeholder that was not there. */
  lemma BreaksLaw(s: string, c: Combo, k: string, q: nat, prefix: string)
    requires PlainKeysIn(c) && PlainKey(k) && k !in c && !Contains(s, Placeholder(prefix, k))
    requires q <= |Subst(s, c, prefix)| && StartsWith(Subst(s, c, prefix)[q..], Placeholder(prefix, k))
    ensures !Law(s, c, map[k := ""], prefix)
  {
    Vanishes(Subst(s, c, prefix), k, q, prefix);
    SameWithout(s, c, k, prefix);
  }

  // ---------------------------------------------------------------- a nested template fails

  function Pad(n: nat): (r: string)
    ensures |r| == n && forall c :: c in r ==> c == 'x'
  {
    seq(n, i => 'x')
  }

  lemma {:induction false} SubstNoClosing(t: string, c: Combo, prefix: string)
    requires '}' !in t
    ensures Subst(t, c, prefix) == t
  {
    if t != "" {
      SubstNoClosing(t[1..], c, prefix);
    }
  }

  /** A placeholder never reaches across a dollar sign, so a text can be cut in front of one. */
  lemma {:induction false} SubstCut(a: string, b: string, c: Combo, prefix: string)
    requires b != "" && b[0] == '$' && PlainKeysIn(c) && PlainKey(prefix)
    ensures Subst(a + b, c, prefix) == Subst(a, c, prefix) + Subst(b, c, prefix)
    decreases |a|
  {
    if a == "" {
      assert a + b == b;
    } else {
      SameKeyInFront(a, b, c, prefix);
      match KeyAt(a, c, prefix) {
        case Some(k) =>
          KeyAtIsMember(a, c, prefix);
          KeyAtPlaceholder(a, c, prefix, k);
          var n := |Placeholder(prefix, k)|;
          assert (a + b)[n..] == a[n..] + b;
          SubstCut(a[n..], b, c, prefix);
        case None =>
          assert (a + b)[1..] == a[1..] + b;
          SubstCut(a[1..], b, c, prefix);
      }
    }
  }

  lemma SameKeyInFront(a: string, b: string, c: Combo, prefix: string)
    requires a != "" && b != "" && b[0] == '$' && PlainKeysIn(c) && PlainKey(prefix)
    ensures KeyAt(a + b, c, prefix) == KeyAt(a, c, prefix)
  {
    forall k | k in c ensures KeyAt(a + b, c, prefix) == Some(k) <==> KeyAt(a, c, prefix) == Some(k) {
      KeyAtPlaceholder(a + b, c, prefix, k);
      KeyAtPlaceholder(a, c, prefix, k);
      OnlyInFront(a, b, Placeholder(prefix, k), PlaceholderBody(prefix, k));
    }
    if KeyAt(a + b, c, prefix).Some? {
      KeyAtIsMember(a + b, c, prefix);
    }
    if KeyAt(a, c, prefix).Some? {
      KeyAtIsMember(a, c, prefix);
    }
  }

  lemma ShortEnough(a: string, b: string, ph: string)
    requires b != "" && StartsWith(a + b, ph) && (|a| < |ph| ==> ph[|a|] != b[0])
    ensures |ph| <= |a|
  {
  }

  lemma OnlyInFront(a: string, b: string, ph: string, body: string)
    requires a != "" && b != "" && b[0] == '$' && ph == ['$'] + body && '$' !in body
    ensures StartsWith(a + b, ph) <==> StartsWith(a, ph)
  {
    assert |a| < |ph| ==> ph[|a|] == body[|a| - 1];
    if StartsWith(a + b, ph) {
      ShortEnough(a, b, ph);
      assert a[..|ph|] == (a + b)[..|ph|];
    }
    if StartsWith(a, ph) {
      assert (a + b)[..|ph|] == a[..|ph|];
    }
  }

  /** What completes the opening behind x to a placeholder of a long key. */
  function Completion(prefix: string, x: string, n: nat): (r: (string, string))
    requires PlainKey(prefix) && CanLead(x, prefix) && '{' !in prefix && n > 0
    ensures PlainKey(r.0) && |r.0| >= n && "${" + x + r.1 == Placeholder(prefix, r.0)
    ensures r.1 != "" && '$' !in r.1 && r.1[0] != '{'
  {
    if StartsWith(prefix, x) then
      assert prefix == x + prefix[|x|..];
      (Pad(n), prefix[|x|..] + Pad(n) + "}")
    else
      assert x == prefix + x[|prefix|..];
      (x[|prefix|..] + Pad(n), Pad(n) + "}")
  }

  /** A nested placeholder breaks the law, for an inert value of the first phase. */
  lemma NestedBreaks(s: string, prefix: string, i: nat, m: nat) returns (c1: Combo, c2: Combo)
    requires NestedAt(s, prefix, i, m) && PlainKey(prefix) && '{' !in prefix
    ensures PlainKeysIn(c1) && PlainKeysIn(c2) && c1.Keys !! c2.Keys && InertValues(c1)
    ensures !Law(s, c1, c2, prefix)
  {
    var k :| PlainKey(k) && StartsWith(s[m..], Placeholder(prefix, k));
    var x := s[i + 2..m];
    var (long, v) := Completion(prefix, x, |s| + 1);
    c1, c2 := map[k := v], map[long := ""];
    TooLongToOccur(s, Placeholder(prefix, long));
    assert k != long by { assert |s[m..]| <= |s|; }
    var q := CompletedAt(s, prefix, i, m, k, long, v);
    BreaksLaw(s, c1, long, q, prefix);
  }

  lemma TooLongToOccur(s: string, w: string)
    requires |w| > |s|
    ensures !Contains(s, w)
  {
  }

  lemma CompletedAt(s: string, prefix: string, i: nat, m: nat, k: string, long: string, v: string) returns (q: nat)
    requires Opens(s, i) && i + 2 <= m <= |s| && CanLead(s[i + 2..m], prefix) && PlainKey(prefix) && PlainKey(k)
    requires StartsWith(s[m..], Placeholder(prefix, k)) && "${" + s[i + 2..m] + v == Placeholder(prefix, long)
    ensures q <= |Subst(s, map[k := v], prefix)|
    ensures StartsWith(Subst(s, map[k := v], prefix)[q..], Placeholder(prefix, long))
  {
    var c: Combo := map[k := v];
    var a, open, b := s[..i], s[i..m], s[m..];
    assert open == "${" + s[i + 2..m];
    ThreeParts(s, i, m);
    SubstCut(a, open + b, c, prefix);
    OpenThenKey(open, b, prefix, k, v);
    q := |Subst(a, c, prefix)|;
    Follows(Subst(a, c, prefix), open, v, Subst(b[|Placeholder(prefix, k)|..], c, prefix));
  }

  lemma ThreeParts(s: string, i: nat, m: nat)
    requires i <= m <= |s|
    ensures s == s[..i] + (s[i..m] + s[m..])
  {
  }

  lemma OpenThenKey(open: string, b: string, prefix: string, k: string, v: string)
    requires PlainKey(prefix) && PlainKey(k) && StartsWith(b, Placeholder(prefix, k))
    requires '}' !in open
    ensures Subst(open + b, map[k := v], prefix) == open + (v + Subst(b[|Placeholder(prefix, k)|..], map[k := v], prefix))
  {
    var c: Combo := map[k := v];
    var rest := b[|Placeholder(prefix, k)|..];
    assert b[0] == b[..|Placeholder(prefix, k)|][0] == '$';
    SubstCut(open, b, c, prefix);
    SubstNoClosing(open, c, prefix);
    assert b == Placeholder(prefix, k) + rest;
    ReplaceStep(k, rest, c, prefix);
  }

  lemma Follows(a: string, b: string, c: string, d: string)
    ensures StartsWith((a + (b + (c + d)))[|a|..], b + c)
  {
    assert (a + (b + (c + d)))[|a|..] == b + c + d;
  }

  // ---------------------------------------------------------------- an unsafe value fails

  lemma {:induction false} LengthBound(keys: set<string>) returns (n: nat)
    ensures forall k :: k in keys ==> |k| <= n
  {
    n := 0;
    if keys != {} {
      var k :| k in keys;
      var m := LengthBound(keys - {k});
      n := if m < |k| then |k| else m;
    }
  }

  /** Some key that the combo does not bind, whose placeholder begins with z, or all of it is in z. */
  lemma FreshBeginning(z: string, prefix: string, c: Combo) returns (k: string, tail: string)
    requires CanBegin(z, prefix, c) && z != "" && PlainKey(prefix)
    ensures PlainKey(k) && k !in c && StartsWith(z + tail, Placeholder(prefix, k)) && '$' !in tail
  {
    var k0 :| PlainKey(k0) && k0 !in c && Comparable(z, Placeholder(prefix, k0));
    if StartsWith(z, Placeholder(prefix, k0)) {
      k, tail := k0, "";
      assert z + "" == z;
    } else {
      var n := LengthBound(c.Keys);
      k := k0 + Pad(n + 1);
      var body := PlaceholderBody(prefix, k);
      var ph := Placeholder(prefix, k);
      LongerKeySameStart(prefix, k0, Pad(n + 1), z);
      tail := ph[|z|..];
      assert z + tail == ph && ph[..|ph|] == ph;
      assert tail == body[|z| - 1..];
    }
  }

  lemma LongerKeySameStart(prefix: string, k: string, pad: string, z: string)
    requires StartsWith(Placeholder(prefix, k), z) && |z| < |Placeholder(prefix, k)|
    ensures StartsWith(Placeholder(prefix, k + pad), z)
  {
    var a, b := Placeholder(prefix, k), Placeholder(prefix, k + pad);
    assert a[..|a| - 1] == "${" + prefix + k == b[..|a| - 1];
    assert a[..|z|] == a[..|a| - 1][..|z|] == b[..|z|];
  }

  /** The template $${k}tail: its only dollar signs are the first two characters. */
  lemma DollarsInFront(prefix: string, k: string, tail: string)
    requires PlainKey(prefix) && PlainKey(k) && '$' !in tail
    ensures var s := ['$'] + Placeholder(prefix, k) + tail; forall q :: 2 <= q < |s| ==> s[q] != '$'
  {
    var body := PlaceholderBody(prefix, k);
    var s := ['$'] + Placeholder(prefix, k) + tail;
    assert s == ['$', '$'] + body + tail;
    forall q | 2 <= q < |s| ensures s[q] != '$' {
      assert s[q] == if q < 2 + |body| then body[q - 2] else tail[q - 2 - |body|];
    }
  }

  lemma FrontNotNested(prefix: string, k: string, tail: string)
    requires PlainKey(prefix) && PlainKey(k) && '$' !in tail
    ensures !Nested(['$'] + Placeholder(prefix, k) + tail, prefix)
  {
    var s := ['$'] + Placeholder(prefix, k) + tail;
    forall i: nat, m: nat ensures !NestedAt(s, prefix, i, m) {
      if NestedAt(s, prefix, i, m) {
        var j :| PlainKey(j) && StartsWith(s[m..], Placeholder(prefix, j));
        AgreeAt(s[m..], Placeholder(prefix, j), 0);
        DollarsInFront(prefix, k, tail);
        assert false;
      }
    }
  }

  lemma FrontHasNo(prefix: string, k: string, tail: string, other: string)
    requires PlainKey(prefix) && PlainKey(k) && '$' !in tail && PlainKey(other) && other != k
    ensures !Contains(['$'] + Placeholder(prefix, k) + tail, Placeholder(prefix, other))
  {
    var s, ph := ['$'] + Placeholder(prefix, k) + tail, Placeholder(prefix, other);
    forall q | 0 <= q <= |s| ensures !StartsWith(s[q..], ph) {
      if StartsWith(s[q..], ph) {
        AgreeAt(s[q..], ph, 0);
        AgreeAt(s[q..], ph, 1);
        DollarsInFront(prefix, k, tail);
        assert q == 1;
        assert s[1..] == Placeholder(prefix, k) + tail;
        KeyIgnoresOthers(k, tail, map[other := ""], prefix);
        KeyAtPlaceholder(s[1..], map[other := ""], prefix, other);
        assert false;
      }
    }
  }

  lemma FrontSubst(prefix: string, k: string, tail: string, c: Combo)
    requires PlainKey(prefix) && PlainKey(k) && k in c && '$' !in tail
    ensures Subst(['$'] + Placeholder(prefix, k) + tail, c, prefix) == ['$'] + c[k] + tail
  {
    var ph := Placeholder(prefix, k);
    var s := ['$'] + (ph + tail);
    assert ['$'] + ph + tail == s;
    assert s[1] == '$';
    assert KeyAt(s, c, prefix).None? by {
      if StartsWith(s, "${" + prefix) {
        AgreeAt(s, "${" + prefix, 1);
        assert false;
      }
    }
    CopyStep('$', ph + tail, c, prefix);
    ReplaceStep(k, tail, c, prefix);
    InertPrefix(tail, "", c, prefix);
    assert tail + "" == tail;
    assert ['$'] + (c[k] + tail) == ['$'] + c[k] + tail;
  }

  /** An unsafe value breaks the law, on a template without nesting. */
  lemma UnsafeBreaks(c: Combo, k: string, i: nat, prefix: string) returns (s: string, c2: Combo)
    requires PlainKeysIn(c) && PlainKey(prefix) && k in c && i <= |c[k]| && CanBegin((['$'] + c[k])[i..], prefix, c)
    ensures !Nested(s, prefix) && PlainKeysIn(c2) && c.Keys !! c2.Keys && !Law(s, c, c2, prefix)
  {
    var z := (['$'] + c[k])[i..];
    var long, tail := FreshBeginning(z, prefix, c);
    s, c2 := ['$'] + Placeholder(prefix, k) + tail, map[long := ""];
    FrontNotNested(prefix, k, tail);
    FrontHasNo(prefix, k, tail, long);
    FrontSubst(prefix, k, tail, c);
    assert (['$'] + c[k] + tail)[i..] == z + tail;
    BreaksLaw(s, c, long, i, prefix);
  }

  // ---------------------------------------------------------------- the exact conditions

  ghost predicate LawForInert(s: string, prefix: string) {
    forall c1: Combo, c2: Combo :: PlainKeysIn(c1) && PlainKeysIn(c2) && c1.Keys !! c2.Keys && InertValues(c1) ==>
      Law(s, c1, c2, prefix)
  }

  ghost predicate LawForSafe(s: string, prefix: string) {
    forall c1: Combo, c2: Combo :: PlainKeysIn(c1) && PlainKeysIn(c2) && c1.Keys !! c2.Keys && SafeValues(c1, prefix) ==>
      Law(s, c1, c2, prefix)
  }

  /** A template may be substituted in two passes, whatever inert (or just safe) values the first phase
      has, if and only if no placeholder in it is nested in an opening that could become another. */
  lemma TemplatesExactly(s: string, prefix: string)
    requires PlainKey(prefix) && '{' !in prefix
    ensures LawForInert(s, prefix) <==> !Nested(s, prefix)
    ensures LawForSafe(s, prefix) <==> !Nested(s, prefix)
  {
    if !Nested(s, prefix) {
      SafeOnPlainTemplate(s, prefix);
    }
    SafeCoversInert(s, prefix);
    if Nested(s, prefix) {
      var i, m: nat :| NestedAt(s, prefix, i, m);
      var c1, c2 := NestedBreaks(s, prefix, i, m);
      assert !LawForInert(s, prefix);
    }
  }

  lemma SafeOnPlainTemplate(s: string, prefix: string)
    requires PlainKey(prefix) && !Nested(s, prefix)
    ensures LawForSafe(s, prefix)
  {
    forall c1: Combo, c2: Combo | PlainKeysIn(c1) && PlainKeysIn(c2) && c1.Keys !! c2.Keys && SafeValues(c1, prefix)
      ensures Law(s, c1, c2, prefix)
    {
      TwoPassesAreOne(s, c1, c2, prefix);
    }
  }

  lemma SafeCoversInert(s: string, prefix: string)
    ensures LawForSafe(s, prefix) ==> LawForInert(s, prefix)
  {
    if LawForSafe(s, prefix) {
      forall c1: Combo, c2: Combo | PlainKeysIn(c1) && PlainKeysIn(c2) && c1.Keys !! c2.Keys && InertValues(c1)
        ensures Law(s, c1, c2, prefix)
      {
        InertIsSafe(c1, prefix);
      }
    }
  }

  ghost predicate LawForValues(c1: Combo, prefix: string) {
    forall s, c2: Combo :: !Nested(s, prefix) && PlainKeysIn(c2) && c1.Keys !! c2.Keys ==> Law(s, c1, c2, prefix)
  }

  /** The values of the first phase may be substituted ahead of the second, in every template without
      nesting, if and only if they are safe. */
  lemma ValuesExactly(c1: Combo, prefix: string)
    requires PlainKeysIn(c1) && PlainKey(prefix)
    ensures LawForValues(c1, prefix) <==> SafeValues(c1, prefix)
  {
    if SafeValues(c1, prefix) {
      forall s, c2: Combo | !Nested(s, prefix) && PlainKeysIn(c2) && c1.Keys !! c2.Keys ensures Law(s, c1, c2, prefix) {
        TwoPassesAreOne(s, c1, c2, prefix);
      }
    } else {
      var k :| k in c1 && !SafeValue(c1[k], prefix, c1);
      var i: nat :| i <= |c1[k]| && CanBegin((['$'] + c1[k])[i..], prefix, c1);
      var s, c2 := UnsafeBreaks(c1, k, i, prefix);
    }
  }

  /** A value that spells a placeholder of the second phase is substituted again. */
  lemma ValueBreaksTwoPasses(prefix: string, a: string, b: string, v: string)
    requires PlainKey(prefix) && PlainKey(a) && PlainKey(b) && a != b && v != Placeholder(prefix, b)
    ensures var s, c1, c2 := Placeholder(prefix, a), map[a := Placeholder(prefix, b)], map[b := v];
      Subst(Subst(s, c1, prefix), c2, prefix) == v && Subst(s, c1 + c2, prefix) == Placeholder(prefix, b)
  {
    var c1: Combo, c2: Combo := map[a := Placeholder(prefix, b)], map[b := v];
    WholePlaceholder(a, c1, prefix);
    WholePlaceholder(b, c2, prefix);
    WholePlaceholder(a, c1 + c2, prefix);
    assert (c1 + c2)[a] == c1[a];
  }

  lemma WholePlaceholder(k: string, c: Combo, prefix: string)
    requires PlainKey(k) && k in c
    ensures Subst(Placeholder(prefix, k), c, prefix) == c[k]
  {
    ReplaceStep(k, "", c, prefix);
    assert Placeholder(prefix, k) + "" == Placeholder(prefix, k) && c[k] + "" == c[k];
  }
}
