/** Template substitution: replacing ${prefix.key} placeholders in one pass, in any order of the keys. */
module Substitute {
  import opened Prelude
  import opened PipelineModel

  function Placeholder(prefix: string, k: string): string {
    "${" + prefix + k + "}"
  }

  // ---------------------------------------------------------------- the replacer

  /** strings.NewReplacer: at each position the first listed pair whose old text matches is applied
      and skipped over; otherwise one character is copied. */
  function FirstMatch(s: string, pairs: seq<(string, string)>): (r: Option<(string, string)>)
    ensures r.Some? ==> r.value in pairs && StartsWith(s, r.value.0)
    ensures r.None? ==> forall p :: p in pairs ==> !StartsWith(s, p.0)
  {
    if pairs == [] then None
    else if StartsWith(s, pairs[0].0) then Some(pairs[0])
    else FirstMatch(s, pairs[1..])
  }

  function Replace(s: string, pairs: seq<(string, string)>): string
    requires forall p :: p in pairs ==> p.0 != ""
    decreases |s|
  {
    if s == "" then ""
    else match FirstMatch(s, pairs)
      case Some(p) => p.1 + Replace(s[|p.0|..], pairs)
      case None => [s[0]] + Replace(s[1..], pairs)
  }

  // ---------------------------------------------------------------- the order-free reference

  /** The first key of the combo that ends in front of a closing brace of s, from position i on. */
  function KeyBefore(s: string, combo: Combo, i: nat): (r: Option<string>)
    requires i <= |s|
    ensures r.Some? ==> r.value in combo && i <= |r.value| < |s| && s[..|r.value|] == r.value && s[|r.value|] == '}'
    ensures forall j :: i <= j < (if r.Some? then |r.value| else |s|) ==> !(s[j] == '}' && s[..j] in combo)
    decreases |s| - i
  {
    if i == |s| then None
    else if s[i] == '}' && s[..i] in combo then Some(s[..i])
    else KeyBefore(s, combo, i + 1)
  }

  /** The key of the placeholder that s starts with, if it is one of the combo's. */
  function KeyAt(s: string, combo: Combo, prefix: string): Option<string> {
    var open := "${" + prefix;
    if StartsWith(s, open) then KeyBefore(s[|open|..], combo, 0) else None
  }

  function Subst(s: string, combo: Combo, prefix: string): string
    decreases |s|
  {
    if s == "" then ""
    else match KeyAt(s, combo, prefix)
      case Some(k) => combo[k] + Subst(s[|Placeholder(prefix, k)|..], combo, prefix)
      case None => [s[0]] + Subst(s[1..], combo, prefix)
  }

  predicate PlainKey(k: string) {
    '}' !in k && '$' !in k
  }

  predicate PlainKeysIn(combo: Combo) {
    forall k :: k in combo ==> PlainKey(k)
  }

  /** No key, with a closing brace behind it, begins another: no two placeholders can begin at one
      place. */
  predicate Unambiguous(keys: set<string>) {
    forall k, l :: k in keys && l in keys && k != l ==> !StartsWith(l, k + "}")
  }

  lemma PlainIsUnambiguous(combo: Combo)
    requires PlainKeysIn(combo)
    ensures Unambiguous(combo.Keys)
  {
    forall k, l | k in combo && l in combo && k != l ensures !StartsWith(l, k + "}") {
      ClosedKey(l, k);
    }
  }

  lemma PlaceholderSplits(s: string, prefix: string, k: string)
    ensures StartsWith(s, Placeholder(prefix, k)) <==>
      StartsWith(s, "${" + prefix) && StartsWith(s[|prefix| + 2..], k + "}")
  {
    var open, n := "${" + prefix, |prefix| + 2;
    var ph := Placeholder(prefix, k);
    assert ph == open + (k + "}");
    if StartsWith(s, ph) {
      assert s[..n] == s[..|ph|][..n] == open;
      assert s[n..][..|k| + 1] == s[..|ph|][n..] == k + "}";
    }
    if StartsWith(s, open) && StartsWith(s[n..], k + "}") {
      assert s[..|ph|] == s[..n] + s[n..][..|k| + 1];
    }
  }

  lemma ClosedKey(rest: string, k: string)
    ensures StartsWith(rest, k + "}") <==> |k| < |rest| && rest[..|k|] == k && rest[|k|] == '}'
  {
    if StartsWith(rest, k + "}") {
      assert rest[..|k|] == rest[..|k| + 1][..|k|] == k && rest[|k|] == rest[..|k| + 1][|k|] == '}';
    }
    if |k| < |rest| && rest[..|k|] == k && rest[|k|] == '}' {
      assert rest[..|k| + 1] == rest[..|k|] + [rest[|k|]];
    }
  }

  lemma KeyAtStarts(s: string, combo: Combo, prefix: string)
    ensures KeyAt(s, combo, prefix).Some? ==>
      KeyAt(s, combo, prefix).value in combo && StartsWith(s, Placeholder(prefix, KeyAt(s, combo, prefix).value))
  {
    var key := KeyAt(s, combo, prefix);
    if key.Some? {
      ClosedKey(s[|prefix| + 2..], key.value);
      PlaceholderSplits(s, prefix, key.value);
    }
  }

  lemma KeyAtPlaceholder(s: string, combo: Combo, prefix: string, k: string)
    requires PlainKey(k) && k in combo
    ensures StartsWith(s, Placeholder(prefix, k)) <==> KeyAt(s, combo, prefix) == Some(k)
  {
    PlaceholderSplits(s, prefix, k);
    if StartsWith(s, Placeholder(prefix, k)) {
      var rest := s[|prefix| + 2..];
      ClosedKey(rest, k);
      assert forall j :: 0 <= j < |k| ==> rest[j] == rest[..|k|][j];
    }
    KeyAtStarts(s, combo, prefix);
  }

  /** Among unambiguous keys the one found is the only one there. */
  lemma KeyAtUnique(s: string, combo: Combo, prefix: string, k: string)
    requires Unambiguous(combo.Keys) && k in combo
    ensures StartsWith(s, Placeholder(prefix, k)) <==> KeyAt(s, combo, prefix) == Some(k)
  {
    KeyAtStarts(s, combo, prefix);
    PlaceholderSplits(s, prefix, k);
    if StartsWith(s, Placeholder(prefix, k)) {
      var rest := s[|prefix| + 2..];
      ClosedKey(rest, k);
      var l := KeyBefore(rest, combo, 0).value;
      if l != k {
        assert k[..|l|] == rest[..|k|][..|l|] == l && k[|l|] == rest[..|k|][|l|] == '}';
        ClosedKey(k, l);
        assert false;
      }
    }
  }

  /** Lists the map's entries, in some order. */
  ghost predicate Enumerates(keys: seq<string>, combo: Combo) {
    forall k :: k in keys <==> k in combo
  }

  function PairsFor(keys: seq<string>, combo: Combo, prefix: string): (r: seq<(string, string)>)
    requires forall k :: k in keys ==> k in combo
    ensures |r| == |keys| && forall i :: 0 <= i < |r| ==> r[i] == (Placeholder(prefix, keys[i]), combo[keys[i]])
  {
    if keys == [] then [] else [(Placeholder(prefix, keys[0]), combo[keys[0]])] + PairsFor(keys[1..], combo, prefix)
  }

  /** With unambiguous keys at most one pair matches anywhere, and the order in which the map yields
      its entries does not matter. */
  lemma {:induction false} OrderDoesNotMatter(s: string, keys: seq<string>, combo: Combo, prefix: string)
    requires Unambiguous(combo.Keys) && Enumerates(keys, combo)
    ensures Replace(s, PairsFor(keys, combo, prefix)) == Subst(s, combo, prefix)
    decreases |s|
  {
    if s != "" {
      var pairs := PairsFor(keys, combo, prefix);
      match FirstMatch(s, pairs) {
        case Some(p) =>
          var i :| 0 <= i < |pairs| && pairs[i] == p;
          KeyAtUnique(s, combo, prefix, keys[i]);
          OrderDoesNotMatter(s[|p.0|..], keys, combo, prefix);
        case None =>
          KeyAtStarts(s, combo, prefix);
          forall k | k in combo ensures KeyAt(s, combo, prefix) != Some(k) {
            var i :| 0 <= i < |keys| && keys[i] == k;
            assert !StartsWith(s, pairs[i].0);
            KeyAtUnique(s, combo, prefix, k);
          }
          OrderDoesNotMatter(s[1..], keys, combo, prefix);
      }
    }
  }

  /** substituteVars, collecting the pairs in whatever order the map yields them. */
  method SubstituteVars(s: string, combo: Combo, prefix: string) returns (r: string)
    requires Unambiguous(combo.Keys)
    ensures r == Subst(s, combo, prefix)
  {
    if |combo| == 0 {
      SubstNothing(s, combo, prefix);
      return s;
    }
    var todo, keys: seq<string> := combo.Keys, [];
    var pairs: seq<(string, string)> := [];
    while todo != {}
      invariant todo <= combo.Keys
      invariant forall k :: k in keys <==> k in combo && k !in todo
      invariant pairs == PairsFor(keys, combo, prefix)
    {
      var k :| k in todo;
      assert PairsFor(keys + [k], combo, prefix) == pairs + [(Placeholder(prefix, k), combo[k])];
      keys, pairs := keys + [k], pairs + [(Placeholder(prefix, k), combo[k])];
      todo := todo - {k};
    }
    OrderDoesNotMatter(s, keys, combo, prefix);
    return Replace(s, pairs);
  }

  lemma {:induction false} SubstNothing(s: string, combo: Combo, prefix: string)
    requires combo == map[]
    ensures Subst(s, combo, prefix) == s
  {
    if s != "" {
      SubstNothing(s[1..], combo, prefix);
    }
  }
}
