/** When the order in which a map is listed matters. */
module ListingOrder {
  import opened Prelude
  import opened PipelineModel
  import opened Substitute

  /** keys lists the combo's entries as a loop over the map does: each once, in some order. */
  ghost predicate Lists(keys: seq<string>, combo: Combo) {
    Distinct(keys) && Enumerates(keys, combo)
  }

  /** Two listings of a combo give the same text. */
  ghost predicate ListingsAgree(s: string, ks: seq<string>, ls: seq<string>, combo: Combo, prefix: string) {
    Lists(ks, combo) && Lists(ls, combo) ==>
      Replace(s, PairsFor(ks, combo, prefix)) == Replace(s, PairsFor(ls, combo, prefix))
  }

  /** Whatever the values and the text, the order of the keys does not matter. */
  ghost predicate OrderIrrelevant(keys: set<string>, prefix: string) {
    forall s, ks, ls, c: Combo :: c.Keys == keys ==> ListingsAgree(s, ks, ls, c, prefix)
  }

  /** The order in which the map is listed never shows if and only if no key, with a closing brace
      behind it, begins another. */
  lemma OrderExactly(keys: set<string>, prefix: string)
    ensures OrderIrrelevant(keys, prefix) <==> Unambiguous(keys)
  {
    if Unambiguous(keys) {
      forall s, ks, ls, c: Combo | c.Keys == keys ensures ListingsAgree(s, ks, ls, c, prefix) {
        if Lists(ks, c) && Lists(ls, c) {
          OrderDoesNotMatter(s, ks, c, prefix);
          OrderDoesNotMatter(s, ls, c, prefix);
        }
      }
    } else {
      var k, l :| k in keys && l in keys && k != l && StartsWith(l, k + "}");
      var s, ks, ls, c := OrderShows(keys, k, l, prefix);
      assert !ListingsAgree(s, ks, ls, c, prefix);
    }
  }

  lemma {:induction false} SomeListing(keys: set<string>) returns (ks: seq<string>)
    ensures Distinct(ks) && forall k :: k in ks <==> k in keys
  {
    ks := [];
    if keys != {} {
      var k :| k in keys;
      ks := SomeListing(keys - {k});
      ks := [k] + ks;
    }
  }

  lemma ListingFrom(keys: set<string>, k: string) returns (ks: seq<string>)
    requires k in keys
    ensures ks != [] && ks[0] == k && Distinct(ks) && forall x :: x in ks <==> x in keys
  {
    var others := SomeListing(keys - {k});
    ks := [k] + others;
  }

  lemma OrderShows(keys: set<string>, k: string, l: string, prefix: string)
    returns (s: string, ks: seq<string>, ls: seq<string>, c: Combo)
    requires k in keys && l in keys && k != l && StartsWith(l, k + "}")
    ensures c.Keys == keys && Lists(ks, c) && Lists(ls, c)
    ensures Replace(s, PairsFor(ks, c, prefix)) != Replace(s, PairsFor(ls, c, prefix))
  {
    s := Placeholder(prefix, l);
    c := map x | x in keys :: if x == l then s else "";
    ks := ListingFrom(keys, k);
    ls := ListingFrom(keys, l);
    var t := l[|k| + 1..];
    assert l == k + "}" + t;
    ShortKeyFirst(ks, c, prefix, k, t);
    LittleLeft(t + "}", ks, c, prefix, l);
    LongKeyFirst(s, ls, c, prefix, l);
  }

  /** With the long key in front its placeholder is replaced as a whole. */
  lemma LongKeyFirst(s: string, ls: seq<string>, c: Combo, prefix: string, l: string)
    requires ls != [] && ls[0] == l && Enumerates(ls, c) && s == Placeholder(prefix, l)
    ensures Replace(s, PairsFor(ls, c, prefix)) == c[l]
  {
    assert s[..|s|] == s && s[|s|..] == "";
  }

  lemma PlaceholderOfSum(prefix: string, k: string, t: string)
    ensures Placeholder(prefix, k + "}" + t) == Placeholder(prefix, k) + (t + "}")
  {
    assert "${" + prefix + (k + "}" + t) + "}" == "${" + prefix + k + "}" + (t + "}");
  }

  /** With the short key in front it is found in the long one's place. */
  lemma ShortKeyFirst(ks: seq<string>, c: Combo, prefix: string, k: string, t: string)
    requires ks != [] && ks[0] == k && Enumerates(ks, c)
    ensures Replace(Placeholder(prefix, k + "}" + t), PairsFor(ks, c, prefix))
      == c[k] + Replace(t + "}", PairsFor(ks, c, prefix))
  {
    var ph := Placeholder(prefix, k);
    PlaceholderOfSum(prefix, k, t);
    var s := ph + (t + "}");
    assert s[..|ph|] == ph && s[|ph|..] == t + "}";
    assert PairsFor(ks, c, prefix)[0] == (ph, c[k]);
  }

  lemma LittleLeft(rest: string, ks: seq<string>, c: Combo, prefix: string, l: string)
    requires Enumerates(ks, c) && |rest| < |Placeholder(prefix, l)|
    requires forall x :: x in c && x != l ==> c[x] == ""
    ensures |Replace(rest, PairsFor(ks, c, prefix))| <= |rest|
  {
    var pairs := PairsFor(ks, c, prefix);
    forall p | p in pairs ensures p.0 != "" && (p.1 == "" || |p.0| > |rest|) {
      var i :| 0 <= i < |pairs| && pairs[i] == p;
    }
    Shrinks(rest, pairs);
  }

  lemma {:induction false} Shrinks(s: string, pairs: seq<(string, string)>)
    requires forall p :: p in pairs ==> p.0 != "" && (p.1 == "" || |p.0| > |s|)
    ensures |Replace(s, pairs)| <= |s|
    decreases |s|
  {
    if s != "" {
      match FirstMatch(s, pairs) {
        case Some(p) => Shrinks(s[|p.0|..], pairs);
        case None => Shrinks(s[1..], pairs);
      }
    }
  }

  /** Parameters named k and k}t make a text mean one thing or another, as the map is listed. */
  lemma OrderDecides(prefix: string, k: string, t: string, v: string, u: string)
    requires '$' !in t
    ensures var l := k + "}" + t;
      var c: Combo := map[k := v, l := u];
      Lists([k, l], c) && Lists([l, k], c)
      && Replace(Placeholder(prefix, l), PairsFor([k, l], c, prefix)) == v + t + "}"
      && Replace(Placeholder(prefix, l), PairsFor([l, k], c, prefix)) == u
  {
    var l := k + "}" + t;
    var c: Combo := map[k := v, l := u];
    var pairs := PairsFor([k, l], c, prefix);
    ShortKeyFirst([k, l], c, prefix, k, t);
    forall p | p in pairs ensures p.0 != "" && p.0[0] == '$' {
      var i :| 0 <= i < |pairs| && pairs[i] == p;
    }
    Untouched(t + "}", pairs);
    assert v + (t + "}") == v + t + "}";
    LongKeyFirst(Placeholder(prefix, l), [l, k], c, prefix, l);
  }

  lemma {:induction false} Untouched(s: string, pairs: seq<(string, string)>)
    requires '$' !in s && forall p :: p in pairs ==> p.0 != "" && p.0[0] == '$'
    ensures Replace(s, pairs) == s
  {
    if s != "" {
      forall p | p in pairs ensures !StartsWith(s, p.0) {
        assert |p.0| <= |s| ==> s[..|p.0|][0] == s[0];
      }
      Untouched(s[1..], pairs);
    }
  }
}
