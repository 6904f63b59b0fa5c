/** The key under which an included file is cached: its path and its parameters, encoded like those of a URL. */
module CacheKeys {
  import opened PipelineModel
  import opened Names

  predicate Unreserved(c: char) {
    'a' <= c <= 'z' || 'A' <= c <= 'Z' || '0' <= c <= '9' || c in "-_.~"
  }

  function HexDigit(d: nat): (c: char)
    requires d < 16
  {
    "0123456789ABCDEF"[d]
  }

  lemma HexDigitsDiffer(d: nat, e: nat)
    requires d < 16 && e < 16 && HexDigit(d) == HexDigit(e)
    ensures d == e
  {
  }

  /** url.QueryEscape of one byte. Characters beyond a byte do not occur and stand for themselves. */
  function EscapeChar(c: char): string {
    if Unreserved(c) || c as int >= 256 then [c]
    else if c == ' ' then "+"
    else ['%', HexDigit(c as int / 16), HexDigit(c as int % 16)]
  }

  function Escape(s: string): string {
    if s == "" then "" else EscapeChar(s[0]) + Escape(s[1..])
  }

  predicate Separator(c: char) {
    c == '&' || c == '=' || c == '?'
  }

  lemma EscapedCharIsPlain(c: char)
    ensures forall i :: 0 <= i < |EscapeChar(c)| ==> !Separator(EscapeChar(c)[i])
  {
  }

  lemma {:induction false} EscapeHasNoSeparator(s: string)
    ensures forall i :: 0 <= i < |Escape(s)| ==> !Separator(Escape(s)[i])
  {
    if s != "" {
      EscapedCharIsPlain(s[0]);
      EscapeHasNoSeparator(s[1..]);
      NoneInEither(EscapeChar(s[0]), Escape(s[1..]));
    }
  }

  lemma NoneInEither(a: string, b: string)
    requires forall i :: 0 <= i < |a| ==> !Separator(a[i])
    requires forall i :: 0 <= i < |b| ==> !Separator(b[i])
    ensures forall i :: 0 <= i < |a + b| ==> !Separator((a + b)[i])
  {
  }

  lemma FirstCharDecides(c: char, x: string, d: char, y: string)
    requires EscapeChar(c) + x == EscapeChar(d) + y
    ensures c == d && x == y
  {
    var s, t := EscapeChar(c) + x, EscapeChar(d) + y;
    assert s[0] == EscapeChar(c)[0] && t[0] == EscapeChar(d)[0];
    if |EscapeChar(c)| == 3 {
      assert s[1] == HexDigit(c as int / 16) && s[2] == HexDigit(c as int % 16);
      assert t[1] == HexDigit(d as int / 16) && t[2] == HexDigit(d as int % 16);
      HexDigitsDiffer(c as int / 16, d as int / 16);
      HexDigitsDiffer(c as int % 16, d as int % 16);
    }
    assert s[|EscapeChar(c)|..] == x && t[|EscapeChar(d)|..] == y;
  }

  lemma {:induction false} EscapeIsInjective(a: string, b: string)
    requires Escape(a) == Escape(b)
    ensures a == b
  {
    if a != "" && b != "" {
      FirstCharDecides(a[0], Escape(a[1..]), b[0], Escape(b[1..]));
      EscapeIsInjective(a[1..], b[1..]);
      assert a == [a[0]] + a[1..] && b == [b[0]] + b[1..];
    }
  }

  // ---------------------------------------------------------------- the query

  function QueryParts(keys: seq<string>, m: Combo): (r: seq<string>)
    requires forall k :: k in keys ==> k in m
    ensures |r| == |keys| && forall i :: 0 <= i < |r| ==> r[i] == PairText(Escape(keys[i]), Escape(m[keys[i]]))
  {
    seq(|keys|, i requires 0 <= i < |keys| && keys[i] in m => PairText(Escape(keys[i]), Escape(m[keys[i]])))
  }

  /** url.Values.Encode for single values. */
  function Encode(m: Combo): string {
    Join(QueryParts(SortedKeys(m.Keys), m), '&')
  }

  function CacheKey(path: string, params: Combo): string {
    if params == map[] then path else path + "?" + Encode(params)
  }

  lemma PartDecides(k: string, v: string, l: string, u: string)
    requires PairText(Escape(k), Escape(v)) == PairText(Escape(l), Escape(u))
    ensures k == l && v == u
  {
    EscapeHasNoSeparator(k);
    EscapeHasNoSeparator(l);
    FirstEquals(Escape(k), Escape(v));
    FirstEquals(Escape(l), Escape(u));
    EscapeIsInjective(k, l);
    EscapeIsInjective(v, u);
  }

  lemma PartsHaveNo(keys: seq<string>, m: Combo, sep: char)
    requires (forall k :: k in keys ==> k in m) && (sep == '&' || sep == '?')
    ensures forall p :: p in QueryParts(keys, m) ==> sep !in p
  {
    forall i | 0 <= i < |keys| ensures sep !in QueryParts(keys, m)[i] {
      EscapeHasNoSeparator(keys[i]);
      EscapeHasNoSeparator(m[keys[i]]);
    }
  }

  lemma PartsDecide(keys: seq<string>, m: Combo, keys': seq<string>, m': Combo)
    requires (forall k :: k in keys <==> k in m) && (forall k :: k in keys' <==> k in m')
    requires QueryParts(keys, m) == QueryParts(keys', m')
    ensures m == m'
  {
    var parts, parts' := QueryParts(keys, m), QueryParts(keys', m');
    forall i | 0 <= i < |keys| ensures keys[i] == keys'[i] && m[keys[i]] == m'[keys'[i]] {
      assert parts[i] == parts'[i];
      PartDecides(keys[i], m[keys[i]], keys'[i], m'[keys'[i]]);
    }
    assert |parts| == |parts'|;
    assert keys == keys';
    forall k | k in m ensures k in m' && m[k] == m'[k] {
      var i :| 0 <= i < |keys| && keys[i] == k;
    }
  }

  lemma EncodeIsInjective(m: Combo, m': Combo)
    requires m != map[] && m' != map[] && Encode(m) == Encode(m')
    ensures m == m'
  {
    var keys, keys' := SortedKeys(m.Keys), SortedKeys(m'.Keys);
    SomeKey(m);
    SomeKey(m');
    PartsHaveNo(keys, m, '&');
    PartsHaveNo(keys', m', '&');
    SplitOfJoin(QueryParts(keys, m), '&');
    SplitOfJoin(QueryParts(keys', m'), '&');
    PartsDecide(keys, m, keys', m');
  }

  lemma SomeKey(m: Combo)
    requires m != map[]
    ensures SortedKeys(m.Keys) != []
  {
    var k :| k in m;
    assert k in SortedKeys(m.Keys);
  }

  lemma {:induction false} JoinHasNo(parts: seq<string>, sep: char, c: char)
    requires c != sep && forall p :: p in parts ==> c !in p
    ensures c !in Join(parts, sep)
  {
    if |parts| > 1 {
      JoinHasNo(parts[1..], sep, c);
      assert parts[0] in parts;
    }
  }

  lemma EncodeHasNoQuestionMark(m: Combo)
    ensures '?' !in Encode(m)
  {
    PartsHaveNo(SortedKeys(m.Keys), m, '?');
    JoinHasNo(QueryParts(SortedKeys(m.Keys), m), '&', '?');
  }

  lemma LastQuestionMark(p: string, x: string)
    requires '?' !in x
    ensures AfterLast(p + "?" + x, '?') == |p| + 1
    ensures (p + "?" + x)[..|p|] == p && (p + "?" + x)[|p| + 1..] == x
  {
    var mark: string := ['?'];
    assert "?" == mark;
    LastSeparator(p, '?', x);
    AtSeparator(p, '?', x);
  }

  /** p carries, as part of its own name, what q with some parameters is cached under. */
  ghost predicate Shadows(p: string, q: string) {
    exists c: Combo :: c != map[] && p == CacheKey(q, c)
  }

  /** Two different requests share a cache key exactly when one has no parameters and its path
      spells out the other's path and parameters. */
  lemma KeysCollideExactly(p: string, c: Combo, q: string, d: Combo)
    ensures CacheKey(p, c) == CacheKey(q, d) && (p, c) != (q, d) <==>
      (c == map[] && d != map[] && p == CacheKey(q, d)) || (d == map[] && c != map[] && q == CacheKey(p, c))
  {
    if c != map[] && d != map[] && CacheKey(p, c) == CacheKey(q, d) {
      EncodeHasNoQuestionMark(c);
      EncodeHasNoQuestionMark(d);
      LastQuestionMark(p, Encode(c));
      LastQuestionMark(q, Encode(d));
      EncodeIsInjective(c, d);
    }
  }

  ghost predicate KeysApart(paths: set<string>) {
    forall p, q, c: Combo, d: Combo ::
      p in paths && q in paths && CacheKey(p, c) == CacheKey(q, d) ==> p == q && c == d
  }

  ghost predicate NoneShadows(paths: set<string>) {
    forall p, q :: p in paths && q in paths ==> !Shadows(p, q)
  }

  /** The key tells all requests for these paths apart if and only if no path shadows another. */
  lemma KeysApartIffNoShadow(paths: set<string>)
    ensures KeysApart(paths) <==> NoneShadows(paths)
  {
    if NoneShadows(paths) {
      forall p, q, c: Combo, d: Combo | p in paths && q in paths && CacheKey(p, c) == CacheKey(q, d)
        ensures p == q && c == d
      {
        SameKeyUnlessShadowed(p, c, q, d);
      }
    }
    if KeysApart(paths) {
      forall p, q | p in paths && q in paths ensures !Shadows(p, q) {
        ShadowSharesKey(paths, p, q);
      }
    }
  }

  lemma SameKeyUnlessShadowed(p: string, c: Combo, q: string, d: Combo)
    requires CacheKey(p, c) == CacheKey(q, d) && !Shadows(p, q) && !Shadows(q, p)
    ensures p == q && c == d
  {
    KeysCollideExactly(p, c, q, d);
  }

  lemma ShadowSharesKey(paths: set<string>, p: string, q: string)
    requires KeysApart(paths) && p in paths && q in paths
    ensures !Shadows(p, q)
  {
    forall c: Combo | c != map[] ensures p != CacheKey(q, c) {
      assert CacheKey(p, map[]) == p;
    }
  }

  lemma ShadowHasQuestionMark(p: string, q: string)
    requires Shadows(p, q)
    ensures '?' in p
  {
    var c: Combo :| c != map[] && p == CacheKey(q, c);
    assert p[|q|] == '?';
  }

  lemma PlainPathsAreApart(paths: set<string>)
    requires forall p :: p in paths ==> '?' !in p
    ensures KeysApart(paths)
  {
    forall p, q | p in paths && q in paths ensures !Shadows(p, q) {
      if Shadows(p, q) {
        ShadowHasQuestionMark(p, q);
      }
    }
    KeysApartIffNoShadow(paths);
  }
}
