/** Redaction of secrets: which are always removed. */
module Redact {
  import opened Prelude

  const MASK := "***"

  /** strings.ReplaceAll with the mask: leftmost matches first, without overlap. */
  function ReplaceAll(s: string, v: string): string
    requires v != ""
    decreases |s|
  {
    if s == "" then ""
    else if StartsWith(s, v) then MASK + ReplaceAll(s[|v|..], v)
    else [s[0]] + ReplaceAll(s[1..], v)
  }

  predicate NonEmpty(secrets: seq<string>) {
    forall i :: 0 <= i < |secrets| ==> |secrets[i]| > 0
  }

  function Redacted(s: string, secrets: seq<string>): string
    requires NonEmpty(secrets)
  {
    if secrets == [] then s else ReplaceAll(Redacted(s, secrets[..|secrets| - 1]), secrets[|secrets| - 1])
  }

  method RedactString(s: string, secrets: seq<string>) returns (r: string)
    requires NonEmpty(secrets)
    ensures r == Redacted(s, secrets)
  {
    r := s;
    for i := 0 to |secrets|
      invariant r == Redacted(s, secrets[..i])
    {
      assert secrets[..i + 1][..i] == secrets[..i];
      r := ReplaceAll(r, secrets[i]);
    }
    assert secrets[..|secrets|] == secrets;
  }

  /** Longer values come before shorter ones. */
  ghost predicate LongestFirst(vals: seq<string>) {
    forall i, j :: 0 <= i < j < |vals| ==> |vals[i]| >= |vals[j]|
  }

  /** sortedSecretValues; the order among values of equal length is the sort's choice. */
  method SortedSecretValues(secrets: map<string, string>) returns (vals: seq<string>)
    ensures LongestFirst(vals)
    ensures forall v :: v in vals <==> v != "" && exists k :: k in secrets && secrets[k] == v
  {
    vals := [];
    var todo := set k | k in secrets && secrets[k] != "";
    while todo != {}
      invariant forall k :: k in todo ==> k in secrets && secrets[k] != ""
      invariant LongestFirst(vals)
      invariant forall i, k :: 0 <= i < |vals| && k in todo ==> |vals[i]| >= |secrets[k]|
      invariant forall v :: v in vals ==> v != "" && exists k :: k in secrets && secrets[k] == v
      invariant forall k :: k in secrets && secrets[k] != "" && k !in todo ==> secrets[k] in vals
    {
      LongestExists(todo, secrets);
      var k :| k in todo && forall x :: x in todo ==> |secrets[x]| <= |secrets[k]|;
      vals := vals + [secrets[k]];
      todo := todo - {k};
    }
  }

  lemma {:induction false} LongestExists(keys: set<string>, m: map<string, string>)
    requires keys != {} && forall k :: k in keys ==> k in m
    ensures exists k :: k in keys && forall x :: x in keys ==> |m[x]| <= |m[k]|
  {
    var x :| x in keys;
    if keys != {x} {
      LongestExists(keys - {x}, m);
      var k :| k in keys - {x} && forall y :: y in keys - {x} ==> |m[y]| <= |m[k]|;
      var best := if |m[k]| >= |m[x]| then k else x;
      assert forall y :: y in keys ==> y == x || y in keys - {x};
      assert best in keys && forall y :: y in keys ==> |m[y]| <= |m[best]|;
    } else {
      assert forall y :: y in keys ==> y == x;
    }
  }

  // ---------------------------------------------------------------- nothing leaks

  /** A value the mask cannot help to spell: it neither starts nor ends with a star and has no three
      stars in a row. */
  predicate MaskSafe(v: string) {
    v != "" && v[0] != '*' && EndsSafe(v)
  }

  predicate EndsSafe(w: string) {
    (w != "" ==> w[|w| - 1] != '*') && forall i: nat :: i < |w| ==> !StarsAt(w, i)
  }

  predicate StarsAt(w: string, i: nat) {
    i + 3 <= |w| && w[i] == w[i + 1] == w[i + 2] == '*'
  }

  lemma EndsSafeTail(w: string)
    requires EndsSafe(w) && w != ""
    ensures EndsSafe(w[1..])
  {
    forall i: nat | i < |w[1..]| ensures !StarsAt(w[1..], i) {
      assert !StarsAt(w, i + 1);
    }
  }

  lemma StartOfMask(w: string, rest: string)
    requires w != "" && StartsWith(MASK + rest, w)
    ensures StarsAt(w, 0) || w[|w| - 1] == '*'
  {
    forall k | 0 <= k < |w| && k < 3 ensures w[k] == '*' {
      assert w[k] == (MASK + rest)[..|w|][k];
    }
  }

  lemma NeverStartsAtMask(w: string, rest: string)
    requires EndsSafe(w) && StartsWith(MASK + rest, w)
    ensures w == ""
  {
    if w != "" {
      StartOfMask(w, rest);
    }
  }

  /** What a redacted text starts with, the text started with. */
  lemma {:induction false} PrefixWasThere(s: string, v: string, w: string)
    requires v != "" && EndsSafe(w) && StartsWith(ReplaceAll(s, v), w)
    ensures StartsWith(s, w)
    decreases |s|
  {
    if s != "" && w != "" {
      if StartsWith(s, v) {
        NeverStartsAtMask(w, ReplaceAll(s[|v|..], v));
      } else {
        var t := ReplaceAll(s[1..], v);
        assert w[0] == ([s[0]] + t)[..|w|][0] == s[0];
        assert t[..|w| - 1] == ([s[0]] + t)[..|w|][1..] == w[1..];
        EndsSafeTail(w);
        PrefixWasThere(s[1..], v, w[1..]);
        assert s[..|w|] == [s[0]] + s[1..][..|w| - 1] == w;
      }
    }
  }

  lemma ContainsInTail(s: string, k: nat, u: string)
    requires k <= |s| && Contains(s[k..], u)
    ensures Contains(s, u)
  {
    var i :| 0 <= i <= |s[k..]| && StartsWith(s[k..][i..], u);
    assert s[k..][i..] == s[k + i..];
  }

  lemma NotInsideMask(rest: string, u: string)
    requires MaskSafe(u) && Contains(MASK + rest, u)
    ensures Contains(rest, u)
  {
    var s := MASK + rest;
    var i :| 0 <= i <= |s| && StartsWith(s[i..], u);
    assert s[i..][..|u|][0] == s[i];
    assert i >= 3;
    assert s[i..] == rest[i - 3..];
  }

  lemma ContainsSplit(c: char, t: string, u: string)
    requires Contains([c] + t, u)
    ensures StartsWith([c] + t, u) || Contains(t, u)
  {
    var s := [c] + t;
    var i :| 0 <= i <= |s| && StartsWith(s[i..], u);
    if i == 0 {
      assert s[0..] == s;
    } else {
      assert s[i..] == t[i - 1..];
    }
  }

  lemma EmptyHoldsNothing(u: string)
    requires u != ""
    ensures !Contains("", u)
  {
  }

  /** A replacement removes its own value and re-creates no other: what a redacted text contains, the
      text contained, and it is not the value just replaced. */
  lemma {:induction false} NothingAppears(s: string, v: string, u: string)
    requires v != "" && MaskSafe(u) && Contains(ReplaceAll(s, v), u)
    ensures Contains(s, u) && u != v
    decreases |s|
  {
    EmptyHoldsNothing(u);
    if s == "" {
    } else if StartsWith(s, v) {
      NotInsideMask(ReplaceAll(s[|v|..], v), u);
      NothingAppears(s[|v|..], v, u);
      ContainsInTail(s, |v|, u);
    } else {
      var t := ReplaceAll(s[1..], v);
      ContainsSplit(s[0], t, u);
      if StartsWith([s[0]] + t, u) {
        PrefixWasThere(s, v, u);
        assert s[0..] == s;
      } else {
        NothingAppears(s[1..], v, u);
        ContainsInTail(s, 1, u);
      }
    }
  }

  /** Redaction is complete: whatever the text, whatever the other secrets and their order, a secret
      that is safe from the mask survives nowhere in the result. */
  lemma {:induction false} NoSecretSurvives(s: string, secrets: seq<string>, u: string)
    requires NonEmpty(secrets) && u in secrets && MaskSafe(u)
    ensures !Contains(Redacted(s, secrets), u)
  {
    var front, last := secrets[..|secrets| - 1], secrets[|secrets| - 1];
    assert NonEmpty(front) && |last| > 0;
    var before := Redacted(s, front);
    if Contains(ReplaceAll(before, last), u) {
      NothingAppears(before, last, u);
      assert u in front;
      NoSecretSurvives(s, front, u);
      assert false;
    }
  }

  // ---------------------------------------------------------------- the condition is exact

  lemma {:induction false} ShortIsUnchanged(s: string, v: string)
    requires |s| < |v|
    ensures ReplaceAll(s, v) == s
  {
    if s != "" {
      ShortIsUnchanged(s[1..], v);
    }
  }

  lemma {:induction false} SkipsTo(a: string, b: string, v: string)
    requires v != "" && forall i :: 0 <= i < |a| ==> !StartsWith((a + b)[i..], v)
    ensures ReplaceAll(a + b, v) == a + ReplaceAll(b, v)
  {
    if a == "" {
      assert a + b == b;
    } else {
      var s := a + b;
      assert s[0..] == s && s[1..] == a[1..] + b;
      forall i | 0 <= i < |a[1..]| ensures !StartsWith((a[1..] + b)[i..], v) {
        assert (a[1..] + b)[i..] == s[i + 1..];
      }
      SkipsTo(a[1..], b, v);
    }
  }

  lemma ReplacesWhole(v: string, b: string)
    requires v != "" && |b| < |v|
    ensures ReplaceAll(v + b, v) == MASK + b
  {
    assert (v + b)[..|v|] == v && (v + b)[|v|..] == b;
    ShortIsUnchanged(b, v);
  }

  lemma LeakAtStart(v: string) returns (t: string)
    requires v != "" && v[0] == '*'
    ensures Contains(ReplaceAll(t, v), v)
  {
    t := v + v[1..];
    ReplacesWhole(v, v[1..]);
    var r := MASK + v[1..];
    assert r[2..] == ['*'] + v[1..] == v;
    assert StartsWith(r[2..], v);
  }

  lemma LeakAtEnd(v: string) returns (t: string)
    requires v != "" && v[0] != '*' && v[|v| - 1] == '*'
    ensures Contains(ReplaceAll(t, v), v)
  {
    var w := v[..|v| - 1];
    t := w + v;
    ShiftedNever(w, v);
    SkipsTo(w, v, v);
    assert v + "" == v;
    ReplacesWhole(v, "");
    FrontAndMask(v);
  }

  lemma ShiftedNever(w: string, v: string)
    requires v != "" && v[0] != '*' && v[|v| - 1] == '*' && w == v[..|v| - 1]
    ensures forall i :: 0 <= i < |w| ==> !StartsWith((w + v)[i..], v)
  {
    var t := w + v;
    forall i | 0 <= i < |w| ensures !StartsWith(t[i..], v) {
      assert t[i + |w|] == v[i] == t[i];
      assert t[i..][..|v|][|w|] == t[i + |w|] && t[i..][..|v|][0] == t[i];
    }
  }

  lemma FrontAndMask(v: string)
    requires v != "" && v[|v| - 1] == '*'
    ensures Contains(v[..|v| - 1] + (MASK + ""), v)
  {
    var r := v[..|v| - 1] + (MASK + "");
    assert r[0..][..|v|] == v[..|v| - 1] + ['*'] == v;
    assert StartsWith(r[0..], v);
  }

  lemma {:induction false} FirstStars(v: string, i: nat) returns (m: nat)
    requires StarsAt(v, i)
    ensures StarsAt(v, m) && forall k: nat :: k < m ==> !StarsAt(v, k)
  {
    if k: nat :| k < i && StarsAt(v, k) {
      m := FirstStars(v, k);
    } else {
      m := i;
    }
  }

  lemma EarlierStars(v: string, m: nat, k: nat)
    requires StarsAt(v, m) && k < m
    requires StartsWith((v[..m] + (v + v[m + 3..]))[k..], v)
    ensures StarsAt(v, k)
  {
    var t := v[..m] + (v + v[m + 3..]);
    var s := t[k..][..|v|];
    assert s == v;
    assert s[m] == t[k + m] && s[m + 1] == t[k + m + 1] && s[m + 2] == t[k + m + 2];
    assert t[m..] == v + v[m + 3..];
    assert t[m + k] == v[k] && t[m + (k + 1)] == v[k + 1] && t[m + (k + 2)] == v[k + 2];
  }

  lemma LeakInside(v: string, i: nat) returns (t: string)
    requires StarsAt(v, i)
    ensures v != "" && Contains(ReplaceAll(t, v), v)
  {
    var m := FirstStars(v, i);
    var a, b := v[..m], v[m + 3..];
    t := a + (v + b);
    forall k: nat | k < |a| ensures !StartsWith(t[k..], v) {
      if StartsWith(t[k..], v) {
        EarlierStars(v, m, k);
        assert false;
      }
    }
    SkipsTo(a, v + b, v);
    ReplacesWhole(v, b);
    var r := a + (MASK + b);
    assert r == v && r[0..] == v;
    assert StartsWith(r[0..], v);
  }

  ghost predicate AlwaysRedacted(v: string)
    requires v != ""
  {
    forall t :: !Contains(ReplaceAll(t, v), v)
  }

  /** A single secret is redacted from every text if and only if it is safe from the mask. */
  lemma SafeIffAlwaysRedacted(v: string)
    requires v != ""
    ensures MaskSafe(v) <==> AlwaysRedacted(v)
  {
    if MaskSafe(v) {
      forall t ensures !Contains(ReplaceAll(t, v), v) {
        if Contains(ReplaceAll(t, v), v) {
          NothingAppears(t, v, v);
        }
      }
    } else {
      var t := SomeLeak(v);
    }
  }

  lemma SomeLeak(v: string) returns (t: string)
    requires v != "" && !MaskSafe(v)
    ensures Contains(ReplaceAll(t, v), v)
  {
    if v[0] == '*' {
      t := LeakAtStart(v);
    } else if v[|v| - 1] == '*' {
      t := LeakAtEnd(v);
    } else {
      var i: nat :| i < |v| && StarsAt(v, i);
      t := LeakInside(v, i);
    }
  }

  /** No list of secrets that holds u leaves it in any text. */
  ghost predicate LoopAlwaysRemoves(u: string) {
    forall t, secrets :: NonEmpty(secrets) && u in secrets ==> !Contains(Redacted(t, secrets), u)
  }

  /** The redaction loop removes a secret from every text, whatever else it is asked to remove, if and
      only if the secret is safe from the mask. */
  lemma LoopRemovesExactly(u: string)
    requires u != ""
    ensures MaskSafe(u) <==> LoopAlwaysRemoves(u)
  {
    if MaskSafe(u) {
      forall t, secrets | NonEmpty(secrets) && u in secrets ensures !Contains(Redacted(t, secrets), u) {
        NoSecretSurvives(t, secrets, u);
      }
    } else {
      var t := SomeLeak(u);
      OneSecret(t, u);
      assert NonEmpty([u]) && u in [u];
    }
  }

  lemma OneSecret(t: string, u: string)
    requires u != ""
    ensures NonEmpty([u]) && Redacted(t, [u]) == ReplaceAll(t, u)
  {
    assert [u][..0] == [];
    assert Redacted(t, []) == t;
  }

  lemma {:induction false} AbsentIsUnchanged(s: string, v: string)
    requires v != "" && !Contains(s, v)
    ensures ReplaceAll(s, v) == s
    decreases |s|
  {
    if s != "" {
      assert s[0..] == s && !StartsWith(s[0..], v);
      if Contains(s[1..], v) {
        ContainsInTail(s, 1, v);
      }
      AbsentIsUnchanged(s[1..], v);
    }
  }

  lemma OnlyContainsItself(s: string, u: string)
    requires Contains(s, u) && |u| >= |s|
    ensures u == s
  {
    var i :| 0 <= i <= |s| && StartsWith(s[i..], u);
    assert i == 0 ==> s[0..][..|u|] == s;
  }

  lemma MaskHoldsNoSecret(u: string)
    requires MaskSafe(u)
    ensures !Contains(MASK, u)
  {
    assert MASK + "" == MASK;
    EmptyHoldsNothing(u);
    if Contains(MASK, u) {
      NotInsideMask("", u);
    }
  }

  /** No secret consists of mask characters only, so that a mask once written stays. */
  ghost predicate MaskStays(secrets: seq<string>) {
    forall u :: u in secrets ==> !Contains(MASK, u)
  }

  /** Longest first, a text that is itself a secret is masked as a whole: no shorter secret inside it
      gets to leave the rest behind. */
  lemma {:induction false} WholeSecretIsMasked(secrets: seq<string>, v: string)
    requires NonEmpty(secrets) && LongestFirst(secrets) && MaskStays(secrets)
    ensures v in secrets ==> Redacted(v, secrets) == MASK
    ensures v !in secrets && (forall u :: u in secrets ==> |u| >= |v|) ==> Redacted(v, secrets) == v
  {
    if secrets != [] {
      var front, last := secrets[..|secrets| - 1], secrets[|secrets| - 1];
      assert secrets == front + [last];
      WholeSecretIsMasked(front, v);
      if v in front {
        AbsentIsUnchanged(MASK, last);
      } else if v == last {
        assert forall i :: 0 <= i < |front| ==> |secrets[i]| >= |last|;
        assert v + "" == v && MASK + "" == MASK;
        ReplacesWhole(v, "");
      } else if forall u :: u in secrets ==> |u| >= |v| {
        if Contains(v, last) {
          OnlyContainsItself(v, last);
        }
        AbsentIsUnchanged(v, last);
      }
    }
  }

  /** So with mask-safe secrets, longest first, every one of them is masked as a whole. */
  lemma SafeSecretsAreMasked(secrets: seq<string>, v: string)
    requires NonEmpty(secrets) && LongestFirst(secrets) && v in secrets
    requires forall u :: u in secrets ==> MaskSafe(u)
    ensures Redacted(v, secrets) == MASK
  {
    forall u | u in secrets ensures !Contains(MASK, u) {
      MaskHoldsNoSecret(u);
    }
    WholeSecretIsMasked(secrets, v);
  }

  // ---------------------------------------------------------------- redactStatus

  datatype Warning = Warning(short: string, detail: seq<string>)

  /** The parts of a solve status that can carry text from the build. */
  class SolveStatus {
    var logs: seq<string>
    var errors: seq<string>
    var warnings: seq<Warning>

    constructor (logs: seq<string>, errors: seq<string>, warnings: seq<Warning>)
      ensures this.logs == logs && this.errors == errors && this.warnings == warnings
    {
      this.logs, this.errors, this.warnings := logs, errors, warnings;
    }

    /** Every text the status carries. */
    function Texts(): set<string>
      reads this
    {
      TextsIn(logs, errors, warnings)
    }

    method RedactAll(texts: seq<string>, secrets: seq<string>) returns (r: seq<string>)
      requires NonEmpty(secrets)
      ensures |r| == |texts| && forall i :: 0 <= i < |r| ==> r[i] == Redacted(texts[i], secrets)
    {
      r := [];
      for i := 0 to |texts|
        invariant |r| == i && forall k :: 0 <= k < i ==> r[k] == Redacted(texts[k], secrets)
      {
        var t := RedactString(texts[i], secrets);
        r := r + [t];
      }
    }

    /** redactStatus: overwrites every text in place by its redaction; no mask-safe secret is left in
        any of them. */
    method RedactStatus(secrets: map<string, string>) returns (ghost vals: seq<string>)
      modifies this
      ensures LongestFirst(vals) && forall v :: v in vals <==> v != "" && exists k :: k in secrets && secrets[k] == v
      ensures AreRedacted(old(logs), logs, vals) && AreRedacted(old(errors), errors, vals)
      ensures |warnings| == |old(warnings)| && forall i :: 0 <= i < |warnings| ==> WarningRedacted(old(warnings)[i], warnings[i], vals)
      ensures forall k, t :: k in secrets && secrets[k] != "" && MaskSafe(secrets[k]) && t in Texts() ==> !Contains(t, secrets[k])
    {
      vals := [];
      if |secrets| == 0 {
        NothingToRedact(logs, errors, warnings);
        return;
      }
      var sorted := SortedSecretValues(secrets);
      vals := sorted;
      MembersNonEmpty(sorted);
      logs := RedactAll(logs, sorted);
      errors := RedactAll(errors, sorted);
      var done: seq<Warning> := [];
      for i := 0 to |warnings|
        invariant |done| == i && warnings == old(warnings)
        invariant forall k :: 0 <= k < i ==> WarningRedacted(old(warnings)[k], done[k], sorted)
        modifies {}
      {
        var short := RedactString(warnings[i].short, sorted);
        var detail := RedactAll(warnings[i].detail, sorted);
        done := done + [Warning(short, detail)];
      }
      warnings := done;
      forall t | t in Texts() ensures Clean(t, sorted) {
        TextIsClean(old(logs), logs, old(errors), errors, old(warnings), warnings, sorted, t);
      }
    }
  }

  ghost predicate AreRedacted(before: seq<string>, after: seq<string>, vals: seq<string>) {
    NonEmpty(vals) && |after| == |before| && forall i :: 0 <= i < |after| ==> after[i] == Redacted(before[i], vals)
  }

  ghost predicate WarningRedacted(before: Warning, after: Warning, vals: seq<string>) {
    NonEmpty(vals) && after.short == Redacted(before.short, vals) && AreRedacted(before.detail, after.detail, vals)
  }

  lemma MembersNonEmpty(vals: seq<string>)
    requires forall v :: v in vals ==> v != ""
    ensures NonEmpty(vals)
  {
    forall i | 0 <= i < |vals| ensures |vals[i]| > 0 {
      assert vals[i] in vals;
    }
  }

  lemma NothingToRedact(logs: seq<string>, errors: seq<string>, warnings: seq<Warning>)
    ensures AreRedacted(logs, logs, []) && AreRedacted(errors, errors, [])
    ensures forall i :: 0 <= i < |warnings| ==> WarningRedacted(warnings[i], warnings[i], [])
  {
  }

  function TextsIn(logs: seq<string>, errors: seq<string>, warnings: seq<Warning>): set<string> {
    (set t | t in logs) + (set t | t in errors) + (set w | w in warnings :: w.short) + (set w, t | w in warnings && t in w.detail :: t)
  }

  lemma TextIsClean(logs: seq<string>, logs': seq<string>, errors: seq<string>, errors': seq<string>,
                    warnings: seq<Warning>, warnings': seq<Warning>, vals: seq<string>, t: string)
    requires AreRedacted(logs, logs', vals) && AreRedacted(errors, errors', vals) && |warnings'| == |warnings|
    requires forall i :: 0 <= i < |warnings| ==> WarningRedacted(warnings[i], warnings'[i], vals)
    requires t in TextsIn(logs', errors', warnings')
    ensures Clean(t, vals)
  {
    if t in logs' {
      ListIsClean(logs, logs', vals, t);
    } else if t in errors' {
      ListIsClean(errors, errors', vals, t);
    } else {
      var w :| w in warnings' && (t == w.short || t in w.detail);
      var i :| 0 <= i < |warnings'| && warnings'[i] == w;
      if t == w.short {
        RedactedIsClean(warnings[i].short, vals);
      } else {
        ListIsClean(warnings[i].detail, w.detail, vals, t);
      }
    }
  }

  lemma ListIsClean(before: seq<string>, after: seq<string>, vals: seq<string>, t: string)
    requires AreRedacted(before, after, vals) && t in after
    ensures Clean(t, vals)
  {
    var i :| 0 <= i < |after| && after[i] == t;
    RedactedIsClean(before[i], vals);
  }

  ghost predicate Clean(t: string, vals: seq<string>) {
    forall v :: v in vals && MaskSafe(v) ==> !Contains(t, v)
  }

  lemma RedactedIsClean(t: string, vals: seq<string>)
    requires NonEmpty(vals)
    ensures Clean(Redacted(t, vals), vals)
  {
    forall v | v in vals && MaskSafe(v) ensures !Contains(Redacted(t, vals), v) {
      NoSecretSurvives(t, vals, v);
    }
  }
}
