/** Identifiers for the nodes of a drawn graph: job names made safe for it, and kept apart from each other by a
    number. */
module Identifiers {
  import opened Prelude

  /** Decimal notation. */
  function Digits(n: nat): (r: string)
    ensures r != "" && (|r| == 1 <==> n < 10) && forall c :: c in r ==> '0' <= c <= '9'
  {
    if n < 10 then [('0' as int + n) as char] else Digits(n / 10) + [('0' as int + n % 10) as char]
  }

  function DigitOf(c: char): nat {
    if '0' <= c <= '9' then c as int - '0' as int else 0
  }

  /** Reads decimal digits. */
  function ValueOf(s: string): nat {
    if s == "" then 0 else 10 * ValueOf(s[..|s| - 1]) + DigitOf(s[|s| - 1])
  }

  /** Printing and reading a number gives it back, and no number is printed with a leading zero. */
  lemma {:induction false} DigitsReadBack(n: nat)
    ensures ValueOf(Digits(n)) == n
    ensures n > 0 ==> Digits(n)[0] != '0'
  {
    var d := Digits(n);
    if n >= 10 {
      DigitsReadBack(n / 10);
      assert d[..|d| - 1] == Digits(n / 10);
    } else {
      assert d[..0] == "";
    }
  }

  lemma {:induction false} DigitsDiffer(m: nat, n: nat)
    requires Digits(m) == Digits(n)
    ensures m == n
  {
    var d, e := Digits(m), Digits(n);
    assert d[|d| - 1] == ('0' as int + m % 10) as char && e[|e| - 1] == ('0' as int + n % 10) as char;
    if m >= 10 && n >= 10 {
      assert d[..|d| - 1] == Digits(m / 10) && e[..|e| - 1] == Digits(n / 10);
      DigitsDiffer(m / 10, n / 10);
    }
  }

  predicate IdChar(c: char) {
    'a' <= c <= 'z' || 'A' <= c <= 'Z' || '0' <= c <= '9' || c == '_'
  }

  predicate IsId(s: string) {
    forall c :: c in s ==> IdChar(c)
  }

  /** The characters of an identifier by their codes: digits, letters and underscore. */
  lemma IdCharsAre(c: char)
    ensures var u := c as int; IdChar(c) <==> 48 <= u <= 57 || 65 <= u <= 90 || 97 <= u <= 122 || u == 95
  {
  }

  function Sanitized(s: string): (r: string)
    ensures IsId(r) && |r| == |s| && (IsId(s) ==> r == s)
    ensures forall i :: 0 <= i < |s| ==> r[i] == s[i] || (r[i] == '_' && !IdChar(s[i]))
  {
    seq(|s|, i requires 0 <= i < |s| => if IdChar(s[i]) then s[i] else '_')
  }

  function Candidate(base: string, i: nat): string {
    base + "_" + Digits(i)
  }

  lemma CandidatesDiffer(base: string, i: nat, j: nat)
    requires Candidate(base, i) == Candidate(base, j)
    ensures i == j
  {
    assert Candidate(base, i)[|base| + 1..] == Digits(i) && Candidate(base, j)[|base| + 1..] == Digits(j);
    DigitsDiffer(i, j);
  }

  ghost function Candidates(base: string, n: nat): (r: set<string>)
    ensures forall x :: x in r <==> exists i :: 1 <= i <= n && x == Candidate(base, i)
  {
    if n == 0 then {} else Candidates(base, n - 1) + {Candidate(base, n)}
  }

  lemma NewCandidate(base: string, n: nat)
    requires n > 0
    ensures Candidate(base, n) !in Candidates(base, n - 1)
  {
    forall i | 1 <= i <= n - 1 ensures Candidate(base, n) != Candidate(base, i) {
      if Candidate(base, n) == Candidate(base, i) {
        CandidatesDiffer(base, n, i);
      }
    }
  }

  lemma {:induction false} CandidateCount(base: string, n: nat)
    ensures |Candidates(base, n)| == n
  {
    if n > 0 {
      CandidateCount(base, n - 1);
      NewCandidate(base, n);
      OneMore(Candidates(base, n - 1), Candidate(base, n));
    }
  }

  lemma OneMore(s: set<string>, x: string)
    requires x !in s
    ensures |s + {x}| == |s| + 1
  {
  }

  lemma TooManyCandidates(base: string, n: nat, seen: set<string>)
    requires Candidates(base, n) <= seen
    ensures n <= |seen|
  {
    CandidateCount(base, n);
    CardinalityMonotone(Candidates(base, n), seen);
  }

  /** SanitizeID. The search for a free number ends, and the identifier is valid, new, and the
      sanitized name itself wherever that is free. */
  method SanitizeID(s: string, seen: set<string>) returns (id: string, seen': set<string>)
    ensures id !in seen && seen' == seen + {id}
    ensures IsId(id)
    ensures Sanitized(s) !in seen ==> id == Sanitized(s)
    ensures Sanitized(s) in seen ==> exists i :: i >= 1 && id == Candidate(Sanitized(s), i) && Candidates(Sanitized(s), i - 1) <= seen
  {
    var base := Sanitized(s);
    if base !in seen {
      return base, seen + {base};
    }
    var i := 1;
    while true
      invariant i >= 1 && Candidates(base, i - 1) <= seen
      decreases |seen| + 1 - i
    {
      TooManyCandidates(base, i - 1, seen);
      var candidate := Candidate(base, i);
      if candidate !in seen {
        assert forall c :: c in candidate ==> c in base || c == '_' || c in Digits(i);
        return candidate, seen + {candidate};
      }
      i := i + 1;
    }
  }

  lemma DistinctAppend(ids: seq<string>, id: string)
    requires Distinct(ids) && id !in ids
    ensures Distinct(ids + [id])
  {
  }

  /** The identifiers of a list of names: as many, all valid, and no two alike. */
  method AllIds(names: seq<string>) returns (ids: seq<string>)
    ensures |ids| == |names| && Distinct(ids) && forall id :: id in ids ==> IsId(id)
    ensures forall k :: 0 <= k < |ids| ==> StartsWith(ids[k], Sanitized(names[k]))
  {
    var seen: set<string> := {};
    ids := [];
    for k := 0 to |names|
      invariant |ids| == k && Distinct(ids)
      invariant forall m :: 0 <= m < k ==> StartsWith(ids[m], Sanitized(names[m]))
      invariant forall id :: id in ids ==> IsId(id) && id in seen
    {
      var id;
      id, seen := SanitizeID(names[k], seen);
      DistinctAppend(ids, id);
      ids := ids + [id];
    }
  }
}
