/** Retrying a solve: which of the attempts decides, and how long the waits between the attempts are. */
module Retry {
  import opened Prelude

  // ---------------------------------------------------------------- which attempt decides

  /** One attempt: it succeeds, it fails and may be repeated, or it fails for good. */
  datatype Attempt = Succeeds | Fails | FailsForGood

  /** What the environment does: the outcome of each attempt, and whether the run is found cancelled
      in the wait behind it. */
  datatype Script = Script(outcome: nat -> Attempt, cancelled: nat -> bool)

  predicate GoesOn(s: Script, a: nat) {
    s.outcome(a) == Fails && !s.cancelled(a)
  }

  /** Attempt a is made and succeeds: all earlier ones failed in a way that allows another try. */
  predicate SucceedsAt(s: Script, tries: nat, a: nat) {
    a < tries && s.outcome(a) == Succeeds && forall b: nat :: b < a ==> GoesOn(s, b)
  }

  /** The attempt that succeeds, searched from attempt a on. */
  function Decisive(s: Script, tries: nat, a: nat): Option<nat>
    requires a <= tries
    decreases tries - a
  {
    if a == tries then None
    else if s.outcome(a) == Succeeds then Some(a)
    else if GoesOn(s, a) then Decisive(s, tries, a + 1)
    else None
  }

  lemma {:induction false} DecisiveIsFirstSuccess(s: Script, tries: nat, a: nat)
    requires a <= tries && forall b: nat :: b < a ==> GoesOn(s, b)
    ensures forall k: nat :: Decisive(s, tries, a) == Some(k) <==> SucceedsAt(s, tries, k)
    decreases tries - a
  {
    forall k: nat | SucceedsAt(s, tries, k) ensures k >= a && (k > a ==> GoesOn(s, a)) {
      assert k < a ==> GoesOn(s, k);
    }
    if a < tries && GoesOn(s, a) {
      DecisiveIsFirstSuccess(s, tries, a + 1);
    }
    assert a < tries && s.outcome(a) == Succeeds ==> SucceedsAt(s, tries, a);
  }

  function Tries(retries: Option<nat>): (r: nat)
    ensures retries.None? ==> r == 1
    ensures retries.Some? ==> r == 1 + retries.value
  {
    match retries case None => 1 case Some(n) => 1 + n
  }

  /** retryJob: one attempt without a retry setting, otherwise up to 1 + retries. */
  method RetryJob(s: Script, retries: Option<nat>) returns (ok: bool, solves: nat)
    ensures ok <==> exists a: nat :: SucceedsAt(s, Tries(retries), a)
    ensures ok ==> solves > 0 && SucceedsAt(s, Tries(retries), solves - 1)
    ensures 1 <= solves <= Tries(retries)
    ensures forall b: nat :: b < solves - 1 ==> GoesOn(s, b)
    ensures solves == Tries(retries) || !GoesOn(s, solves - 1)
  {
    if retries.None? {
      assert s.outcome(0) == Succeeds ==> SucceedsAt(s, Tries(retries), 0);
      return s.outcome(0) == Succeeds, 1;
    }
    var maxAttempts := Tries(retries);
    solves := 0;
    for attempt := 0 to maxAttempts
      invariant solves == attempt < maxAttempts
      invariant forall b: nat :: b < attempt ==> GoesOn(s, b)
    {
      solves := solves + 1;
      if s.outcome(attempt) == Succeeds {
        assert SucceedsAt(s, maxAttempts, attempt);
        return true, solves;
      }
      if attempt == maxAttempts - 1 {
        NoSuccess(s, maxAttempts, attempt);
        break;
      }
      if s.outcome(attempt) == FailsForGood || s.cancelled(attempt) {
        NoSuccess(s, maxAttempts, attempt);
        return false, solves;
      }
    }
    ok := false;
  }

  /** Once an attempt has failed for good, or was the last, no attempt can succeed. */
  lemma NoSuccess(s: Script, tries: nat, n: nat)
    requires n < tries && s.outcome(n) != Succeeds && forall b: nat :: b < n ==> GoesOn(s, b)
    requires n == tries - 1 || !GoesOn(s, n)
    ensures forall a: nat :: !SucceedsAt(s, tries, a)
  {
    forall a: nat ensures !SucceedsAt(s, tries, a) {
      assert a < n ==> GoesOn(s, a);
      assert SucceedsAt(s, tries, a) && n < a ==> GoesOn(s, n);
    }
  }

  // ---------------------------------------------------------------- backoff

  datatype Backoff = Constant | Linear | Exponential

  function Min(a: int, b: int): int {
    if a <= b then a else b
  }

  function Pow2(n: nat): (r: int)
    ensures r > n
  {
    if n == 0 then 1 else 2 * Pow2(n - 1)
  }

  /** checkedMul: a saturating product; the guard divides, so that nothing overflows. */
  function CheckedMul(d: int, n: int): (r: int)
    requires d <= MAX_INT64
    ensures r <= MAX_INT64
    ensures n > 0 && d > 0 ==> r == Min(d * n, MAX_INT64)
    ensures n <= 0 ==> r == 0
    ensures n > 0 && d <= 0 ==> r == d
  {
    if n <= 0 then 0
    else if d <= 0 || n == 1 then d
    else
      OverflowGuard(d, n);
      if d > MAX_INT64 / n then MAX_INT64 else d * n
  }

  lemma MulMonotone(a: int, b: int, n: int)
    requires a <= b && n > 0
    ensures a * n <= b * n
  {
    assert b * n - a * n == (b - a) * n;
  }

  function RetryDelay(backoff: Backoff, delay: int, attempt: nat): (r: int)
    requires delay <= MAX_INT64
    ensures r <= MAX_INT64
    ensures backoff == Constant ==> r == delay
  {
    match backoff
    case Linear => CheckedMul(delay, attempt + 1)
    case Exponential => if attempt >= 63 then MAX_INT64 else CheckedMul(delay, Pow2(attempt))
    case Constant => delay
  }

  lemma {:induction false} Pow2Grows(m: nat, n: nat)
    requires m <= n
    ensures Pow2(m) <= Pow2(n)
  {
    if m < n {
      Pow2Grows(m, n - 1);
    }
  }

  lemma Pow2Of63()
    ensures Pow2(63) == MAX_INT64 + 1
  {
    assert Pow2(3) == 8;
    PowSum(3, 3, 8, 8);
    PowSum(6, 6, 0x40, 0x40);
    PowSum(12, 12, 0x1000, 0x1000);
    PowSum(24, 24, 0x100_0000, 0x100_0000);
    PowSum(48, 12, 0x1_0000_0000_0000, 0x1000);
    PowSum(60, 3, 0x1000_0000_0000_0000, 8);
  }

  lemma PowSum(m: nat, n: nat, a: int, b: int)
    requires Pow2(m) == a && Pow2(n) == b
    ensures Pow2(m + n) == a * b
  {
    PowAdd(m, n);
  }

  lemma {:induction false} PowAdd(m: nat, n: nat)
    ensures Pow2(m + n) == Pow2(m) * Pow2(n)
  {
    if m > 0 {
      PowAdd(m - 1, n);
      assert Pow2(m + n) == 2 * Pow2((m - 1) + n);
      Reassociate(Pow2(m - 1), Pow2(n));
    }
  }

  lemma Reassociate(a: int, b: int)
    ensures 2 * (a * b) == (2 * a) * b
  {
  }

  /** Exponential backoff doubles per attempt and saturates, for every delay and attempt, exactly
      unless the delay is zero (or less) and the attempt late: from attempt 63 on even a zero delay
      becomes the longest wait. */
  lemma ExponentialIsExact(delay: int, attempt: nat)
    requires delay <= MAX_INT64
    ensures RetryDelay(Exponential, delay, attempt) == Min(delay * Pow2(attempt), MAX_INT64) <==>
      delay > 0 || (delay == 0 && attempt < 63) || (delay < 0 && attempt == 0)
  {
    if attempt >= 63 {
      Pow2Of63();
      Pow2Grows(63, attempt);
      if delay > 0 {
        MulMonotone(1, delay, Pow2(attempt));
      } else if delay < 0 {
        MulMonotone(delay, -1, Pow2(attempt));
      }
    } else if delay < 0 {
      assert delay * Pow2(attempt) == delay <==> Pow2(attempt) == 1 by {
        assert delay * Pow2(attempt) - delay == delay * (Pow2(attempt) - 1);
      }
      MulMonotone(delay, -1, Pow2(attempt));
    }
  }

  /** Linear backoff is the saturated multiple of the delay, for every delay that is not negative. */
  lemma LinearIsExact(delay: int, attempt: nat)
    requires delay <= MAX_INT64
    ensures RetryDelay(Linear, delay, attempt) == Min(delay * (attempt + 1), MAX_INT64) <==> delay >= 0 || attempt == 0
  {
    if delay < 0 {
      assert delay * (attempt + 1) == delay + delay * attempt;
      if attempt > 0 {
        MulMonotone(delay, -1, attempt);
      }
    }
  }

  /** No wait is shorter than an earlier one. */
  lemma DelaysNeverShrink(backoff: Backoff, delay: int, early: nat, late: nat)
    requires 0 <= delay <= MAX_INT64 && early <= late
    ensures RetryDelay(backoff, delay, early) <= RetryDelay(backoff, delay, late)
  {
    Pow2Grows(early, late);
    if delay > 0 {
      assert delay * (early + 1) <= delay * (late + 1) by { MulMonotone(early + 1, late + 1, delay); }
      assert delay * Pow2(early) <= delay * Pow2(late) by { MulMonotone(Pow2(early), Pow2(late), delay); }
    }
  }
}
