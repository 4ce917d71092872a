/** Capped exponential backoff, over the reals. */
module RetryDelay {
  import opened Options

  /** `math.ldexp`: the base doubled `n` times. */
  function Ldexp(base: real, n: nat): real {
    if n == 0 then base else 2.0 * Ldexp(base, n - 1)
  }

  function TwoTo(n: nat): nat { if n == 0 then 1 else 2 * TwoTo(n - 1) }

  /** The base times a power of two. */
  lemma {:induction false} LdexpIsPower(base: real, n: nat)
    ensures Ldexp(base, n) == base * TwoTo(n) as real
  {
    if n > 0 {
      LdexpIsPower(base, n - 1);
      assert TwoTo(n) as real == 2.0 * TwoTo(n - 1) as real;
    }
  }

  function Min(a: real, b: real): real {
    if a <= b then a else b
  }

  /**
   The delay before the next attempt; None where the source raises ValueError.
   `thresholdReached` is the answer of the floating-point comparison
   `attempt >= log2(cap) - log2(base)`, left arbitrary here.
  */
  function Delay(attempt: int, base: real, cap: real, jitter: real, thresholdReached: bool): Option<real> {
    if attempt < 0 || base <= 0.0 || cap <= 0.0 || jitter < 0.0 then None
    else
      var exponential :=
        if base >= cap || thresholdReached then cap else Min(cap, Ldexp(base, attempt));
      if jitter >= cap - exponential then Some(cap) else Some(exponential + jitter)
  }

  /** The comparison as it comes out without rounding: base * 2^attempt has reached the cap. */
  predicate ExactThreshold(attempt: nat, base: real, cap: real) {
    Ldexp(base, attempt) >= cap
  }

  lemma {:induction false} LdexpGrows(base: real, a: nat, b: nat)
    requires base > 0.0 && a <= b
    ensures 0.0 < base <= Ldexp(base, a) <= Ldexp(base, b)
  {
    if a < b {
      LdexpGrows(base, a, b - 1);
    } else if a > 0 {
      LdexpGrows(base, a - 1, a - 1);
    }
  }

  /** Whatever the comparison answers, an accepted delay lies in (0, cap]. */
  lemma DelayInRange(attempt: int, base: real, cap: real, jitter: real, thresholdReached: bool)
    ensures var d := Delay(attempt, base, cap, jitter, thresholdReached);
            (d.Some? <==> attempt >= 0 && base > 0.0 && cap > 0.0 && jitter >= 0.0)
            && (d.Some? ==> 0.0 < d.value <= cap)
  {
    if attempt >= 0 && base > 0.0 {
      LdexpGrows(base, attempt, attempt);
    }
  }

  /** With the exact comparison the delay is min(cap, base * 2^attempt + jitter). */
  lemma DelayIsCappedExponential(attempt: nat, base: real, cap: real, jitter: real)
    requires base > 0.0 && cap > 0.0 && jitter >= 0.0
    ensures Delay(attempt, base, cap, jitter, ExactThreshold(attempt, base, cap))
         == Some(Min(cap, Ldexp(base, attempt) + jitter))
    ensures ExactThreshold(attempt, base, cap) <==> base * TwoTo(attempt) as real >= cap
    ensures var delay := base * TwoTo(attempt) as real + jitter;
            Min(cap, Ldexp(base, attempt) + jitter) == if delay < cap then delay else cap
  {
    LdexpGrows(base, attempt, attempt);
    LdexpIsPower(base, attempt);
  }

  /**
   Whatever the comparison answers, the delay is min(cap, base * 2^attempt + jitter) exactly
   when it does not answer "reached" while base * 2^attempt + jitter still lies below the cap.
  */
  lemma DelayRightExactly(attempt: nat, base: real, cap: real, jitter: real, thresholdReached: bool)
    requires base > 0.0 && cap > 0.0 && jitter >= 0.0
    ensures Delay(attempt, base, cap, jitter, thresholdReached) == Some(Min(cap, Ldexp(base, attempt) + jitter))
            <==> (thresholdReached ==> Ldexp(base, attempt) + jitter >= cap)
  {
    LdexpGrows(base, attempt, attempt);
  }

  /** It never shrinks from one attempt to a later one, nor when the jitter grows. */
  lemma DelayMonotone(a: nat, b: nat, base: real, cap: real, j: real, k: real)
    requires a <= b && base > 0.0 && cap > 0.0 && 0.0 <= j <= k
    ensures Delay(a, base, cap, j, ExactThreshold(a, base, cap)).value
         <= Delay(b, base, cap, k, ExactThreshold(b, base, cap)).value
  {
    DelayIsCappedExponential(a, base, cap, j);
    DelayIsCappedExponential(b, base, cap, k);
    LdexpGrows(base, a, b);
  }
}
