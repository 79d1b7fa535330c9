/** The delay after failed rewrites: `aof_rewrite_record_failure`. */
module Backoff {

  import opened Numbers

  /** The delay in closed form. The first failure waits for `base`, even beyond `max`. */
  function Delay(streak: nat, base: nat, max: nat): (d: nat) {
    if streak <= 1 then base else Min(base * Pow2(streak - 1), max)
  }

  lemma DoubledPow(base: nat, n: nat)
    ensures base * Pow2(n + 1) == 2 * (base * Pow2(n))
  {}

  lemma {:induction false} PowGrows(base: nat, m: nat, n: nat)
    requires m <= n
    ensures base * Pow2(m) <= base * Pow2(n)
    decreases n - m
  {
    if m < n {
      DoubledPow(base, n - 1);
      PowGrows(base, m, n - 1);
    }
  }

  /** The doubling loop: it computes the closed form, and no value it ever holds exceeds twice the larger
      of the two settings, so it cannot overflow. */
  method ComputeDelay(streak: nat, base: nat, max: nat) returns (delay: nat, ghost peak: nat)
    ensures delay == Delay(streak, base, max)
    ensures delay <= peak && (base <= max ==> peak <= 2 * max) && peak <= 2 * (base + max)
  {
    delay, peak := base, base;
    assert Pow2(0) == 1;
    var i := 1;
    while i < streak
      invariant 1 <= i && (i <= streak || i == 1)
      invariant delay == base * Pow2(i - 1)
      invariant 1 < i ==> delay < max
      invariant delay <= peak && (base <= max ==> peak <= 2 * max) && peak <= 2 * (base + max)
      decreases streak - i
    {
      DoubledPow(base, i - 1);
      delay := delay * 2;
      peak := if peak < delay then delay else peak;
      if delay >= max {
        PowGrows(base, i, streak - 1);
        delay := max;
        return;
      }
      i := i + 1;
    }
    assert streak <= 1 ==> delay == base;
  }

  /** Longer streaks never wait less, once the settings are in order. */
  lemma DelayMonotone(m: nat, n: nat, base: nat, max: nat)
    requires m <= n && base <= max
    ensures Delay(m, base, max) <= Delay(n, base, max) <= max
  {
    if 1 < n {
      PowGrows(base, if m <= 1 then 0 else m - 1, n - 1);
    }
  }

  /** With the settings the wrong way round the second delay is shorter than the first. */
  lemma DelayDropsWhenReversed(base: nat, max: nat)
    requires max < base
    ensures Delay(2, base, max) < Delay(1, base, max)
  {
    assert Pow2(1) == 2;
  }

  /** The first failure waits for `base`; each further one twice as long, up to the maximum. */
  lemma DelayDoubles(streak: nat, base: nat, max: nat)
    requires 1 <= streak && base <= max
    ensures Delay(1, base, max) == base
    ensures var d := Delay(streak, base, max);
            Delay(streak + 1, base, max) == if 2 * d < max then 2 * d else max
  {
    DoubledPow(base, streak - 1);
    assert Pow2(0) == 1;
  }

  /** With the settings the wrong way round every failure after the first waits for the maximum. */
  lemma DelayReversed(streak: nat, base: nat, max: nat)
    requires 2 <= streak && max < base
    ensures Delay(1, base, max) == base && Delay(streak, base, max) == max
  {
    PowGrows(base, 0, streak - 1);
    assert Pow2(0) == 1;
  }
}
