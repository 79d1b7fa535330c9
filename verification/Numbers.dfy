/** Numbers used throughout. */
module Numbers {

  /** Longest payload of a frame, and size of a log record buffer (`src/config.h`). */
  const MSG_MAX: nat := 4096

  function Min(a: nat, b: nat): (m: nat) {
    if a < b then a else b
  }

  function Pow2(n: nat): (p: nat)
    ensures 0 < p
  {
    if n == 0 then 1 else 2 * Pow2(n - 1)
  }

  lemma MulGap(a: nat, b: nat, m: nat)
    requires a < b
    ensures b * m >= a * m + m
  {
    if a + 1 < b {
      MulGap(a, b - 1, m);
    }
    assert b * m == (b - 1) * m + m;
  }

  /** Quotient and remainder are unique. */
  lemma DivUnique(a: nat, m: nat, q: nat, r: nat)
    requires r < m && a == q * m + r
    ensures a / m == q && a % m == r
  {
    var d, e := a / m, a % m;
    assert a == d * m + e;
    if d < q {
      MulGap(d, q, m);
    } else if q < d {
      MulGap(q, d, m);
    }
  }
}
