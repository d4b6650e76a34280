/** Python's `round(a / b)` for non-negative integers a and b > 0: the
    nearest integer to the quotient, ties going to the even neighbour
    (cc_performance.py:59-60). */
module Rounding {

  /** r is a nearest integer to n / d, and the even one on a tie. Stated
      without division: |n - r*d| <= d/2, with equality only for even r. */
  predicate IsRoundHalfEven(n: nat, d: nat, r: nat)
    requires d > 0
  {
    && 2 * n <= 2 * r * d + d
    && 2 * r * d <= 2 * n + d
    && ((2 * r * d + d == 2 * n || 2 * r * d == 2 * n + d) ==> r % 2 == 0)
  }

  function RoundHalfEven(n: nat, d: nat): (r: nat)
    requires d > 0
    ensures IsRoundHalfEven(n, d, r)
  {
    var q, rem := n / d, n % d;
    QuotientCandidates(n, d, q, rem);
    if 2 * rem < d then q
    else if 2 * rem > d then q + 1
    else if q % 2 == 0 then q
    else q + 1
  }

  /** With n = q*d + rem, the quotient q rounds n / d when the remainder is
      below half of d, q + 1 when it is above, and the even one of the two
      when it is exactly half. */
  lemma QuotientCandidates(n: nat, d: nat, q: nat, rem: nat)
    requires d > 0 && rem < d && n == q * d + rem
    ensures 2 * rem <= d ==> 2 * n <= 2 * q * d + d && 2 * q * d <= 2 * n + d
    ensures 2 * rem >= d ==> 2 * n <= 2 * (q + 1) * d + d && 2 * (q + 1) * d <= 2 * n + d
    ensures 2 * rem < d ==> IsRoundHalfEven(n, d, q)
    ensures 2 * rem > d ==> IsRoundHalfEven(n, d, q + 1)
    ensures 2 * rem == d && q % 2 == 0 ==> IsRoundHalfEven(n, d, q)
    ensures 2 * rem == d && q % 2 == 1 ==> IsRoundHalfEven(n, d, q + 1)
  {
    assert 2 * q * d == 2 * (q * d);
    assert 2 * (q + 1) * d == 2 * (q * d) + 2 * d;
  }

  /** There is only one nearest-even rounding, so RoundHalfEven is exactly
      what Python's `round` returns. */
  lemma RoundHalfEvenUnique(n: nat, d: nat, r: nat)
    requires d > 0
    requires IsRoundHalfEven(n, d, r)
    ensures r == RoundHalfEven(n, d)
  {
    var s := RoundHalfEven(n, d);
    if r < s {
      Apart(r, s, n, d);
    } else if s < r {
      Apart(s, r, n, d);
    }
  }

  /** Two different roundings of n / d cannot both be nearest-even ones. */
  lemma Apart(a: nat, b: nat, n: nat, d: nat)
    requires d > 0 && a < b
    requires IsRoundHalfEven(n, d, a)
    ensures !IsRoundHalfEven(n, d, b)
  {
    assert (a + 1) * d == a * d + d;
    if a + 1 < b {
      MulStep(a + 1, b, d);
    } else {
      assert b == a + 1;
    }
  }

  /** If a < b then a*d + d <= b*d. */
  lemma {:induction false} MulStep(a: nat, b: nat, d: nat)
    requires a < b
    ensures a * d + d <= b * d
    decreases b - a
  {
    if a + 1 < b {
      MulStep(a, b - 1, d);
      assert (b - 1) * d + d == b * d;
    } else {
      assert (a + 1) * d == a * d + d;
    }
  }

  /** If each of d values is at least m (their sum n is at least m*d), the
      rounded mean is at least m. */
  lemma RoundedMeanAtLeast(n: nat, d: nat, m: nat)
    requires d > 0 && m * d <= n
    ensures m <= RoundHalfEven(n, d)
  {
    var r := RoundHalfEven(n, d);
    if r < m {
      MulStep(r, m, d);
    }
  }
}
