/** Python's `round(x, 2)` on exact decimals: nearest, ties to even. */
module Rounding {

  /** r is num/den rounded to nearest, ties to even. */
  ghost predicate IsNearest(num: int, den: int, r: int) {
    && -den <= 2 * (r * den - num) <= den
    && (2 * (r * den - num) == den || 2 * (r * den - num) == -den ==> r % 2 == 0)
  }

  /** The integer nearest to num/den. Amounts scaled by 100 make this `round(x, 2)`. */
  ghost function RoundDiv(num: int, den: int): (r: int)
    requires den > 0
    ensures IsNearest(num, den, r)
  {
    var witnessed := NearestOf(num, den);
    var r :| IsNearest(num, den, r);
    r
  }

  function NearestOf(num: int, den: int): (r: int)
    requires den > 0
    ensures IsNearest(num, den, r)
  {
    var q, rem := num / den, num % den;
    assert num == q * den + rem;
    assert (q + 1) * den == q * den + den;
    if 2 * rem < den then q
    else if 2 * rem > den then q + 1
    else if q % 2 == 0 then q
    else q + 1
  }

  lemma MulOrder(a: int, b: int, k: int)
    requires a <= b && 0 <= k
    ensures a * k <= b * k
  {
    assert (b - a) * k >= 0;
  }

  lemma NearestKeepsBounds(num: int, den: int, r: int, c: int)
    requires den > 0 && IsNearest(num, den, r)
    ensures c * den <= num ==> c <= r
    ensures num <= c * den ==> r <= c
  {
    if r < c {
      MulOrder(r + 1, c, den);
      assert (r + 1) * den == r * den + den;
    } else if c < r {
      MulOrder(c + 1, r, den);
      assert (c + 1) * den == c * den + den;
    }
  }

  /** There is only one nearest integer. */
  lemma NearestIsUnique(num: int, den: int, r: int)
    requires den > 0 && IsNearest(num, den, r)
    ensures r == RoundDiv(num, den)
  {
    NearestMonotone(num, num, den, r, RoundDiv(num, den));
    NearestMonotone(num, num, den, RoundDiv(num, den), r);
  }

  method Round(num: int, den: int) returns (r: int)
    requires den > 0
    ensures r == RoundDiv(num, den)
  {
    r := NearestOf(num, den);
    NearestIsUnique(num, den, r);
  }

  /** Rounding never crosses an integer that the exact quotient does not cross. */
  lemma RoundKeepsBounds(num: int, den: int, c: int)
    requires den > 0
    ensures c * den <= num ==> c <= RoundDiv(num, den)
    ensures num <= c * den ==> RoundDiv(num, den) <= c
  {
    NearestKeepsBounds(num, den, RoundDiv(num, den), c);
  }

  /** Rounding is monotone. */
  lemma RoundMonotone(n: int, m: int, den: int)
    requires den > 0 && n <= m
    ensures RoundDiv(n, den) <= RoundDiv(m, den)
  {
    NearestMonotone(n, m, den, RoundDiv(n, den), RoundDiv(m, den));
  }

  lemma NearestMonotone(n: int, m: int, den: int, r: int, s: int)
    requires den > 0 && n <= m
    requires IsNearest(n, den, r) && IsNearest(m, den, s)
    ensures r <= s
  {
    assert (s + 1) * den == s * den + den;
    assert (s + 2) * den == s * den + 2 * den;
    if s + 1 < r {
      MulOrder(s + 2, r, den);
    } else if s + 1 == r {
      // only possible when n == m is a tie between s and s + 1, which cannot both be even
    }
  }

  /** Exactly when rounding exceeds a whole number k: past the tie above k, or on it for odd k. */
  lemma RoundExceeds(num: int, den: int, k: int)
    requires den > 0
    ensures RoundDiv(num, den) > k <==> 2 * num > (2 * k + 1) * den || (2 * num == (2 * k + 1) * den && k % 2 == 1)
  {
    NearestExceeds(num, den, k, RoundDiv(num, den));
  }

  lemma NearestExceeds(num: int, den: int, k: int, r: int)
    requires den > 0 && IsNearest(num, den, r)
    ensures r > k <==> 2 * num > (2 * k + 1) * den || (2 * num == (2 * k + 1) * den && k % 2 == 1)
  {
    assert (2 * k + 1) * den == 2 * (k * den) + den;
    assert (k + 1) * den == k * den + den;
    if r > k + 1 {
      assert (k + 2) * den == k * den + 2 * den;
      MulOrder(k + 2, r, den);
    } else if r < k {
      MulOrder(r + 1, k, den);
      assert (r + 1) * den == r * den + den;
    }
  }
}
