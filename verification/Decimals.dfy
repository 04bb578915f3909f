/** Fixed-point money and quantities: integers counting units of 1e-18, the scale of every
    NUMERIC column the ledger writes.  Quotients are exact; only the two named roundings lose anything. */
module Decimals {

  function Abs(x: int): (r: int)
    ensures r >= 0 && (r == x || r == -x)
  {
    if x < 0 then -x else x
  }

  function Min(x: int, y: int): (r: int)
    ensures r <= x && r <= y && (r == x || r == y)
  {
    if x < y then x else y
  }

  function Max(x: int, y: int): (r: int)
    ensures r >= x && r >= y && (r == x || r == y)
  {
    if x < y then y else x
  }

  /** ROUND_HALF_EVEN of num / den. */
  function HalfEven(num: int, den: int): int
    requires den > 0
  {
    var q, r := num / den, num % den;
    if 2 * r < den || (2 * r == den && q % 2 == 0) then q else q + 1
  }

  /** ROUND_DOWN of num / den: towards zero. */
  function Truncate(num: int, den: int): int
    requires den > 0
  {
    if num >= 0 then num / den else -((-num) / den)
  }

  /** Never further than half a unit away, and even on a tie. */
  lemma HalfEvenNearest(num: int, den: int)
    requires den > 0
    ensures -den <= 2 * (num - HalfEven(num, den) * den) <= den
    ensures Abs(2 * (num - HalfEven(num, den) * den)) == den ==> HalfEven(num, den) % 2 == 0
  {
    var q, r := num / den, num % den;
    assert num == q * den + r;
    assert num - (q + 1) * den == r - den;
  }

  lemma QuotientBounds(n: int, den: int)
    requires n >= 0 && den > 0
    ensures 0 <= n / den * den <= n < n / den * den + den
  {
    assert n == n / den * den + n % den;
    ProductAtLeast(n / den, den, 0);
  }

  lemma NegatedProduct(q: int, den: int)
    ensures -q * den == -(q * den)
  {
  }

  /** Less than a unit away, on the side of zero. */
  lemma TruncateTowardsZero(num: int, den: int)
    requires den > 0
    ensures 0 <= num ==> 0 <= Truncate(num, den) * den <= num < Truncate(num, den) * den + den
    ensures num <= 0 ==> Truncate(num, den) * den - den < num <= Truncate(num, den) * den <= 0
  {
    if num >= 0 {
      QuotientBounds(num, den);
    } else {
      QuotientBounds(-num, den);
      NegatedProduct(-num / den, den);
    }
  }

  lemma ProductAtLeast(d: int, den: int, k: int)
    requires den > 0 && d >= k
    ensures d * den >= k * den
  {
  }

  /** Two roundings of one number differ by less than two units, and by one only on a tie. */
  lemma NearestTwice(x: int, y: int, d: int, den: int)
    requires den > 0 && y == x + d * den
    requires -den <= 2 * x <= den && -den <= 2 * y <= den
    ensures d == 0 || (Abs(d) == 1 && Abs(2 * x) == den && Abs(2 * y) == den)
  {
    if d >= 2 {
      ProductAtLeast(d, den, 2);
    } else if d <= -2 {
      ProductAtLeast(-d, den, 2);
    }
  }

  /** Two even-on-tie roundings p and q of one number, with x and y left over, are the same. */
  lemma NearestEvenAgree(x: int, y: int, p: int, q: int, den: int)
    requires den > 0 && y == x + (p - q) * den
    requires -den <= 2 * x <= den && (Abs(2 * x) == den ==> p % 2 == 0)
    requires -den <= 2 * y <= den && (Abs(2 * y) == den ==> q % 2 == 0)
    ensures p == q
  {
    NearestTwice(x, y, p - q, den);
  }

  lemma LeftOver(num: int, den: int, p: int, q: int)
    ensures num - q * den == num - p * den + (p - q) * den
  {
  }

  /** The contract of HalfEven leaves one integer only. */
  lemma HalfEvenUnique(num: int, den: int, q: int)
    requires den > 0
    requires -den <= 2 * (num - q * den) <= den
    requires Abs(2 * (num - q * den)) == den ==> q % 2 == 0
    ensures q == HalfEven(num, den)
  {
    HalfEvenNearest(num, den);
    var p := HalfEven(num, den);
    LeftOver(num, den, p, q);
    NearestEvenAgree(num - p * den, num - q * den, p, q, den);
  }

  /** A whole number of units is not moved by rounding. */
  lemma HalfEvenExact(k: int, den: int)
    requires den > 0
    ensures HalfEven(k * den, den) == k
  {
    HalfEvenUnique(k * den, den, k);
  }
}
