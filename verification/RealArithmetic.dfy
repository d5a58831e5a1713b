/** Truncation, products and quotients of real numbers. */
module RealArithmetic {

  /** `int(x)`: towards zero. */
  function Truncate(x: real): (r: int)
    ensures x >= 0.0 ==> 0 <= r && r as real <= x < r as real + 1.0
  {
    if x >= 0.0 then x.Floor else -((-x).Floor)
  }

  /** A positive factor keeps the sign. */
  lemma ProductSign(x: real, y: real, p: real)
    requires y > 0.0 && p == x * y
    ensures (x > 0.0 <==> p > 0.0) && (x >= 0.0 <==> p >= 0.0)
  {
  }

  lemma NonNegativeProduct(x: real, y: real, p: real)
    requires x >= 0.0 && y >= 0.0 && p == x * y
    ensures p >= 0.0 && (p == 0.0 <==> x == 0.0 || y == 0.0)
  {
  }

  /** A quotient has the sign of its dividend. */
  lemma Quotient(x: real, y: real, q: real)
    requires y > 0.0 && q == x / y
    ensures q * y == x
    ensures (x > 0.0 <==> q > 0.0) && (x >= 0.0 <==> q >= 0.0)
  {
    ProductSign(q, y, x);
  }

  /** Comparing a quotient with `t` is comparing the dividend with `t * y`. */
  lemma QuotientCompare(x: real, y: real, q: real, t: real, p: real)
    requires y > 0.0 && q == x / y && p == t * y
    ensures (q < t <==> x < p) && (q <= t <==> x <= p) && (q == t <==> x == p)
  {
    assert q * y == x;
    var d := t - q;
    assert d * y == p - x;
    ProductSign(d, y, p - x);
    ProductSign(-d, y, x - p);
  }

  lemma QuotientMonotone(x: real, y: real, b: real, p: real, q: real)
    requires b > 0.0 && x <= y && p == x / b && q == y / b
    ensures p <= q
  {
    QuotientCompare(x, b, p, q, y);
  }

  /** A part of a whole: the quotient lies between 0 and 1. */
  lemma Fraction(x: real, m: real, q: real)
    requires 0.0 < x <= m && q == x / m
    ensures 0.0 < q <= 1.0 && (x == m <==> q == 1.0)
  {
    Quotient(x, m, q);
    QuotientCompare(x, m, q, 1.0, m);
  }

  /** A product grows with its factors. */
  lemma ProductMonotone(x: real, y: real, b: real, p: real, q: real)
    requires b >= 0.0 && x <= y && p == b * x && q == b * y
    ensures p <= q
  {
    NonNegativeProduct(b, y - x, q - p);
  }

  /** A positive factor can be cancelled. */
  lemma SameFactor(x: real, y: real, t: real)
    requires t > 0.0 && x * t == y * t
    ensures x == y
  {
    var d := x - y;
    assert d * t == 0.0;
    ProductSign(d, t, 0.0);
    ProductSign(-d, t, 0.0);
  }
}
