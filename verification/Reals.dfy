/** Order facts about products, squares and quotients of reals, in steps the solver takes
    without searching. */
module Reals {
  lemma ProductOrder(a: real, b: real, c: real, d: real)
    requires 0.0 <= a <= c && 0.0 <= b <= d
    ensures 0.0 <= a * b <= c * d
  {
    NonNegativeProduct(a, b);
    NonNegativeProduct(c - a, d);
    NonNegativeProduct(a, d - b);
    assert c * d - a * b == (c - a) * d + a * (d - b);
  }

  lemma MonotoneFactor(k: real, x: real, y: real)
    requires 0.0 <= k && x <= y
    ensures k * x <= k * y
    ensures 0.0 <= x ==> 0.0 <= k * x
  {
    NonNegativeProduct(k, y - x);
    assert k * (y - x) == k * y - k * x;
    if 0.0 <= x { NonNegativeProduct(k, x); }
  }

  lemma NonNegativeProduct(x: real, y: real)
    requires 0.0 <= x && 0.0 <= y
    ensures 0.0 <= x * y
  {
  }

  lemma PositiveProduct(x: real, y: real)
    requires 0.0 < x && 0.0 < y
    ensures 0.0 < x * y
  {
  }

  /** The order of a quotient with a positive denominator. */
  lemma QuotientOrder(n: real, d: real, t: real)
    requires 0.0 < d
    ensures n / d <= t <==> n <= t * d
    ensures n / d == t <==> n == t * d
  {
    var q := n / d;
    assert q * d == n;
    if q <= t { MonotoneFactor(d, q, t); assert d * q == q * d && d * t == t * d; }
    if t <= q { MonotoneFactor(d, t, q); assert d * q == q * d && d * t == t * d; }
    if q < t { Strict(d, q, t); }
    if t < q { Strict(d, t, q); }
  }

  lemma Strict(k: real, x: real, y: real)
    requires 0.0 < k && x < y
    ensures x * k < y * k
  {
    PositiveProduct(k, y - x);
    assert k * (y - x) == y * k - x * k;
  }

  lemma ZeroProduct(x: real, y: real)
    requires x * y == 0.0
    ensures x == 0.0 || y == 0.0
  {
    if x != 0.0 { assert y == (x * y) / x; }
  }

  lemma NonNegativeSquare(x: real)
    ensures 0.0 <= x * x
  {
    if x < 0.0 { PositiveProduct(-x, -x); }
  }

  lemma SquareIncreasing(x: real, y: real)
    requires 0.0 <= x < y
    ensures x * x < y * y
  {
    assert y * y - x * x == (y - x) * (y + x);
    PositiveProduct(y - x, y + x);
  }

  /** Squaring preserves and reflects the order of non-negative numbers. */
  lemma SquareOrder(x: real, y: real)
    requires 0.0 <= x && 0.0 <= y
    ensures x < y <==> x * x < y * y
    ensures x == y <==> x * x == y * y
  {
    if x < y {
      SquareIncreasing(x, y);
    } else if y < x {
      SquareIncreasing(y, x);
    }
  }
}
