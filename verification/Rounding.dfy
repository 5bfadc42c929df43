/** Rounding of exact real amounts to whole KRW. */
module Rounding {

  function Abs(n: int): nat {
    if n < 0 then -n else n
  }

  function Min(a: int, b: int): int {
    if a <= b then a else b
  }

  function Max(a: int, b: int): int {
    if a >= b then a else b
  }

  /** The least integer not below `x`. */
  function Ceil(x: real): int {
    -((-x).Floor)
  }

  lemma CeilMonotone(x: real, y: real)
    requires x <= y
    ensures Ceil(x) <= Ceil(y)
  {
  }

  /** The inequality behind every "moving in two hops never costs less" argument. */
  lemma CeilSubadditive(x: real, y: real)
    ensures Ceil(x + y) <= Ceil(x) + Ceil(y)
  {
  }

  lemma MulMonotone(u: real, x: real, y: real)
    requires 0.0 <= u && x <= y
    ensures u * x <= u * y
  {
    assert u * (y - x) >= 0.0;
    assert u * y == u * x + u * (y - x);
  }

  lemma MulNonNegative(u: real, x: real)
    requires 0.0 <= u && 0.0 <= x
    ensures 0.0 <= u * x
  {
  }

  lemma MulPositive(x: real, y: real)
    requires 0.0 < x && 0.0 < y
    ensures 0.0 < x * y
  {
  }

  lemma MulAtMost(n: real, r: real)
    requires 0.0 <= n && r <= 1.0
    ensures n * r <= n
  {
    MulMonotone(n, r, 1.0);
  }

  /** Two shares whose rates add up to at most one. */
  lemma SharesAtMost(n: real, r: real, r': real)
    requires 0.0 <= n && r + r' <= 1.0
    ensures n * r + n * r' <= n
  {
    assert n * (r + r') == n * r + n * r';
    MulAtMost(n, r + r');
  }

  lemma IntMulMonotone(a: int, b: int, c: int)
    requires a <= b && 0 <= c
    ensures a * c <= b * c
  {
    assert 0 <= (b - a) * c;
  }

  /** Floor division by a positive divisor, stated without division. */
  lemma QuotientIs(n: int, d: int, q: int)
    requires 0 < d && q * d <= n < q * d + d
    ensures n / d == q
  {
    var p := n / d;
    assert p * d <= n < p * d + d;
    if p < q {
      IntMulMonotone(p + 1, q, d);
    } else if q < p {
      IntMulMonotone(q + 1, p, d);
    }
  }

  lemma QuotientNonNegative(n: int, d: int)
    requires 0 <= n && 0 < d
    ensures 0 <= n / d
  {
    var p := n / d;
    assert n < p * d + d;
    if p < 0 {
      IntMulMonotone(p, -1, d);
    }
  }

  lemma QuotientBetween(n: int, d: int, lo: int, hi: int)
    requires 0 < d && lo * d <= n < hi * d
    ensures lo <= n / d < hi
  {
    var p := n / d;
    assert p * d <= n < p * d + d;
    if p < lo {
      IntMulMonotone(p + 1, lo, d);
    } else if hi <= p {
      IntMulMonotone(hi, p, d);
    }
  }
}
