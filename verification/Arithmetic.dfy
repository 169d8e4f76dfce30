/** Facts about multiplication and division by a variable, each proved once and called where needed. */
module Arithmetic {

  lemma MulMonotone(a: int, b: int, d: int)
    requires a <= b && 0 <= d
    ensures a * d <= b * d
  {
    assert (b - a) * d >= 0;
  }

  lemma DivSplit(x: int, d: int)
    requires d > 0
    ensures x == x / d * d + x % d && x / d * d <= x < x / d * d + d
  {
  }

  lemma MulAtLeast(e: int, d: int)
    requires d > 0
    ensures e >= 1 ==> e * d >= d
    ensures e <= -1 ==> e * d <= -d
  {
    if e >= 1 {
      MulMonotone(1, e, d);
    } else if e <= -1 {
      MulMonotone(e, -1, d);
    }
  }

  /** The quotient is the only number whose multiple lies within one divisor below `x`. */
  lemma DivUnique(x: int, d: int, q: int)
    requires d > 0 && q * d <= x < q * d + d
    ensures x / d == q && x % d == x - q * d
  {
    DivSplit(x, d);
    var e := x / d - q;
    assert e * d == x / d * d - q * d;
    MulAtLeast(e, d);
  }

  lemma MultipleMod(k: int, d: int)
    requires d > 0
    ensures k * d % d == 0 && k * d / d == k
  {
    DivUnique(k * d, d, k);
  }

  lemma DivMonotone(a: int, b: int, d: int)
    requires d > 0 && a <= b
    ensures a / d <= b / d
  {
    DivSplit(a, d);
    DivSplit(b, d);
    var e := a / d - b / d;
    assert e * d == a / d * d - b / d * d;
    MulAtLeast(e, d);
  }

  lemma MulSpan(m: int, q: int, k: int, d: int)
    requires d > 0 && q * k <= m < q * k + k
    ensures q * (d * k) <= m * d && m * d + d <= q * (d * k) + d * k
  {
    MulMonotone(q * k, m, d);
    MulMonotone(m + 1, q * k + k, d);
    MulRegroup(q, k, d);
  }

  lemma MulRegroup(q: int, k: int, d: int)
    ensures q * k * d == q * (d * k) && (q * k + k) * d == q * (d * k) + d * k
  {
  }

  /** Dividing by a product is dividing twice. */
  lemma DivDiv(x: int, d: int, k: int)
    requires d > 0 && k > 0
    ensures d * k > 0 && x / d / k == x / (d * k)
  {
    MulAtLeast(k, d);
    var m := x / d;
    DivSplit(x, d);
    DivSplit(m, k);
    MulSpan(m, m / k, k, d);
    DivUnique(x, d * k, m / k);
  }

  lemma RealMulMonotone(a: real, b: real, d: real)
    requires a <= b && 0.0 <= d
    ensures a * d <= b * d
  {
    assert (b - a) * d >= 0.0;
  }

  lemma RealMulSign(x: real, d: real)
    requires 0.0 < d
    ensures (x < 0.0 ==> x * d < 0.0) && (x <= 0.0 ==> x * d <= 0.0) && (x >= 0.0 ==> x * d >= 0.0)
  {
  }

  /** Less than one apart, less than one `d` apart. */
  lemma RealMulGap(x: real, y: real, d: real, xd: real, yd: real)
    requires 0.0 < d && y < x + 1.0 && xd == x * d && yd == y * d
    ensures yd < xd + d
  {
    var gap := y - x - 1.0;
    RealMulSign(gap, d);
    assert gap * d == yd - xd - d;
  }

  lemma RealCancel(a: real, b: real, d: real)
    requires d > 0.0 && a * d == b * d
    ensures a == b
  {
    RealMulSign(a - b, d);
    RealMulSign(b - a, d);
  }

  lemma QuotientBetween(x: real, d: real, lo: real, hi: real)
    requires d > 0.0 && lo * d <= x <= hi * d
    ensures lo <= x / d <= hi
  {
    var q := x / d;
    assert q * d == x;
    assert q < lo ==> (lo - q) * d > 0.0;
    assert q > hi ==> (q - hi) * d > 0.0;
  }
}
