/** The few facts about products and quotients the other modules lean on. */
module Arith {

  lemma MulNonNegative(x: int, y: int)
    requires x >= 0 && y >= 0
    ensures x * y >= 0
  {}

  lemma MulMonotone(a: int, b: int, c: int)
    requires a <= b && c >= 0
    ensures a * c <= b * c && c * a <= c * b
  {
    MulNonNegative(b - a, c);
    assert (b - a) * c == b * c - a * c;
  }

  lemma MultipleIsFar(d: int, m: int)
    requires m > 0
    ensures d >= 1 ==> d * m >= m
    ensures d <= -1 ==> d * m <= -m
  {}

  lemma QuotientIs(a: int, m: int, q: int, r: int)
    requires m > 0 && a == q * m + r && 0 <= r < m
    ensures a / m == q && a % m == r
  {
    var d := q - a / m;
    assert a == (a / m) * m + a % m;
    assert d * m == a % m - r by { assert d * m == q * m - (a / m) * m; }
    MultipleIsFar(d, m);
  }

  lemma FloorMonotone(a: int, b: int, m: int)
    requires m > 0 && a <= b
    ensures a / m <= b / m
  {
    var d := a / m - b / m;
    assert a == (a / m) * m + a % m && b == (b / m) * m + b % m;
    assert d * m == (a / m) * m - (b / m) * m;
    MultipleIsFar(d, m);
  }

  lemma ProductBound(a: int, b: int, m: int)
    requires -m <= a <= m && -m <= b <= m
    ensures -(m * m) <= a * b <= m * m
  {
    MulNonNegative(m - a, m + b);
    MulNonNegative(m + a, m - b);
    MulNonNegative(m - a, m - b);
    MulNonNegative(m + a, m + b);
    assert (m - a) * (m + b) + (m + a) * (m - b) == 2 * (m * m) - 2 * (a * b);
    assert (m - a) * (m - b) + (m + a) * (m + b) == 2 * (m * m) + 2 * (a * b);
  }

  lemma QuotientSize(v: int, m: int)
    requires m >= 2
    ensures v >= 0 ==> 0 <= v / m && 2 * (v / m) <= v
    ensures v < 0 ==> v <= v / m < 0
  {
    var q := v / m;
    assert v == q * m + v % m;
    if q >= 0 { MulMonotone(2, m, q); } else { MulMonotone(2, m, -q); MulMonotone(1, m, -(q + 1)); }
  }

  lemma Scales(a: nat, b: nat, c: nat)
    requires a <= b
    ensures 0 <= a * c <= b * c
  {}

  lemma AtLeast(a: nat, b: nat)
    requires b >= 1
    ensures a * b >= a
  {}

  /** Dividing the limit tests for overflow without computing the product. */
  lemma Guard(limit: nat, count: nat, dim: nat)
    requires limit > 0 && dim > 0
    ensures count > (limit - 1) / dim <==> count * dim >= limit
  {
    var q := (limit - 1) / dim;
    assert limit - 1 == q * dim + (limit - 1) % dim;
    if count > q {
      Scales(q + 1, count, dim);
      assert (q + 1) * dim == q * dim + dim;
    } else {
      Scales(count, q, dim);
    }
  }
}
