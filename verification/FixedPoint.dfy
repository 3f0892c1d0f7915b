/** The fixed-point requantisation helpers of the hybrid int8 kernels. */
module FixedPoint {
  import opened Bits
  import opened Arith

  const INT32_MIN: int := -0x8000_0000
  const INT32_MAX: int := 0x7fff_ffff

  type Int32 = x: int | -0x8000_0000 <= x <= 0x7fff_ffff

  /** Integer division that truncates toward zero. */
  function TruncDiv(a: int, b: int): int
    requires b > 0
  {
    if a >= 0 then a / b else -((-a) / b)
  }

  function Max(a: int, b: int): int { if a < b then b else a }

  function Min(a: int, b: int): int { if b < a then b else a }

  function Abs(a: int): nat { if a < 0 then -a else a }

  /** Clamp to `[lo, hi]`. */
  function Clamp(x: int, lo: int, hi: int): (r: int)
    requires lo <= hi
    ensures lo <= r <= hi
    ensures lo <= x <= hi ==> r == x
  {
    Max(lo, Min(hi, x))
  }

  /** Two's complement wrap-around to 32 bits. */
  function Wrap32(x: int): (r: Int32)
    ensures INT32_MIN <= x <= INT32_MAX ==> r == x
    ensures (r - x) % TWO32 == 0
  {
    (x + TWO31) % TWO32 - TWO31
  }

  // ---------------------------------------------------------------- high multiplication

  /** Only the square of the least value reaches the square of the bound. */
  lemma ProductStrict(a: Int32, b: Int32)
    requires a != INT32_MIN || b != INT32_MIN
    ensures a * b <= 0x7fff_ffff * 0x8000_0000
  {
    if a != INT32_MIN && b != INT32_MIN { ProductBound(a, b, 0x7fff_ffff); }
  }

  function SaturatingRoundingDoublingHighMul(a: Int32, b: Int32): (r: Int32) {
    if a == INT32_MIN && b == INT32_MIN then INT32_MAX
    else
      var product := a * b;
      var nudge := if product >= 0 then 0x4000_0000 else 1 - 0x4000_0000;
      ProductBound(a, b, 0x8000_0000);
      ProductStrict(a, b);
      TruncDiv(product + nudge, 0x8000_0000)
  }

  /** Off the one saturating pair, the product is scaled down by 2^31 and rounded, ties upward. */
  lemma HighMulRounds(a: Int32, b: Int32)
    requires a != INT32_MIN || b != INT32_MIN
    ensures SaturatingRoundingDoublingHighMul(a, b) == (a * b + 0x4000_0000) / 0x8000_0000
  {}

  lemma HighMulError(a: Int32, b: Int32)
    requires a != INT32_MIN || b != INT32_MIN
    ensures Abs(0x8000_0000 * SaturatingRoundingDoublingHighMul(a, b) - a * b) <= 0x4000_0000
  {
    HighMulRounds(a, b);
  }

  lemma HighMulMonotone(a: Int32, a': Int32, b: Int32)
    requires a <= a' && b >= 0
    ensures SaturatingRoundingDoublingHighMul(a, b) <= SaturatingRoundingDoublingHighMul(a', b)
  {
    HighMulRounds(a, b);
    HighMulRounds(a', b);
    assert a * b <= a' * b;
  }

  // ---------------------------------------------------------------- rounding shift

  /** `>>` on a negative value and `&` with a mask of ones are floor division and its remainder. */
  function RoundingDivideByPowerOfTwo(value: Int32, exponent: int): (r: Int32)
    requires exponent <= 31
  {
    if exponent <= 0 then value
    else
      var m := Pow2(exponent);
      var remainder := value % m;
      var threshold := (m - 1) / 2 + (if value < 0 then 1 else 0);
      assert m == 2 * Pow2(exponent - 1);
      var r := value / m + (if remainder > threshold then 1 else 0);
      QuotientSize(value, m);
      r
  }

  /** The shift as a single floor division. */
  lemma RoundingShiftFloor(v: Int32, e: int)
    requires 0 < e <= 31
    ensures RoundingDivideByPowerOfTwo(v, e)
         == (v + Pow2(e - 1) - (if v < 0 then 1 else 0)) / Pow2(e)
  {
    var h, m := Pow2(e - 1), Pow2(e);
    var q, r := v / m, v % m;
    var n := if v < 0 then 1 else 0;
    assert v == q * m + r;
    assert (m - 1) / 2 == h - 1;
    if r > h - 1 + n { QuotientIs(v + h - n, m, q + 1, r + h - n - m); }
    else { QuotientIs(v + h - n, m, q, r + h - n); }
  }

  /** Division by a power of two rounds to nearest, ties away from zero. */
  lemma RoundingShiftNearest(v: Int32, e: int)
    requires 0 < e <= 31
    ensures var r := RoundingDivideByPowerOfTwo(v, e);
            Abs(Pow2(e) * r - v) <= Pow2(e - 1) &&
            (Abs(Pow2(e) * r - v) == Pow2(e - 1) ==> Abs(Pow2(e) * r) > Abs(v))
  {
    var h, m := Pow2(e - 1), Pow2(e);
    var q, r := v / m, v % m;
    assert v == q * m + r;
    assert m * (q + 1) == q * m + m && m * q == q * m;
    if v < 0 { assert q < 0 && q * m + m <= 0 by { QuotientSize(v, m); MultipleIsFar(q, m); } }
    else { assert q * m >= 0 by { QuotientSize(v, m); } }
  }

  lemma RoundingShiftMonotone(v: Int32, w: Int32, e: int)
    requires v <= w && e <= 31
    ensures RoundingDivideByPowerOfTwo(v, e) <= RoundingDivideByPowerOfTwo(w, e)
  {
    if e > 0 {
      RoundingShiftFloor(v, e);
      RoundingShiftFloor(w, e);
      FloorMonotone(v + Pow2(e - 1) - (if v < 0 then 1 else 0), w + Pow2(e - 1) - (if w < 0 then 1 else 0), Pow2(e));
    }
  }

  // ---------------------------------------------------------------- the composition

  /** The shifts the kernels accept. */
  predicate ShiftInRange(shift: int) { -31 <= shift <= 30 }

  function Shifted(value: Int32, shift: int): int {
    value * Pow2(Max(shift, 0))
  }

  function MultiplyByQuantizedMultiplier(value: Int32, multiplier: Int32, shift: int): (r: Int32)
    requires ShiftInRange(shift)
  {
    var bounded := Clamp(Shifted(value, shift), INT32_MIN, INT32_MAX);
    RoundingDivideByPowerOfTwo(SaturatingRoundingDoublingHighMul(bounded, multiplier), Max(-shift, 0))
  }

  /** Requantisation keeps the order of accumulators when the multiplier is not negative. */
  lemma MultiplierMonotone(v: Int32, w: Int32, multiplier: Int32, shift: int)
    requires v <= w && multiplier >= 0 && ShiftInRange(shift)
    ensures MultiplyByQuantizedMultiplier(v, multiplier, shift) <= MultiplyByQuantizedMultiplier(w, multiplier, shift)
  {
    MulMonotone(v, w, Pow2(Max(shift, 0)));
    var a := Clamp(Shifted(v, shift), INT32_MIN, INT32_MAX);
    var b := Clamp(Shifted(w, shift), INT32_MIN, INT32_MAX);
    HighMulMonotone(a, b, multiplier);
    RoundingShiftMonotone(SaturatingRoundingDoublingHighMul(a, multiplier),
                          SaturatingRoundingDoublingHighMul(b, multiplier), Max(-shift, 0));
  }

  /** How far the result, scaled back up, can be from the exact product. */
  lemma MultiplierError(value: Int32, multiplier: Int32, shift: int)
    requires ShiftInRange(shift)
    requires INT32_MIN <= Shifted(value, shift) <= INT32_MAX
    ensures var e := Max(-shift, 0);
            Abs(0x8000_0000 * (Pow2(e) * MultiplyByQuantizedMultiplier(value, multiplier, shift))
                - Shifted(value, shift) * multiplier) <= 0x4000_0000 + 0x4000_0000 * Pow2(e)
  {
    var e := Max(-shift, 0);
    var x := Shifted(value, shift);
    var s := SaturatingRoundingDoublingHighMul(x, multiplier);
    var r := RoundingDivideByPowerOfTwo(s, e);
    if x == INT32_MIN && multiplier == INT32_MIN {
      SaturatedShift(s, e);
    } else {
      HighMulError(x, multiplier);
      if e > 0 {
        RoundingShiftNearest(s, e);
        ErrorsAdd(s, Pow2(e) * r, Pow2(e - 1), x * multiplier);
      }
    }
  }

  lemma ErrorsAdd(s: int, scaled: int, half: nat, exact: int)
    requires Abs(0x8000_0000 * s - exact) <= 0x4000_0000 && Abs(scaled - s) <= half
    ensures Abs(0x8000_0000 * scaled - exact) <= 0x4000_0000 + 0x8000_0000 * half
  {}

  lemma PowersMakeTwo31(e: nat)
    requires e <= 31
    ensures Pow2(31 - e) * Pow2(e) == TWO31
  {
    Pow2Sum(31 - e, e);
    Pow2At31();
  }

  /** The saturated product misses by one, which any right shift rounds away. */
  lemma SaturatedShift(v: Int32, e: nat)
    requires e <= 31 && v == INT32_MAX
    ensures e > 0 ==> Pow2(e) * RoundingDivideByPowerOfTwo(v, e) == TWO31
  {
    if e > 0 {
      var h, k, m := Pow2(e - 1), Pow2(31 - e), Pow2(e);
      PowersMakeTwo31(e);
      RoundingShiftFloor(v, e);
      QuotientIs(v + h, m, k, h - 1);
      assert m * k == k * m;
    }
  }
}
