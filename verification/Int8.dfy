/** Int8 tensors in memory, and the 32-bit arithmetic the integer kernels do on their elements. */
module Int8 {
  import opened Arith
  import opened Bits
  import opened FixedPoint
  /** The plain arithmetic the kernels are measured against; `R` wherever this module is opened. */
  import R = Reference

  function Signed8(b: Byte): (r: int)
    ensures -128 <= r <= 127
  {
    if b < 128 then b else b - 256
  }

  function Byte8(x: int): Byte
    requires -128 <= x <= 127
  {
    if x < 0 then x + 256 else x
  }

  function Int32At(m: seq<Byte>, i: nat): Int32
    requires i + 4 <= |m|
  {
    var w: int := m[i] as int + 0x100 * (m[i + 1] as int) + 0x1_0000 * (m[i + 2] as int) + 0x100_0000 * (m[i + 3] as int);
    if w >= TWO31 then w - TWO32 else w
  }

  /** The reference reads the bytes of a tensor, and words of a table, from a slice of memory. */
  lemma SliceSigned(m: seq<Byte>, at: nat, n: nat, i: nat)
    requires at + n <= |m| && i < n
    ensures R.Int8Of(m[at..at + n], i) == Signed8(m[at + i])
  {}

  lemma SliceWord(m: seq<Byte>, at: nat, n: nat, i: nat)
    requires at + n <= |m| && i + 4 <= n
    ensures R.Int32Of(m[at..at + n], i) == Int32At(m, at + i)
  {
    var s := m[at..at + n];
    assert s[i] == m[at + i] && s[i + 1] == m[at + i + 1] && s[i + 2] == m[at + i + 2] && s[i + 3] == m[at + i + 3];
  }

  lemma WrappedIs(x: int)
    ensures R.Wrapped(x) == Wrap32(x)
  {}

  lemma TwosComplement(v: int)
    requires -128 <= v <= 127
    ensures Byte8(v) == v % 256
  {}

  predicate Apart(a: nat, n: nat, b: nat, m: nat) { a + n <= b || b + m <= a }

  /** Memory as it was, outside the `n` bytes at `at`. */
  predicate SameOutside(m: seq<Byte>, m0: seq<Byte>, at: nat, n: nat) {
    |m| == |m0| && forall i :: 0 <= i < |m| && !(at <= i < at + n) ==> m[i] == m0[i]
  }

  // ---------------------------------------------------------------- wrap-around

  predicate InInt32(x: int) { INT32_MIN <= x <= INT32_MAX }

  /** How many times 2^32 the wrap takes off. */
  function Turns(x: int): int { (x + TWO31) / TWO32 }

  lemma WrapIs(x: int)
    ensures Wrap32(x) == x - Turns(x) * TWO32
  {}

  lemma WrapTurns(x: int, k: int)
    ensures Wrap32(x + k * TWO32) == Wrap32(x)
  {
    var y := x + TWO31;
    assert y + k * TWO32 == (y / TWO32 + k) * TWO32 + y % TWO32;
    QuotientIs(y + k * TWO32, TWO32, y / TWO32 + k, y % TWO32);
  }

  lemma WrapSum(x: int, y: int)
    ensures Wrap32(Wrap32(x) + y) == Wrap32(x + y)
  {
    WrapIs(x);
    WrapTurns(x + y, -Turns(x));
  }

  lemma WrapScaled(x: int, y: int)
    ensures Wrap32(Wrap32(x) * y) == Wrap32(x * y)
  {
    WrapIs(x);
    assert (x - Turns(x) * TWO32) * y == x * y + (-(Turns(x) * y)) * TWO32;
    WrapTurns(x * y, -(Turns(x) * y));
  }

  lemma WrapBoth(x: int, y: int)
    ensures Wrap32(Wrap32(x) + Wrap32(y)) == Wrap32(x + y)
  {
    WrapSum(x, Wrap32(y));
    WrapSum(y, x);
  }

  // ---------------------------------------------------------------- an accumulator of 32 bits

  /** The accumulator after the first `n` terms, each addition wrapping. */
  function Running(start: Int32, terms: seq<int>, n: nat): Int32
    requires n <= |terms|
  {
    if n == 0 then start else Wrap32(Running(start, terms, n - 1) + terms[n - 1])
  }

  function SumOf(terms: seq<int>, n: nat): int
    requires n <= |terms|
  {
    if n == 0 then 0 else SumOf(terms, n - 1) + terms[n - 1]
  }

  /** However often it wraps, on wrapped terms, the accumulator holds the exact sum modulo 2^32. */
  lemma {:induction false} RunningIsSum(start: Int32, terms: seq<int>, exact: seq<int>, n: nat)
    requires n <= |terms| == |exact| && forall i :: 0 <= i < |terms| ==> terms[i] == Wrap32(exact[i])
    ensures Running(start, terms, n) == Wrap32(start + SumOf(exact, n))
  {
    if n > 0 {
      RunningIsSum(start, terms, exact, n - 1);
      WrapBoth(start + SumOf(exact, n - 1), exact[n - 1]);
    }
  }

  lemma {:induction false} SumBetween(terms: seq<int>, n: nat, lo: int, hi: int)
    requires n <= |terms| && forall i :: 0 <= i < |terms| ==> lo <= terms[i] <= hi
    ensures n * lo <= SumOf(terms, n) <= n * hi
  {
    if n > 0 {
      SumBetween(terms, n - 1, lo, hi);
      assert n * lo == (n - 1) * lo + lo && n * hi == (n - 1) * hi + hi;
    }
  }

  /** Replacing one term changes the sum by the difference. */
  lemma {:induction false} SumReplaced(terms: seq<int>, other: seq<int>, k: nat, n: nat)
    requires |terms| == |other| && n <= |terms| && forall i :: 0 <= i < |terms| && i != k ==> terms[i] == other[i]
    ensures SumOf(other, n) == SumOf(terms, n) + if k < n then other[k] - terms[k] else 0
    decreases n
  {
    if n > 0 { SumReplaced(terms, other, k, n - 1); }
  }

  // ---------------------------------------------------------------- a clamp after the wrap

  /** Wrapping before the clamp makes no difference. */
  predicate Settled(x: int, lo: int, hi: int)
    requires lo <= hi
  {
    Clamp(Wrap32(x), lo, hi) == Clamp(x, lo, hi)
  }

  /** The whole interval wraps by as many turns, to the side of the range on which it lies. */
  predicate OneTurn(least: int, greatest: int, lo: int, hi: int) {
    var k := Turns(least);
    && k == Turns(greatest)
    && (k > 0 ==> least - k * TWO32 >= hi)
    && (k < 0 ==> greatest - k * TWO32 <= lo)
  }

  lemma TurnsOf(x: int)
    ensures INT32_MIN <= x - Turns(x) * TWO32 <= INT32_MAX
    ensures Turns(x) > 0 <==> x > INT32_MAX
    ensures Turns(x) < 0 <==> x < INT32_MIN
  {}

  lemma SettledIff(x: int, lo: int, hi: int)
    requires -128 <= lo < hi <= 127
    ensures Settled(x, lo, hi) <==> OneTurn(x, x, lo, hi)
  {
    WrapIs(x);
    TurnsOf(x);
  }

  lemma SettledBetween(x: int, least: int, greatest: int, lo: int, hi: int)
    requires -128 <= lo < hi <= 127 && least <= x <= greatest && OneTurn(least, greatest, lo, hi)
    ensures Settled(x, lo, hi)
  {
    FloorMonotone(least + TWO31, x + TWO31, TWO32);
    FloorMonotone(x + TWO31, greatest + TWO31, TWO32);
    SettledIff(x, lo, hi);
  }

  /** Two settled values less than half the way round apart wrap by the same turns. */
  lemma SettledNeighbours(x: int, y: int, lo: int, hi: int)
    requires -128 <= lo < hi <= 127 && Settled(x, lo, hi) && Settled(y, lo, hi) && Abs(x - y) < TWO31 - 128
    ensures Turns(x) == Turns(y)
  {
    SettledIff(x, lo, hi);
    SettledIff(y, lo, hi);
    TurnsOf(x);
    TurnsOf(y);
  }

  // ---------------------------------------------------------------- one product

  /** A product of 32-bit operands, taken in 32 bits. */
  function Mul32(x: int, y: int): Int32 { Wrap32(Wrap32(x) * Wrap32(y)) }

  lemma Commutes(x: int, y: int)
    ensures x * y == y * x
  {}

  lemma MulWraps(x: int, y: int)
    ensures Mul32(x, y) == Wrap32(x * y)
  {
    var v := Wrap32(y);
    WrapScaled(x, v);
    Commutes(x, v);
    WrapScaled(y, x);
    Commutes(x, y);
  }

  lemma MulExactIff(x: int, y: int)
    ensures Mul32(x, y) == x * y <==> InInt32(x * y)
  {
    MulWraps(x, y);
  }

  /** `(a - za) * (b - zb)` as the kernels take it, each operation on an `int32_t`. */
  function Product8(a: int, b: int, za: int, zb: int): Int32 { Mul32(a - za, b - zb) }

  /** The four extreme products of two int8 values, off these zero points, fit an `int32_t`. */
  predicate ZeroPointsFit(za: int, zb: int) {
    && InInt32((-128 - za) * (-128 - zb)) && InInt32((-128 - za) * (127 - zb))
    && InInt32((127 - za) * (-128 - zb)) && InInt32((127 - za) * (127 - zb))
  }

  lemma Between(x: int, lo: int, hi: int, y: int)
    requires lo <= x <= hi && InInt32(lo * y) && InInt32(hi * y)
    ensures InInt32(x * y)
  {
    if y >= 0 {
      MulMonotone(lo, x, y);
      MulMonotone(x, hi, y);
    } else {
      MulMonotone(lo, x, -y);
      MulMonotone(x, hi, -y);
    }
  }

  /** A product of values between extremes that fit, fits. */
  lemma Inside(x: int, lx: int, hx: int, y: int, ly: int, hy: int)
    requires lx <= x <= hx && ly <= y <= hy
    requires InInt32(lx * ly) && InInt32(lx * hy) && InInt32(hx * ly) && InInt32(hx * hy)
    ensures InInt32(x * y)
  {
    Between(x, lx, hx, ly);
    Between(x, lx, hx, hy);
    Commutes(x, ly);
    Commutes(x, hy);
    Between(y, ly, hy, x);
    Commutes(x, y);
  }

  lemma ProductExact(a: int, b: int, za: int, zb: int)
    requires ZeroPointsFit(za, zb) && -128 <= a <= 127 && -128 <= b <= 127
    ensures Product8(a, b, za, zb) == (a - za) * (b - zb)
  {
    Inside(a - za, -128 - za, 127 - za, b - zb, -128 - zb, 127 - zb);
    MulExactIff(a - za, b - zb);
  }

  ghost predicate AlwaysExact(za: int, zb: int) {
    forall a: int, b: int :: -128 <= a <= 127 && -128 <= b <= 127 ==> Product8(a, b, za, zb) == (a - za) * (b - zb)
  }

  /** The 32-bit product is the product for all int8 operands exactly when the four extremes fit. */
  lemma ProductExactIff(za: int, zb: int)
    ensures AlwaysExact(za, zb) <==> ZeroPointsFit(za, zb)
  {
    if ZeroPointsFit(za, zb) {
      forall a: int, b: int | -128 <= a <= 127 && -128 <= b <= 127 ensures Product8(a, b, za, zb) == (a - za) * (b - zb) {
        ProductExact(a, b, za, zb);
      }
    }
    if AlwaysExact(za, zb) {
      Corner(-128, -128, za, zb);
      Corner(-128, 127, za, zb);
      Corner(127, -128, za, zb);
      Corner(127, 127, za, zb);
    }
  }

  lemma Corner(a: int, b: int, za: int, zb: int)
    requires AlwaysExact(za, zb) && -128 <= a <= 127 && -128 <= b <= 127
    ensures InInt32((a - za) * (b - zb))
  {
    assert Product8(a, b, za, zb) == (a - za) * (b - zb);
    MulExactIff(a - za, b - zb);
  }

  /** Zero points that are int8 values themselves always fit, with products up to 255 * 255. */
  lemma Int8ZeroPointsFit(za: int, zb: int)
    requires -128 <= za <= 127 && -128 <= zb <= 127
    ensures ZeroPointsFit(za, zb)
  {
    ProductBound(-128 - za, -128 - zb, 255);
    ProductBound(-128 - za, 127 - zb, 255);
    ProductBound(127 - za, -128 - zb, 255);
    ProductBound(127 - za, 127 - zb, 255);
  }

  /** A zero point the descriptors accept, and for which the 32-bit product is not always the product. */
  lemma LargeZeroPointWraps()
    ensures !AlwaysExact(100_000_000, 0)
  {
    ProductExactIff(100_000_000, 0);
  }
}
