/**
 What the integer kernels are meant to compute, written out in arithmetic over the bytes of
 their tensors.  Nothing here is shared with the kernels.
 */
module Reference {
  import opened Bits

  const LEAST32: int := -0x8000_0000
  const GREATEST32: int := 0x7fff_ffff

  /** `f(0) + ... + f(n - 1)`. */
  function Sum(n: nat, f: nat -> int): int {
    if n == 0 then 0 else Sum(n - 1, f) + f(n - 1)
  }

  lemma {:induction false} SumSame(n: nat, f: nat -> int, h: nat -> int)
    requires forall k: nat :: k < n ==> f(k) == h(k)
    ensures Sum(n, f) == Sum(n, h)
  {
    if n > 0 { SumSame(n - 1, f, h); }
  }

  lemma {:induction false} SumZero(n: nat, f: nat -> int)
    requires forall k: nat :: k < n ==> f(k) == 0
    ensures Sum(n, f) == 0
  {
    if n > 0 { SumZero(n - 1, f); }
  }

  /** Byte `i` of a tensor as a signed number, and 0 outside it. */
  function Int8Of(s: seq<Byte>, i: int): int {
    if 0 <= i < |s| then (if s[i] < 128 then s[i] as int else s[i] as int - 256) else 0
  }

  /** The little-endian `int32_t` at byte `i`, and 0 outside. */
  function Int32Of(s: seq<Byte>, i: int): int {
    if 0 <= i && i + 4 <= |s| then
      var w: int := s[i] as int + 256 * (s[i + 1] as int) + 65536 * (s[i + 2] as int) + 16777216 * (s[i + 3] as int);
      if w < 2147483648 then w else w - 4294967296
    else 0
  }

  function Wrapped(x: int): int { (x + 2147483648) % 4294967296 - 2147483648 }

  function Clipped(x: int, lo: int, hi: int): int { if x < lo then lo else if x > hi then hi else x }

  // ---------------------------------------------------------------- convolution

  /** A convolution layer: input, filter and output sizes, strides, padding and quantisation. */
  datatype Layer = Layer(depthwise: bool, h: nat, w: nat, c: nat, fh: nat, fw: nat, channels: nat,
                         strideH: nat, strideW: nat, padH: nat, padW: nat,
                         inputZero: int, filterZero: int, outputZero: int, lo: int, hi: int)

  /** The input channel that filter tap `k` of output channel `oc` meets. */
  function ChannelOf(l: Layer, oc: nat, k: nat): nat {
    if l.depthwise && 0 < l.c <= l.channels then oc / (l.channels / l.c) else k
  }

  /** The input off its zero point, and 0 in the padding. */
  function Pixel(l: Layer, input: seq<Byte>, b: nat, y: int, x: int, k: nat): int {
    if 0 <= y < l.h && 0 <= x < l.w then Int8Of(input, ((b * l.h + y) * l.w + x) * l.c + k) - l.inputZero else 0
  }

  function Weight(l: Layer, filter: seq<Byte>, oc: nat, fy: nat, fx: nat, k: nat): int {
    (if l.depthwise then Int8Of(filter, (fy * l.fw + fx) * l.channels + oc)
     else Int8Of(filter, ((oc * l.fh + fy) * l.fw + fx) * l.c + k)) - l.filterZero
  }

  function TapCount(l: Layer): nat { if l.depthwise then 1 else l.c }

  /** Exact integers, or integers kept in an `int32_t` after every step. */
  datatype Width = Exact | Wrapping

  function Held(width: Width, x: int): int { if width.Exact? then x else Wrapped(x) }

  /** Filter position `(fy, fx)` over input position `(y, x)`, channel by channel. */
  function TapTerms(width: Width, l: Layer, input: seq<Byte>, filter: seq<Byte>, b: nat, oc: nat, y: int, x: int, fy: nat, fx: nat): nat -> int {
    (k: nat) => Held(width, Held(width, Pixel(l, input, b, y, x, ChannelOf(l, oc, k))) * Held(width, Weight(l, filter, oc, fy, fx, k)))
  }

  /** Filter row `fy` over input row `y`, column by column. */
  function ColumnTerms(width: Width, l: Layer, input: seq<Byte>, filter: seq<Byte>, b: nat, ox: nat, oc: nat, y: int, fy: nat): nat -> int {
    (fx: nat) => Sum(TapCount(l), TapTerms(width, l, input, filter, b, oc, y, Held(width, ox * l.strideW + fx - l.padW), fy, fx))
  }

  function RowTerms(width: Width, l: Layer, input: seq<Byte>, filter: seq<Byte>, b: nat, oy: nat, ox: nat, oc: nat): nat -> int {
    (fy: nat) => Sum(l.fw, ColumnTerms(width, l, input, filter, b, ox, oc, Held(width, oy * l.strideH + fy - l.padH), fy))
  }

  /** The strided convolution over the zero-padded input, at output cell `(b, oy, ox, oc)`. */
  function Window(width: Width, l: Layer, input: seq<Byte>, filter: seq<Byte>, b: nat, oy: nat, ox: nat, oc: nat): int {
    Sum(l.fh, RowTerms(width, l, input, filter, b, oy, ox, oc))
  }

  /** `x * multiplier / 2^31`, rounded to nearest; the one product that does not fit saturates. */
  function High(x: int, multiplier: int): int {
    if x == LEAST32 && multiplier == LEAST32 then GREATEST32 else (x * multiplier + 0x4000_0000) / 0x8000_0000
  }

  /** Division by `2^-shift`, rounded to nearest with ties away from zero, when the shift is negative. */
  function ShiftedRight(high: int, shift: int): int {
    if shift >= 0 then high else (high + Pow2(-shift - 1) - (if high < 0 then 1 else 0)) / Pow2(-shift)
  }

  /** The accumulator scaled by `multiplier * 2^shift / 2^31`, with both roundings and saturations. */
  function Rescaled(accumulator: int, multiplier: int, shift: int): int {
    var value := Clipped(accumulator, LEAST32, GREATEST32);
    var x := Clipped(value * Pow2(if shift > 0 then shift else 0), LEAST32, GREATEST32);
    ShiftedRight(High(x, multiplier), shift)
  }

  /** The tensors and tables a convolution reads. */
  datatype Operands = Operands(input: seq<Byte>, filter: seq<Byte>, bias: seq<Byte>, multipliers: seq<Byte>, shifts: seq<Byte>)

  /** The value of an output cell. */
  function ConvCell(width: Width, l: Layer, o: Operands, b: nat, oy: nat, ox: nat, oc: nat): int {
    var accumulator := Int32Of(o.bias, 4 * oc) + Window(width, l, o.input, o.filter, b, oy, ox, oc);
    Clipped(Wrapped(Rescaled(accumulator, Int32Of(o.multipliers, 4 * oc), Int32Of(o.shifts, 4 * oc)) + l.outputZero), l.lo, l.hi)
  }

  // ---------------------------------------------------------------- products and sums

  /** A matrix product with an optional bias (none is empty); `transposed` when the right matrix has a row per column of the result. */
  datatype Matrices = Matrices(lhs: seq<Byte>, rhs: seq<Byte>, bias: seq<Byte>, depth: nat, cols: nat, transposed: bool,
                               lhsZero: int, rhsZero: int, outZero: int)

  function DotTerms(d: Matrices, row: nat, col: nat): nat -> int {
    (k: nat) => (Int8Of(d.lhs, row * d.depth + k) - d.lhsZero)
                * (Int8Of(d.rhs, if d.transposed then col * d.depth + k else k * d.cols + col) - d.rhsZero)
  }

  /** Row `row` times column `col`, each off its zero point, with the bias and the output zero point. */
  function Affine(d: Matrices, row: nat, col: nat): int {
    Int32Of(d.bias, 4 * col) + Sum(d.depth, DotTerms(d, row, col)) + d.outZero
  }

  function DenseCell(d: Matrices, lo: int, hi: int, row: nat, col: nat): int { Clipped(Wrapped(Affine(d, row, col)), lo, hi) }

  /** Element `i` of a sum of two tensors. */
  function ExactSum(lhs: seq<Byte>, rhs: seq<Byte>, lhsZero: int, rhsZero: int, outZero: int, i: nat): int {
    Int8Of(lhs, i) - lhsZero + Int8Of(rhs, i) - rhsZero + outZero
  }
}
