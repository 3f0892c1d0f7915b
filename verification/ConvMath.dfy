/** The convolution kernels against the arithmetic reference. */
module ConvMath {
  import opened Arith
  import opened Bits
  import opened FixedPoint
  import opened Int8
  import opened Tensors
  import opened HybridConv

  /** The layer a geometry describes. */
  function LayerOf(g: Conv): R.Layer {
    R.Layer(g.depthwise, g.input.h, g.input.w, g.input.c, g.filter.h, g.filter.w, g.output.c, g.strideH, g.strideW, g.padH, g.padW,
            g.inputZero, g.filterZero, g.outputZero, g.actMin, g.actMax)
  }

  function InputOf(g: Conv, m: seq<Byte>): seq<Byte>
    requires Sound(g, |m|)
  {
    m[g.inputAt..g.inputAt + Volume(g.input)]
  }

  function FilterOf(g: Conv, m: seq<Byte>): seq<Byte>
    requires Sound(g, |m|)
  {
    m[g.filterAt..g.filterAt + Volume(g.filter)]
  }

  // ---------------------------------------------------------------- one tap

  function Product32(x: int, y: int): int { R.Held(R.Wrapping, R.Held(R.Wrapping, x) * R.Held(R.Wrapping, y)) }

  /** The tap of the reference at input position `(y, x)`. */
  function Tap32(l: R.Layer, input: seq<Byte>, filter: seq<Byte>, b: nat, oc: nat, y: int, x: int, fy: nat, fx: nat, k: nat): int {
    Product32(R.Pixel(l, input, b, y, x, R.ChannelOf(l, oc, k)), R.Weight(l, filter, oc, fy, fx, k))
  }

  /** An element is where the row-major layout has it. */
  lemma ElementIs(s: Shape, m: seq<Byte>, at: nat, n: nat, y: nat, x: nat, c: nat)
    requires Within(s, n, y, x, c) && at + Volume(s) <= |m|
    ensures Index(s, n, y, x, c) < Volume(s)
    ensures Signed8(m[at + Index(s, n, y, x, c)]) == R.Int8Of(m[at..at + Volume(s)], ((n * s.h + y) * s.w + x) * s.c + c)
  {
    IndexIsProduct(s, n, y, x, c);
    IndexInVolume(s, n, y, x, c);
    SliceSigned(m, at, Volume(s), Index(s, n, y, x, c));
  }

  lemma ChannelIs(g: Conv, oc: nat, k: nat)
    requires Positive(g.input) && (g.depthwise ==> g.output.c >= g.input.c)
    ensures InputChannel(g, oc, k) == R.ChannelOf(LayerOf(g), oc, k)
  {}

  lemma ChannelWithin(g: Conv, oc: nat, k: nat)
    requires Positive(g.input) && oc < g.output.c && k < Taps(g) && (g.depthwise ==> g.output.c % g.input.c == 0)
    ensures g.depthwise ==> g.output.c >= g.input.c
    ensures InputChannel(g, oc, k) < g.input.c
  {
    if g.depthwise { DepthwiseChannel(oc, g.output.c, g.input.c); }
  }

  /** The pixel a channel's tap meets, given where the layout has it. */
  lemma PixelIs(l: R.Layer, s: Shape, m: seq<Byte>, at: nat, b: nat, y: nat, x: nat, c: nat)
    requires Within(s, b, y, x, c) && at + Volume(s) <= |m| && l.h == s.h && l.w == s.w && l.c == s.c
    ensures Index(s, b, y, x, c) < Volume(s)
    ensures R.Pixel(l, m[at..at + Volume(s)], b, y, x, c) == Signed8(m[at + Index(s, b, y, x, c)]) - l.inputZero
  {
    ElementIs(s, m, at, b, y, x, c);
  }

  lemma WeightIs(l: R.Layer, s: Shape, m: seq<Byte>, at: nat, oc: nat, fy: nat, fx: nat, k: nat)
    requires !l.depthwise && Within(s, oc, fy, fx, k) && at + Volume(s) <= |m| && l.fh == s.h && l.fw == s.w && l.c == s.c
    ensures Index(s, oc, fy, fx, k) < Volume(s)
    ensures R.Weight(l, m[at..at + Volume(s)], oc, fy, fx, k) == Signed8(m[at + Index(s, oc, fy, fx, k)]) - l.filterZero
  {
    ElementIs(s, m, at, oc, fy, fx, k);
  }

  lemma DepthwiseWeightIs(l: R.Layer, s: Shape, m: seq<Byte>, at: nat, oc: nat, fy: nat, fx: nat, k: nat)
    requires l.depthwise && Within(s, 0, fy, fx, oc) && at + Volume(s) <= |m| && l.fw == s.w && l.channels == s.c
    ensures Index(s, 0, fy, fx, oc) < Volume(s)
    ensures R.Weight(l, m[at..at + Volume(s)], oc, fy, fx, k) == Signed8(m[at + Index(s, 0, fy, fx, oc)]) - l.filterZero
  {
    ElementIs(s, m, at, 0, fy, fx, oc);
    assert (0 * s.h + fy) * s.w == fy * s.w;
  }

  lemma InputIs(g: Conv, m: seq<Byte>, b: nat, oc: nat, iy: nat, ix: nat, k: nat)
    requires Sound(g, |m|) && b < g.output.n && oc < g.output.c && iy < g.input.h && ix < g.input.w && k < Taps(g)
    ensures g.depthwise ==> g.output.c >= g.input.c
    ensures InputCell(g, b, iy, ix, oc, k) < |m|
    ensures Signed8(m[InputCell(g, b, iy, ix, oc, k)]) - g.inputZero ==
              R.Pixel(LayerOf(g), InputOf(g, m), b, iy, ix, R.ChannelOf(LayerOf(g), oc, k))
  {
    ChannelWithin(g, oc, k);
    ChannelIs(g, oc, k);
    PixelIs(LayerOf(g), g.input, m, g.inputAt, b, iy, ix, InputChannel(g, oc, k));
  }

  lemma FilterIs(g: Conv, m: seq<Byte>, oc: nat, fy: nat, fx: nat, k: nat)
    requires Sound(g, |m|) && oc < g.output.c && fy < g.filter.h && fx < g.filter.w && k < Taps(g)
    ensures FilterCell(g, oc, fy, fx, k) < |m|
    ensures Signed8(m[FilterCell(g, oc, fy, fx, k)]) - g.filterZero == R.Weight(LayerOf(g), FilterOf(g, m), oc, fy, fx, k)
  {
    if g.depthwise {
      DepthwiseWeightIs(LayerOf(g), g.filter, m, g.filterAt, oc, fy, fx, k);
    } else {
      WeightIs(LayerOf(g), g.filter, m, g.filterAt, oc, fy, fx, k);
    }
  }

  lemma TapIs(g: Conv, m: seq<Byte>, b: nat, oc: nat, iy: nat, ix: nat, fy: nat, fx: nat, k: nat)
    requires Sound(g, |m|) && InWindow(g, b, oc, iy, ix, fy, fx) && k < Taps(g)
    ensures Tap(g, m, b, oc, iy, ix, fy, fx, k) == Tap32(LayerOf(g), InputOf(g, m), FilterOf(g, m), b, oc, iy, ix, fy, fx, k)
  {
    InputIs(g, m, b, oc, iy, ix, k);
    FilterIs(g, m, oc, fy, fx, k);
    var x := R.Pixel(LayerOf(g), InputOf(g, m), b, iy, ix, R.ChannelOf(LayerOf(g), oc, k));
    var y := R.Weight(LayerOf(g), FilterOf(g, m), oc, fy, fx, k);
    TapUnfolds(g, m, b, oc, iy, ix, fy, fx, k, x, y);
    ProductIs(x, y);
  }

  lemma ProductIs(x: int, y: int)
    ensures Wrap32(Wrap32(x) * Wrap32(y)) == Product32(x, y)
  {
    WrappedIs(x);
    WrappedIs(y);
    WrappedIs(R.Wrapped(x) * R.Wrapped(y));
  }

  lemma TapUnfolds(g: Conv, m: seq<Byte>, b: nat, oc: nat, iy: nat, ix: nat, fy: nat, fx: nat, k: nat, x: int, y: int)
    requires Sound(g, |m|) && InWindow(g, b, oc, iy, ix, fy, fx) && k < Taps(g)
    requires g.depthwise ==> g.output.c >= g.input.c
    requires InputCell(g, b, iy, ix, oc, k) < |m| && FilterCell(g, oc, fy, fx, k) < |m|
    requires x == Signed8(m[InputCell(g, b, iy, ix, oc, k)]) - g.inputZero
    requires y == Signed8(m[FilterCell(g, oc, fy, fx, k)]) - g.filterZero
    ensures Tap(g, m, b, oc, iy, ix, fy, fx, k) == Wrap32(Wrap32(x) * Wrap32(y))
  {}

  // ---------------------------------------------------------------- the three loops

  lemma {:induction false} ChannelsAre(g: Conv, m: seq<Byte>, b: nat, oc: nat, iy: nat, ix: nat, fy: nat, fx: nat, f: nat -> int, n: nat)
    requires Sound(g, |m|) && InWindow(g, b, oc, iy, ix, fy, fx) && n <= Taps(g)
    requires forall k: nat :: k < Taps(g) ==> f(k) == Tap(g, m, b, oc, iy, ix, fy, fx, k)
    ensures R.Sum(n, f) == ChannelSum(g, m, b, oc, iy, ix, fy, fx, n)
    decreases n
  {
    if n > 0 { ChannelsAre(g, m, b, oc, iy, ix, fy, fx, f, n - 1); }
  }

  /** What window column `fx` adds to a row. */
  function ColumnAdds(g: Conv, m: seq<Byte>, b: nat, ox: nat, oc: nat, iy: nat, fy: nat, fx: nat): int
    requires Sound(g, |m|) && b < g.output.n && oc < g.output.c && iy < g.input.h && fy < g.filter.h && fx < g.filter.w
  {
    var ix := InCoord(ox, g.strideW, fx, g.padW);
    if 0 <= ix < g.input.w then ChannelSum(g, m, b, oc, iy, ix, fy, fx, Taps(g)) else 0
  }

  lemma {:induction false} RowIs(g: Conv, m: seq<Byte>, b: nat, ox: nat, oc: nat, iy: nat, fy: nat, f: nat -> int, n: nat)
    requires Sound(g, |m|) && b < g.output.n && oc < g.output.c && iy < g.input.h && fy < g.filter.h && n <= g.filter.w
    requires forall fx: nat :: fx < g.filter.w ==> f(fx) == ColumnAdds(g, m, b, ox, oc, iy, fy, fx)
    ensures R.Sum(n, f) == RowSum(g, m, b, ox, oc, iy, fy, n)
    decreases n
  {
    if n > 0 { RowIs(g, m, b, ox, oc, iy, fy, f, n - 1); }
  }

  function RowAdds(g: Conv, m: seq<Byte>, b: nat, oy: nat, ox: nat, oc: nat, fy: nat): int
    requires Sound(g, |m|) && b < g.output.n && oc < g.output.c && fy < g.filter.h
  {
    var iy := InCoord(oy, g.strideH, fy, g.padH);
    if 0 <= iy < g.input.h then RowSum(g, m, b, ox, oc, iy, fy, g.filter.w) else 0
  }

  lemma {:induction false} WindowIs(g: Conv, m: seq<Byte>, b: nat, oy: nat, ox: nat, oc: nat, f: nat -> int, n: nat)
    requires Sound(g, |m|) && b < g.output.n && oc < g.output.c && n <= g.filter.h
    requires forall fy: nat :: fy < g.filter.h ==> f(fy) == RowAdds(g, m, b, oy, ox, oc, fy)
    ensures R.Sum(n, f) == WindowSum(g, m, b, oy, ox, oc, n)
    decreases n
  {
    if n > 0 { WindowIs(g, m, b, oy, ox, oc, f, n - 1); }
  }

  // ---------------------------------------------------------------- the reference window

  lemma TapsAre(g: Conv, m: seq<Byte>, b: nat, oc: nat, iy: nat, ix: nat, fy: nat, fx: nat)
    requires Sound(g, |m|) && InWindow(g, b, oc, iy, ix, fy, fx)
    ensures R.Sum(Taps(g), R.TapTerms(R.Wrapping, LayerOf(g), InputOf(g, m), FilterOf(g, m), b, oc, iy, ix, fy, fx)) ==
              ChannelSum(g, m, b, oc, iy, ix, fy, fx, Taps(g))
  {
    var f := R.TapTerms(R.Wrapping, LayerOf(g), InputOf(g, m), FilterOf(g, m), b, oc, iy, ix, fy, fx);
    forall k: nat | k < Taps(g) ensures f(k) == Tap(g, m, b, oc, iy, ix, fy, fx, k) {
      TapIs(g, m, b, oc, iy, ix, fy, fx, k);
    }
    ChannelsAre(g, m, b, oc, iy, ix, fy, fx, f, Taps(g));
  }

  /** In the padding every tap is 0. */
  lemma PaddingTaps(l: R.Layer, input: seq<Byte>, filter: seq<Byte>, b: nat, oc: nat, y: int, x: int, fy: nat, fx: nat, n: nat)
    requires !(0 <= y < l.h && 0 <= x < l.w)
    ensures R.Sum(n, R.TapTerms(R.Wrapping, l, input, filter, b, oc, y, x, fy, fx)) == 0
  {
    R.SumZero(n, R.TapTerms(R.Wrapping, l, input, filter, b, oc, y, x, fy, fx));
  }

  lemma CoordIs(o: nat, stride: nat, f: nat, pad: nat)
    ensures InCoord(o, stride, f, pad) == R.Held(R.Wrapping, o * stride + f - pad)
  {}

  /** What a column adds, inside the input and in the padding. */
  lemma ColumnAt(g: Conv, m: seq<Byte>, b: nat, oc: nat, iy: nat, ix: int, fy: nat, fx: nat)
    requires Sound(g, |m|) && b < g.output.n && oc < g.output.c && iy < g.input.h && fy < g.filter.h && fx < g.filter.w
    ensures R.Sum(Taps(g), R.TapTerms(R.Wrapping, LayerOf(g), InputOf(g, m), FilterOf(g, m), b, oc, iy, ix, fy, fx)) ==
              if 0 <= ix < g.input.w then ChannelSum(g, m, b, oc, iy, ix, fy, fx, Taps(g)) else 0
  {
    if 0 <= ix < g.input.w {
      TapsAre(g, m, b, oc, iy, ix, fy, fx);
    } else {
      PaddingTaps(LayerOf(g), InputOf(g, m), FilterOf(g, m), b, oc, iy, ix, fy, fx, Taps(g));
    }
  }

  lemma ColumnTermIs(width: R.Width, l: R.Layer, input: seq<Byte>, filter: seq<Byte>, b: nat, ox: nat, oc: nat, y: int, x: int, fy: nat, fx: nat)
    requires x == R.Held(width, ox * l.strideW + fx - l.padW)
    ensures R.ColumnTerms(width, l, input, filter, b, ox, oc, y, fy)(fx) ==
              R.Sum(R.TapCount(l), R.TapTerms(width, l, input, filter, b, oc, y, x, fy, fx))
  {}

  lemma RowTermAt(width: R.Width, l: R.Layer, input: seq<Byte>, filter: seq<Byte>, b: nat, oy: nat, ox: nat, oc: nat, y: int, fy: nat)
    requires y == R.Held(width, oy * l.strideH + fy - l.padH)
    ensures R.RowTerms(width, l, input, filter, b, oy, ox, oc)(fy) == R.Sum(l.fw, R.ColumnTerms(width, l, input, filter, b, ox, oc, y, fy))
  {}

  lemma ColumnIs(g: Conv, m: seq<Byte>, b: nat, ox: nat, oc: nat, iy: nat, fy: nat, fx: nat, ix: int)
    requires Sound(g, |m|) && b < g.output.n && oc < g.output.c && iy < g.input.h && fy < g.filter.h && fx < g.filter.w
    requires ix == InCoord(ox, g.strideW, fx, g.padW)
    ensures R.ColumnTerms(R.Wrapping, LayerOf(g), InputOf(g, m), FilterOf(g, m), b, ox, oc, iy, fy)(fx) == ColumnAdds(g, m, b, ox, oc, iy, fy, fx)
  {
    CoordIs(ox, g.strideW, fx, g.padW);
    ColumnTermIs(R.Wrapping, LayerOf(g), InputOf(g, m), FilterOf(g, m), b, ox, oc, iy, ix, fy, fx);
    ColumnAt(g, m, b, oc, iy, ix, fy, fx);
  }

  lemma ColumnsAre(g: Conv, m: seq<Byte>, b: nat, ox: nat, oc: nat, iy: nat, fy: nat)
    requires Sound(g, |m|) && b < g.output.n && oc < g.output.c && iy < g.input.h && fy < g.filter.h
    ensures R.Sum(g.filter.w, R.ColumnTerms(R.Wrapping, LayerOf(g), InputOf(g, m), FilterOf(g, m), b, ox, oc, iy, fy)) ==
              RowSum(g, m, b, ox, oc, iy, fy, g.filter.w)
  {
    var f := R.ColumnTerms(R.Wrapping, LayerOf(g), InputOf(g, m), FilterOf(g, m), b, ox, oc, iy, fy);
    forall fx: nat | fx < g.filter.w ensures f(fx) == ColumnAdds(g, m, b, ox, oc, iy, fy, fx) {
      ColumnIs(g, m, b, ox, oc, iy, fy, fx, InCoord(ox, g.strideW, fx, g.padW));
    }
    RowIs(g, m, b, ox, oc, iy, fy, f, g.filter.w);
  }

  lemma PaddingColumns(l: R.Layer, input: seq<Byte>, filter: seq<Byte>, b: nat, ox: nat, oc: nat, y: int, fy: nat)
    requires !(0 <= y < l.h)
    ensures R.Sum(l.fw, R.ColumnTerms(R.Wrapping, l, input, filter, b, ox, oc, y, fy)) == 0
  {
    var f := R.ColumnTerms(R.Wrapping, l, input, filter, b, ox, oc, y, fy);
    forall fx: nat | fx < l.fw ensures f(fx) == 0 {
      PaddingTaps(l, input, filter, b, oc, y, R.Held(R.Wrapping, ox * l.strideW + fx - l.padW), fy, fx, R.TapCount(l));
    }
    R.SumZero(l.fw, f);
  }

  lemma RowAt(g: Conv, m: seq<Byte>, b: nat, ox: nat, oc: nat, iy: int, fy: nat)
    requires Sound(g, |m|) && b < g.output.n && oc < g.output.c && fy < g.filter.h
    ensures R.Sum(g.filter.w, R.ColumnTerms(R.Wrapping, LayerOf(g), InputOf(g, m), FilterOf(g, m), b, ox, oc, iy, fy)) ==
              if 0 <= iy < g.input.h then RowSum(g, m, b, ox, oc, iy, fy, g.filter.w) else 0
  {
    if 0 <= iy < g.input.h {
      ColumnsAre(g, m, b, ox, oc, iy, fy);
    } else {
      PaddingColumns(LayerOf(g), InputOf(g, m), FilterOf(g, m), b, ox, oc, iy, fy);
    }
  }

  lemma RowTermIs(g: Conv, m: seq<Byte>, b: nat, oy: nat, ox: nat, oc: nat, fy: nat)
    requires Sound(g, |m|) && b < g.output.n && oc < g.output.c && fy < g.filter.h
    ensures R.RowTerms(R.Wrapping, LayerOf(g), InputOf(g, m), FilterOf(g, m), b, oy, ox, oc)(fy) == RowAdds(g, m, b, oy, ox, oc, fy)
  {
    CoordIs(oy, g.strideH, fy, g.padH);
    RowTermAt(R.Wrapping, LayerOf(g), InputOf(g, m), FilterOf(g, m), b, oy, ox, oc, InCoord(oy, g.strideH, fy, g.padH), fy);
    RowAt(g, m, b, ox, oc, InCoord(oy, g.strideH, fy, g.padH), fy);
  }

  /** The skipping loops compute the convolution over the zero-padded input, on 32-bit words. */
  lemma WindowIsReference(g: Conv, m: seq<Byte>, b: nat, oy: nat, ox: nat, oc: nat)
    requires Sound(g, |m|) && b < g.output.n && oc < g.output.c
    ensures WindowSum(g, m, b, oy, ox, oc, g.filter.h) == R.Window(R.Wrapping, LayerOf(g), InputOf(g, m), FilterOf(g, m), b, oy, ox, oc)
  {
    var f := R.RowTerms(R.Wrapping, LayerOf(g), InputOf(g, m), FilterOf(g, m), b, oy, ox, oc);
    forall fy: nat | fy < g.filter.h ensures f(fy) == RowAdds(g, m, b, oy, ox, oc, fy) {
      RowTermIs(g, m, b, oy, ox, oc, fy);
    }
    WindowIs(g, m, b, oy, ox, oc, f, g.filter.h);
  }

  // ---------------------------------------------------------------- the reference cell

  /** What the kernel reads, as slices of memory. */
  function OperandsOf(g: Conv, m: seq<Byte>): R.Operands
    requires Sound(g, |m|)
  {
    R.Operands(InputOf(g, m), FilterOf(g, m), m[g.biasAt..g.biasAt + 4 * g.output.c], m[g.multAt..g.multAt + 4 * g.output.c],
               m[g.shiftAt..g.shiftAt + 4 * g.output.c])
  }

  lemma TableIs(m: seq<Byte>, at: nat, channels: nat, c: nat)
    requires c < channels && at + 4 * channels <= |m|
    ensures Int32At(m, at + 4 * c) == R.Int32Of(m[at..at + 4 * channels], 4 * c)
  {
    SliceWord(m, at, 4 * channels, 4 * c);
  }

  lemma BiasIs(g: Conv, m: seq<Byte>, c: nat)
    requires Sound(g, |m|) && c < g.output.c
    ensures Bias(g, m, c) == R.Int32Of(OperandsOf(g, m).bias, 4 * c)
  {
    TableIs(m, g.biasAt, g.output.c, c);
  }

  lemma MultiplierIs(g: Conv, m: seq<Byte>, c: nat)
    requires Sound(g, |m|) && c < g.output.c
    ensures Multiplier(g, m, c) == R.Int32Of(OperandsOf(g, m).multipliers, 4 * c)
  {
    TableIs(m, g.multAt, g.output.c, c);
  }

  lemma ShiftIs(g: Conv, m: seq<Byte>, c: nat)
    requires Sound(g, |m|) && c < g.output.c
    ensures Shift(g, m, c) == R.Int32Of(OperandsOf(g, m).shifts, 4 * c)
  {
    TableIs(m, g.shiftAt, g.output.c, c);
  }

  /** Requantisation, in plain arithmetic. */
  lemma RequantisedIs(accumulator: int, multiplier: Int32, shift: int, zero: int, lo: int, hi: int)
    requires ShiftInRange(shift) && lo <= hi
    ensures Requantised(accumulator, multiplier, shift, zero, lo, hi) ==
              R.Clipped(R.Wrapped(R.Rescaled(accumulator, multiplier, shift) + zero), lo, hi)
  {
    RescaledIs(accumulator, multiplier, shift);
  }

  lemma RescaledIs(accumulator: int, multiplier: Int32, shift: int)
    requires ShiftInRange(shift)
    ensures MultiplyByQuantizedMultiplier(Clamp(accumulator, INT32_MIN, INT32_MAX), multiplier, shift) == R.Rescaled(accumulator, multiplier, shift)
  {
    var value := Clamp(accumulator, INT32_MIN, INT32_MAX);
    var x := Clamp(Shifted(value, shift), INT32_MIN, INT32_MAX);
    HighIs(x, multiplier);
    ShiftedRightIs(SaturatingRoundingDoublingHighMul(x, multiplier), shift);
  }

  lemma HighIs(x: Int32, multiplier: Int32)
    ensures SaturatingRoundingDoublingHighMul(x, multiplier) == R.High(x, multiplier)
  {
    if x != INT32_MIN || multiplier != INT32_MIN { HighMulRounds(x, multiplier); }
  }

  lemma ShiftedRightIs(high: Int32, shift: int)
    requires ShiftInRange(shift)
    ensures RoundingDivideByPowerOfTwo(high, Max(-shift, 0)) == R.ShiftedRight(high, shift)
  {
    if shift < 0 { RoundingShiftFloor(high, -shift); }
  }

  lemma CellFrom(l: R.Layer, o: R.Operands, b: nat, oy: nat, ox: nat, oc: nat, window: int, bias: int, multiplier: Int32, shift: int)
    requires ShiftInRange(shift) && l.lo <= l.hi && window == R.Window(R.Wrapping, l, o.input, o.filter, b, oy, ox, oc)
    requires bias == R.Int32Of(o.bias, 4 * oc) && multiplier == R.Int32Of(o.multipliers, 4 * oc) && shift == R.Int32Of(o.shifts, 4 * oc)
    ensures Requantised(bias + window, multiplier, shift, l.outputZero, l.lo, l.hi) == R.ConvCell(R.Wrapping, l, o, b, oy, ox, oc)
  {
    RequantisedIs(bias + window, multiplier, shift, l.outputZero, l.lo, l.hi);
  }

  /** Every output cell is the reference cell of the bytes of the tensors and tables. */
  lemma CellIsReference(g: Conv, m: seq<Byte>, b: nat, oy: nat, ox: nat, oc: nat)
    requires Sound(g, |m|) && ShiftsInRange(g, m) && b < g.output.n && oc < g.output.c
    ensures Cell(g, m, b, oy, ox, oc) == R.ConvCell(R.Wrapping, LayerOf(g), OperandsOf(g, m), b, oy, ox, oc)
  {
    WindowIsReference(g, m, b, oy, ox, oc);
    BiasIs(g, m, oc);
    MultiplierIs(g, m, oc);
    ShiftIs(g, m, oc);
    assert ShiftInRange(Shift(g, m, oc));
    CellFrom(LayerOf(g), OperandsOf(g, m), b, oy, ox, oc, WindowSum(g, m, b, oy, ox, oc, g.filter.h),
             Bias(g, m, oc), Multiplier(g, m, oc), Shift(g, m, oc));
  }

  // ---------------------------------------------------------------- where nothing wraps

  /** The last window of an output of `outH` by `outW` stays within an `int32_t`. */
  predicate CoordinatesFit(l: R.Layer, outH: nat, outW: nat) {
    && outH * l.strideH + l.fh < TWO31 && outW * l.strideW + l.fw < TWO31
    && l.padH <= TWO31 && l.padW <= TWO31
  }

  lemma CoordinateExact(o: nat, outs: nat, stride: nat, f: nat, filter: nat, pad: nat)
    requires o < outs && f < filter && outs * stride + filter < TWO31 && pad <= TWO31
    ensures R.Held(R.Wrapping, o * stride + f - pad) == o * stride + f - pad
  {
    assert 0 <= o * stride <= outs * stride by { Scales(o, outs, stride); }
  }

  lemma TapExact(l: R.Layer, input: seq<Byte>, filter: seq<Byte>, b: nat, oc: nat, y: int, x: int, fy: nat, fx: nat, k: nat)
    requires ZeroPointsFit(l.inputZero, l.filterZero)
    ensures R.TapTerms(R.Wrapping, l, input, filter, b, oc, y, x, fy, fx)(k) == R.TapTerms(R.Exact, l, input, filter, b, oc, y, x, fy, fx)(k)
  {
    var p, w := R.Pixel(l, input, b, y, x, R.ChannelOf(l, oc, k)), R.Weight(l, filter, oc, fy, fx, k);
    ProductIs(p, w);
    if 0 <= y < l.h && 0 <= x < l.w {
      ProductExact(p + l.inputZero, w + l.filterZero, l.inputZero, l.filterZero);
    }
  }

  lemma TapsExact(l: R.Layer, input: seq<Byte>, filter: seq<Byte>, b: nat, oc: nat, y: int, x: int, fy: nat, fx: nat)
    requires ZeroPointsFit(l.inputZero, l.filterZero)
    ensures R.Sum(R.TapCount(l), R.TapTerms(R.Wrapping, l, input, filter, b, oc, y, x, fy, fx)) ==
              R.Sum(R.TapCount(l), R.TapTerms(R.Exact, l, input, filter, b, oc, y, x, fy, fx))
  {
    var f, h := R.TapTerms(R.Wrapping, l, input, filter, b, oc, y, x, fy, fx), R.TapTerms(R.Exact, l, input, filter, b, oc, y, x, fy, fx);
    forall k: nat | k < R.TapCount(l) ensures f(k) == h(k) { TapExact(l, input, filter, b, oc, y, x, fy, fx, k); }
    R.SumSame(R.TapCount(l), f, h);
  }

  lemma RowExact(l: R.Layer, input: seq<Byte>, filter: seq<Byte>, b: nat, ox: nat, oc: nat, y: int, fy: nat, outW: nat)
    requires ZeroPointsFit(l.inputZero, l.filterZero) && ox < outW && outW * l.strideW + l.fw < TWO31 && l.padW <= TWO31
    ensures R.Sum(l.fw, R.ColumnTerms(R.Wrapping, l, input, filter, b, ox, oc, y, fy)) ==
              R.Sum(l.fw, R.ColumnTerms(R.Exact, l, input, filter, b, ox, oc, y, fy))
  {
    var f, h := R.ColumnTerms(R.Wrapping, l, input, filter, b, ox, oc, y, fy), R.ColumnTerms(R.Exact, l, input, filter, b, ox, oc, y, fy);
    forall fx: nat | fx < l.fw ensures f(fx) == h(fx) {
      CoordinateExact(ox, outW, l.strideW, fx, l.fw, l.padW);
      var x := ox * l.strideW + fx - l.padW;
      ColumnTermIs(R.Wrapping, l, input, filter, b, ox, oc, y, x, fy, fx);
      ColumnTermIs(R.Exact, l, input, filter, b, ox, oc, y, x, fy, fx);
      TapsExact(l, input, filter, b, oc, y, x, fy, fx);
    }
    R.SumSame(l.fw, f, h);
  }

  lemma WindowExact(l: R.Layer, input: seq<Byte>, filter: seq<Byte>, b: nat, oy: nat, ox: nat, oc: nat, outH: nat, outW: nat)
    requires ZeroPointsFit(l.inputZero, l.filterZero) && CoordinatesFit(l, outH, outW) && oy < outH && ox < outW
    ensures R.Window(R.Wrapping, l, input, filter, b, oy, ox, oc) == R.Window(R.Exact, l, input, filter, b, oy, ox, oc)
  {
    var f, h := R.RowTerms(R.Wrapping, l, input, filter, b, oy, ox, oc), R.RowTerms(R.Exact, l, input, filter, b, oy, ox, oc);
    forall fy: nat | fy < l.fh ensures f(fy) == h(fy) {
      CoordinateExact(oy, outH, l.strideH, fy, l.fh, l.padH);
      var y := oy * l.strideH + fy - l.padH;
      RowTermAt(R.Wrapping, l, input, filter, b, oy, ox, oc, y, fy);
      RowTermAt(R.Exact, l, input, filter, b, oy, ox, oc, y, fy);
      RowExact(l, input, filter, b, ox, oc, y, fy, outW);
    }
    R.SumSame(l.fh, f, h);
  }

  /** With coordinates and zero points that fit, the cell is that of the exact convolution. */
  lemma ConvCellExact(l: R.Layer, o: R.Operands, b: nat, oy: nat, ox: nat, oc: nat, outH: nat, outW: nat)
    requires ZeroPointsFit(l.inputZero, l.filterZero) && CoordinatesFit(l, outH, outW) && oy < outH && ox < outW
    ensures R.ConvCell(R.Wrapping, l, o, b, oy, ox, oc) == R.ConvCell(R.Exact, l, o, b, oy, ox, oc)
  {
    WindowExact(l, o.input, o.filter, b, oy, ox, oc, outH, outW);
  }
}
