/**
 The int8 convolution kernels on external memory: the accumulation loops, requantisation and
 the output writes, for ordinary and for depthwise convolution.
 */
module HybridConv {
  import opened Arith
  import opened Bits
  import opened FixedPoint
  import opened Int8
  import opened Tensors

  /** A convolution with its tensors as shapes and offsets into memory. */
  datatype Conv = Conv(depthwise: bool, input: Shape, filter: Shape, output: Shape,
                       inputAt: nat, filterAt: nat, biasAt: nat, outputAt: nat, multAt: nat, shiftAt: nat,
                       strideH: nat, strideW: nat, padH: nat, padW: nat,
                       inputZero: int, filterZero: int, outputZero: int, actMin: int, actMax: int)

  predicate Positive(s: Shape) { s.n > 0 && s.h > 0 && s.w > 0 && s.c > 0 }

  /** Every tensor and table lies in a memory of `size` bytes and the shapes agree. */
  predicate Sound(g: Conv, size: nat) {
    && Positive(g.input) && Positive(g.filter) && Positive(g.output) && size < TWO31
    && g.inputAt + Volume(g.input) <= size && g.filterAt + Volume(g.filter) <= size && g.outputAt + Volume(g.output) <= size
    && g.biasAt + 4 * g.output.c <= size && g.multAt + 4 * g.output.c <= size && g.shiftAt + 4 * g.output.c <= size
    && g.output.n == g.input.n && -128 <= g.actMin <= g.actMax <= 127
    && (if g.depthwise then g.filter.n == 1 && g.filter.c == g.output.c && g.output.c % g.input.c == 0
        else g.filter.n == g.output.c && g.filter.c == g.input.c)
  }

  /** The output overlaps nothing the kernel reads. */
  predicate OutputApart(g: Conv) {
    var n := Volume(g.output);
    && Apart(g.outputAt, n, g.inputAt, Volume(g.input)) && Apart(g.outputAt, n, g.filterAt, Volume(g.filter))
    && Apart(g.outputAt, n, g.biasAt, 4 * g.output.c)
    && Apart(g.outputAt, n, g.multAt, 4 * g.output.c) && Apart(g.outputAt, n, g.shiftAt, 4 * g.output.c)
  }

  // ---------------------------------------------------------------- which cells a tap reads

  /** Taps per filter position: every input channel, or one when depthwise. */
  function Taps(g: Conv): nat { if g.depthwise then 1 else g.input.c }

  function InputChannel(g: Conv, oc: nat, k: nat): (c: nat)
    requires Positive(g.input) && (g.depthwise ==> g.output.c >= g.input.c)
  {
    if g.depthwise then
      var depthMultiplier := g.output.c / g.input.c;
      MultiplierPositive(g.output.c, g.input.c);
      oc / depthMultiplier
    else k
  }

  lemma MultiplierPositive(oc: nat, ic: nat)
    requires oc >= ic > 0
    ensures oc / ic > 0
  {}

  lemma MultipleAtLeast(oc: nat, ic: nat)
    requires ic > 0 && oc > 0 && oc % ic == 0
    ensures oc >= ic
  {}

  lemma DepthwiseChannel(oc: nat, outC: nat, inC: nat)
    requires inC > 0 && outC > oc && outC % inC == 0
    ensures outC >= inC && outC / inC > 0 && oc / (outC / inC) < inC
  {
    MultipleAtLeast(outC, inC);
    var q := outC / inC;
    assert outC == q * inC;
    MultiplierPositive(outC, inC);
    var c := oc / q;
    assert oc == c * q + oc % q;
    if c >= inC { Grows(c, inC, q); }
  }

  lemma Grows(c: nat, d: nat, q: nat)
    requires c >= d
    ensures c * q >= d * q == q * d
  {}

  predicate InWindow(g: Conv, b: nat, oc: nat, iy: int, ix: int, fy: nat, fx: nat) {
    b < g.output.n && oc < g.output.c && 0 <= iy < g.input.h && 0 <= ix < g.input.w && fy < g.filter.h && fx < g.filter.w
  }

  function InputCell(g: Conv, b: nat, iy: nat, ix: nat, oc: nat, k: nat): nat
    requires Positive(g.input) && (g.depthwise ==> g.output.c >= g.input.c)
  {
    g.inputAt + Index(g.input, b, iy, ix, InputChannel(g, oc, k))
  }

  function FilterCell(g: Conv, oc: nat, fy: nat, fx: nat, k: nat): nat {
    g.filterAt + if g.depthwise then Index(g.filter, 0, fy, fx, oc) else Index(g.filter, oc, fy, fx, k)
  }

  lemma CellsInside(g: Conv, size: nat, b: nat, oc: nat, iy: nat, ix: nat, fy: nat, fx: nat, k: nat)
    requires Sound(g, size) && InWindow(g, b, oc, iy, ix, fy, fx) && k < Taps(g)
    ensures g.depthwise ==> g.output.c >= g.input.c
    ensures g.inputAt <= InputCell(g, b, iy, ix, oc, k) < g.inputAt + Volume(g.input)
    ensures g.filterAt <= FilterCell(g, oc, fy, fx, k) < g.filterAt + Volume(g.filter)
  {
    if g.depthwise {
      DepthwiseChannel(oc, g.output.c, g.input.c);
      IndexInVolume(g.filter, 0, fy, fx, oc);
    } else {
      IndexInVolume(g.filter, oc, fy, fx, k);
    }
    IndexInVolume(g.input, b, iy, ix, InputChannel(g, oc, k));
  }

  // ---------------------------------------------------------------- what the loops compute

  function Tap(g: Conv, m: seq<Byte>, b: nat, oc: nat, iy: nat, ix: nat, fy: nat, fx: nat, k: nat): int
    requires Sound(g, |m|) && InWindow(g, b, oc, iy, ix, fy, fx) && k < Taps(g)
  {
    CellsInside(g, |m|, b, oc, iy, ix, fy, fx, k);
    Product8(Signed8(m[InputCell(g, b, iy, ix, oc, k)]), Signed8(m[FilterCell(g, oc, fy, fx, k)]), g.inputZero, g.filterZero)
  }

  function ChannelSum(g: Conv, m: seq<Byte>, b: nat, oc: nat, iy: nat, ix: nat, fy: nat, fx: nat, k: nat): int
    requires Sound(g, |m|) && InWindow(g, b, oc, iy, ix, fy, fx) && k <= Taps(g)
    decreases k
  {
    if k == 0 then 0 else ChannelSum(g, m, b, oc, iy, ix, fy, fx, k - 1) + Tap(g, m, b, oc, iy, ix, fy, fx, k - 1)
  }

  /** An input coordinate as the kernels hold it: computed on 32-bit words, kept in an `int32_t`. */
  function InCoord(o: nat, stride: nat, f: nat, pad: nat): Int32 { Wrap32(o * stride + f - pad) }

  function RowSum(g: Conv, m: seq<Byte>, b: nat, ox: nat, oc: nat, iy: nat, fy: nat, n: nat): int
    requires Sound(g, |m|) && b < g.output.n && oc < g.output.c && iy < g.input.h && fy < g.filter.h && n <= g.filter.w
    decreases n
  {
    if n == 0 then 0
    else
      var ix := InCoord(ox, g.strideW, n - 1, g.padW);
      RowSum(g, m, b, ox, oc, iy, fy, n - 1)
      + if 0 <= ix < g.input.w then ChannelSum(g, m, b, oc, iy, ix, fy, n - 1, Taps(g)) else 0
  }

  function WindowSum(g: Conv, m: seq<Byte>, b: nat, oy: nat, ox: nat, oc: nat, n: nat): int
    requires Sound(g, |m|) && b < g.output.n && oc < g.output.c && n <= g.filter.h
    decreases n
  {
    if n == 0 then 0
    else
      var iy := InCoord(oy, g.strideH, n - 1, g.padH);
      WindowSum(g, m, b, oy, ox, oc, n - 1)
      + if 0 <= iy < g.input.h then RowSum(g, m, b, ox, oc, iy, n - 1, g.filter.w) else 0
  }

  predicate ShiftsInRange(g: Conv, m: seq<Byte>)
    requires Sound(g, |m|)
  {
    forall c :: 0 <= c < g.output.c ==> ShiftInRange(Shift(g, m, c))
  }

  function Shift(g: Conv, m: seq<Byte>, c: nat): Int32
    requires Sound(g, |m|) && c < g.output.c
  {
    Int32At(m, g.shiftAt + 4 * c)
  }

  function Multiplier(g: Conv, m: seq<Byte>, c: nat): Int32
    requires Sound(g, |m|) && c < g.output.c
  {
    Int32At(m, g.multAt + 4 * c)
  }

  function Bias(g: Conv, m: seq<Byte>, c: nat): Int32
    requires Sound(g, |m|) && c < g.output.c
  {
    Int32At(m, g.biasAt + 4 * c)
  }

  /** From the accumulator to the output value. */
  function Requantised(accumulator: int, multiplier: Int32, shift: int, zero: int, lo: int, hi: int): (r: int)
    requires ShiftInRange(shift) && lo <= hi
    ensures lo <= r <= hi
  {
    var bounded := Clamp(accumulator, INT32_MIN, INT32_MAX);
    Clamp(Wrap32(MultiplyByQuantizedMultiplier(bounded, multiplier, shift) + zero), lo, hi)
  }

  /** The value of one output cell. */
  function Cell(g: Conv, m: seq<Byte>, b: nat, oy: nat, ox: nat, oc: nat): (r: int)
    requires Sound(g, |m|) && ShiftsInRange(g, m) && b < g.output.n && oc < g.output.c
    ensures -128 <= r <= 127
  {
    Requantised(Bias(g, m, oc) + WindowSum(g, m, b, oy, ox, oc, g.filter.h), Multiplier(g, m, oc), Shift(g, m, oc),
                g.outputZero, g.actMin, g.actMax)
  }

  // ---------------------------------------------------------------- the accumulation loops

  method AccumulateChannels(g: Conv, mem: array<Byte>, b: nat, oc: nat, iy: nat, ix: nat, fy: nat, fx: nat, accumulator: int)
    returns (sum: int)
    requires Sound(g, mem.Length) && InWindow(g, b, oc, iy, ix, fy, fx)
    ensures sum == accumulator + ChannelSum(g, mem[..], b, oc, iy, ix, fy, fx, Taps(g))
  {
    sum := accumulator;
    for k := 0 to Taps(g)
      invariant sum == accumulator + ChannelSum(g, mem[..], b, oc, iy, ix, fy, fx, k)
    {
      CellsInside(g, mem.Length, b, oc, iy, ix, fy, fx, k);
      var inputCell, filterCell := InputCell(g, b, iy, ix, oc, k), FilterCell(g, oc, fy, fx, k);
      sum := sum + Product8(Signed8(mem[inputCell]), Signed8(mem[filterCell]), g.inputZero, g.filterZero);
    }
  }

  method AccumulateRow(g: Conv, mem: array<Byte>, b: nat, ox: nat, oc: nat, iy: nat, fy: nat, accumulator: int) returns (sum: int)
    requires Sound(g, mem.Length) && b < g.output.n && oc < g.output.c && iy < g.input.h && fy < g.filter.h
    ensures sum == accumulator + RowSum(g, mem[..], b, ox, oc, iy, fy, g.filter.w)
  {
    sum := accumulator;
    for fx := 0 to g.filter.w
      invariant sum == accumulator + RowSum(g, mem[..], b, ox, oc, iy, fy, fx)
    {
      var ix := InCoord(ox, g.strideW, fx, g.padW);
      if ix < 0 || ix >= g.input.w { continue; }
      sum := AccumulateChannels(g, mem, b, oc, iy, ix, fy, fx, sum);
    }
  }

  method AccumulateWindow(g: Conv, mem: array<Byte>, b: nat, oy: nat, ox: nat, oc: nat, accumulator: int) returns (sum: int)
    requires Sound(g, mem.Length) && b < g.output.n && oc < g.output.c
    ensures sum == accumulator + WindowSum(g, mem[..], b, oy, ox, oc, g.filter.h)
  {
    sum := accumulator;
    for fy := 0 to g.filter.h
      invariant sum == accumulator + WindowSum(g, mem[..], b, oy, ox, oc, fy)
    {
      var iy := InCoord(oy, g.strideH, fy, g.padH);
      if iy < 0 || iy >= g.input.h { continue; }
      sum := AccumulateRow(g, mem, b, ox, oc, iy, fy, sum);
    }
  }

  // ---------------------------------------------------------------- the output loops

  /** An entry of the bias, multiplier or shift table. */
  method ReadTable(mem: array<Byte>, at: nat, c: nat) returns (v: Int32)
    requires at + 4 * c + 4 <= mem.Length
    ensures v == Int32At(mem[..], at + 4 * c)
  {
    var i := at + 4 * c;
    v := Int32At([mem[i], mem[i + 1], mem[i + 2], mem[i + 3]], 0);
  }

  method ComputeCell(g: Conv, mem: array<Byte>, b: nat, y: nat, x: nat, c: nat) returns (value: int)
    requires Sound(g, mem.Length) && ShiftsInRange(g, mem[..]) && Within(g.output, b, y, x, c)
    ensures value == Cell(g, mem[..], b, y, x, c)
  {
    var bias := ReadTable(mem, g.biasAt, c);
    var multiplier := ReadTable(mem, g.multAt, c);
    var shift := ReadTable(mem, g.shiftAt, c);
    var accumulator := AccumulateWindow(g, mem, b, y, x, c, bias);
    assert ShiftInRange(Shift(g, mem[..], c));
    value := Requantised(accumulator, multiplier, shift, g.outputZero, g.actMin, g.actMax);
  }

  /** Memory with one cell written, from what memory holds. */
  function ConvStored(g: Conv, m: seq<Byte>, b: nat, y: nat, x: nat, c: nat): (r: seq<Byte>)
    requires Sound(g, |m|) && Within(g.output, b, y, x, c)
    ensures |r| == |m|
  {
    if ShiftsInRange(g, m) then
      IndexInVolume(g.output, b, y, x, c);
      m[g.outputAt + Index(g.output, b, y, x, c) := Byte8(Cell(g, m, b, y, x, c))]
    else m
  }

  /** A place the loops come by. */
  predicate Reached(s: Shape, b: nat, y: nat, x: nat, c: nat) {
    && b <= s.n && y <= s.h && x <= s.w && c <= s.c
    && (c > 0 ==> b < s.n && y < s.h && x < s.w) && (x > 0 ==> b < s.n && y < s.h) && (y > 0 ==> b < s.n)
  }

  /** Memory when the loops reach cell `(b, y, x, c)`: each cell is computed from the memory its predecessors left. */
  function ConvRun(g: Conv, m: seq<Byte>, b: nat, y: nat, x: nat, c: nat): (r: seq<Byte>)
    requires Sound(g, |m|) && Reached(g.output, b, y, x, c)
    ensures |r| == |m|
    decreases b, y, x, c
  {
    if c > 0 then ConvStored(g, ConvRun(g, m, b, y, x, c - 1), b, y, x, c - 1)
    else if x > 0 then ConvRun(g, m, b, y, x - 1, g.output.c)
    else if y > 0 then ConvRun(g, m, b, y - 1, g.output.w, 0)
    else if b > 0 then ConvRun(g, m, b - 1, g.output.h, 0, 0)
    else m
  }

  /** The output does not overlap the shifts, which are tested before the loops. */
  predicate ShiftsApart(g: Conv) { Apart(g.outputAt, Volume(g.output), g.shiftAt, 4 * g.output.c) }

  /** Memory as it was, outside the output. */
  predicate Untouched(g: Conv, m: seq<Byte>, m0: seq<Byte>) { SameOutside(m, m0, g.outputAt, Volume(g.output)) }

  lemma ShiftsUntouched(g: Conv, m: seq<Byte>, m0: seq<Byte>)
    requires Sound(g, |m0|) && ShiftsApart(g) && Untouched(g, m, m0)
    ensures ShiftsInRange(g, m) <==> ShiftsInRange(g, m0)
  {
    forall c: nat | c < g.output.c ensures Shift(g, m, c) == Shift(g, m0, c) {
      var i := g.shiftAt + 4 * c;
      assert m[i] == m0[i] && m[i + 1] == m0[i + 1] && m[i + 2] == m0[i + 2] && m[i + 3] == m0[i + 3];
    }
  }

  /** Wherever the tensors lie, only the output changes. */
  lemma {:induction false} ConvRunFrame(g: Conv, m: seq<Byte>, b: nat, y: nat, x: nat, c: nat)
    requires Sound(g, |m|) && Reached(g.output, b, y, x, c)
    ensures Untouched(g, ConvRun(g, m, b, y, x, c), m)
    decreases b, y, x, c
  {
    if c > 0 {
      ConvRunFrame(g, m, b, y, x, c - 1);
      StoredFrame(g, ConvRun(g, m, b, y, x, c - 1), m, b, y, x, c - 1);
    } else if x > 0 {
      ConvRunFrame(g, m, b, y, x - 1, g.output.c);
    } else if y > 0 {
      ConvRunFrame(g, m, b, y - 1, g.output.w, 0);
    } else if b > 0 {
      ConvRunFrame(g, m, b - 1, g.output.h, 0, 0);
    }
  }

  lemma StoredFrame(g: Conv, m: seq<Byte>, m0: seq<Byte>, b: nat, y: nat, x: nat, c: nat)
    requires Sound(g, |m0|) && Untouched(g, m, m0) && Within(g.output, b, y, x, c)
    ensures Untouched(g, ConvStored(g, m, b, y, x, c), m0)
  {
    IndexInVolume(g.output, b, y, x, c);
  }

  lemma RunShifts(g: Conv, m: seq<Byte>, b: nat, y: nat, x: nat, c: nat)
    requires Sound(g, |m|) && Reached(g.output, b, y, x, c) && ShiftsApart(g) && ShiftsInRange(g, m)
    ensures ShiftsInRange(g, ConvRun(g, m, b, y, x, c))
  {
    ConvRunFrame(g, m, b, y, x, c);
    ShiftsUntouched(g, ConvRun(g, m, b, y, x, c), m);
  }

  method WriteCell(g: Conv, mem: array<Byte>, b: nat, y: nat, x: nat, c: nat)
    requires Sound(g, mem.Length) && ShiftsInRange(g, mem[..]) && Within(g.output, b, y, x, c)
    modifies mem
    ensures mem[..] == ConvStored(g, old(mem[..]), b, y, x, c)
  {
    var value := ComputeCell(g, mem, b, y, x, c);
    IndexInVolume(g.output, b, y, x, c);
    mem[g.outputAt + Index(g.output, b, y, x, c)] := Byte8(value);
  }

  method WritePixel(g: Conv, mem: array<Byte>, b: nat, y: nat, x: nat, ghost m0: seq<Byte>)
    requires Sound(g, mem.Length) && ShiftsApart(g) && |m0| == mem.Length && ShiftsInRange(g, m0)
    requires b < g.output.n && y < g.output.h && x < g.output.w && mem[..] == ConvRun(g, m0, b, y, x, 0)
    modifies mem
    ensures mem[..] == ConvRun(g, m0, b, y, x + 1, 0)
  {
    for c := 0 to g.output.c
      invariant mem[..] == ConvRun(g, m0, b, y, x, c)
    {
      RunShifts(g, m0, b, y, x, c);
      WriteCell(g, mem, b, y, x, c);
    }
  }

  method WriteRow(g: Conv, mem: array<Byte>, b: nat, y: nat, ghost m0: seq<Byte>)
    requires Sound(g, mem.Length) && ShiftsApart(g) && |m0| == mem.Length && ShiftsInRange(g, m0)
    requires b < g.output.n && y < g.output.h && mem[..] == ConvRun(g, m0, b, y, 0, 0)
    modifies mem
    ensures mem[..] == ConvRun(g, m0, b, y + 1, 0, 0)
  {
    for x := 0 to g.output.w
      invariant mem[..] == ConvRun(g, m0, b, y, x, 0)
    {
      WritePixel(g, mem, b, y, x, m0);
    }
  }

  method WriteImage(g: Conv, mem: array<Byte>, b: nat, ghost m0: seq<Byte>)
    requires Sound(g, mem.Length) && ShiftsApart(g) && |m0| == mem.Length && ShiftsInRange(g, m0)
    requires b < g.output.n && mem[..] == ConvRun(g, m0, b, 0, 0, 0)
    modifies mem
    ensures mem[..] == ConvRun(g, m0, b + 1, 0, 0, 0)
  {
    for y := 0 to g.output.h
      invariant mem[..] == ConvRun(g, m0, b, y, 0, 0)
    {
      WriteRow(g, mem, b, y, m0);
    }
  }

  method CheckShifts(g: Conv, mem: array<Byte>) returns (ok: bool)
    requires Sound(g, mem.Length)
    ensures ok <==> ShiftsInRange(g, mem[..])
  {
    for i := 0 to g.output.c
      invariant forall c :: 0 <= c < i ==> ShiftInRange(Shift(g, mem[..], c))
    {
      var shift := ReadTable(mem, g.shiftAt, i);
      if shift < -31 || shift > 30 {
        assert !ShiftInRange(Shift(g, mem[..], i));
        return false;
      }
    }
    ok := true;
  }

  /** The kernel, wherever the tensors lie: false, with nothing written, when a shift is out of range. */
  method Convolve(g: Conv, mem: array<Byte>) returns (ok: bool)
    requires Sound(g, mem.Length) && ShiftsApart(g)
    modifies mem
    ensures ok <==> ShiftsInRange(g, old(mem[..]))
    ensures mem[..] == if ok then ConvRun(g, old(mem[..]), g.output.n, 0, 0, 0) else old(mem[..])
  {
    ghost var m0 := mem[..];
    ok := CheckShifts(g, mem);
    if !ok { return; }
    for b := 0 to g.output.n
      invariant mem[..] == ConvRun(g, m0, b, 0, 0, 0)
    {
      WriteImage(g, mem, b, m0);
    }
  }

  // ---------------------------------------------------------------- the accumulator's width

  /** A tap is an `int32_t`. */
  const TAP_BOUND: nat := TWO31

  lemma {:induction false} ChannelSumFits(g: Conv, m: seq<Byte>, b: nat, oc: nat, iy: nat, ix: nat, fy: nat, fx: nat, k: nat)
    requires Sound(g, |m|) && InWindow(g, b, oc, iy, ix, fy, fx) && k <= Taps(g)
    ensures Abs(ChannelSum(g, m, b, oc, iy, ix, fy, fx, k)) <= Times(k, TAP_BOUND)
    decreases k
  {
    if k > 0 {
      ChannelSumFits(g, m, b, oc, iy, ix, fy, fx, k - 1);
    }
  }

  lemma {:induction false} RowSumFits(g: Conv, m: seq<Byte>, b: nat, ox: nat, oc: nat, iy: nat, fy: nat, n: nat)
    requires Sound(g, |m|)
    requires b < g.output.n && oc < g.output.c && iy < g.input.h && fy < g.filter.h && n <= g.filter.w
    ensures Abs(RowSum(g, m, b, ox, oc, iy, fy, n)) <= Times(n, Times(Taps(g), TAP_BOUND))
    decreases n
  {
    if n > 0 {
      RowSumFits(g, m, b, ox, oc, iy, fy, n - 1);
      var ix := InCoord(ox, g.strideW, n - 1, g.padW);
      if 0 <= ix < g.input.w { ChannelSumFits(g, m, b, oc, iy, ix, fy, n - 1, Taps(g)); }
    }
  }

  lemma {:induction false} WindowSumFits(g: Conv, m: seq<Byte>, b: nat, oy: nat, ox: nat, oc: nat, n: nat)
    requires Sound(g, |m|) && b < g.output.n && oc < g.output.c && n <= g.filter.h
    ensures Abs(WindowSum(g, m, b, oy, ox, oc, n)) <= Times(n, Times(g.filter.w, Times(Taps(g), TAP_BOUND)))
    decreases n
  {
    if n > 0 {
      WindowSumFits(g, m, b, oy, ox, oc, n - 1);
      var iy := InCoord(oy, g.strideH, n - 1, g.padH);
      if 0 <= iy < g.input.h { RowSumFits(g, m, b, ox, oc, iy, n - 1, g.filter.w); }
    }
  }

  lemma Reassociated(h: nat, w: nat, t: nat, e: nat)
    ensures h * (w * (t * e)) == (h * w) * t * e
  {
    assert w * (t * e) == (w * t) * e;
    assert h * ((w * t) * e) == (h * (w * t)) * e;
    assert h * (w * t) == (h * w) * t;
  }

  lemma FewerTaps(n: nat, hw: nat, c: nat, t: nat)
    requires n >= 1 && t <= c
    ensures hw * t <= n * hw * c
  {
    MulMonotone(t, c, hw);
    MulNonNegative(hw, c);
    MulMonotone(1, n, hw * c);
    assert n * (hw * c) == n * hw * c;
  }

  lemma WindowVolume(s: Shape, t: nat)
    requires s.n >= 1 && t <= s.c
    ensures Times(s.h, Times(s.w, Times(t, TAP_BOUND))) <= Volume(s) * TAP_BOUND
  {
    TimesIsProduct(t, TAP_BOUND);
    TimesIsProduct(s.w, Times(t, TAP_BOUND));
    TimesIsProduct(s.h, Times(s.w, Times(t, TAP_BOUND)));
    Reassociated(s.h, s.w, t, TAP_BOUND);
    VolumeIs(s);
    FewerTaps(s.n, s.h * s.w, s.c, t);
  }

  lemma VolumeIs(s: Shape)
    ensures Volume(s) == s.n * (s.h * s.w) * s.c
  {
    IndexIsProduct(s, 0, 0, 0, 0);
    assert s.n * s.h * s.w == s.n * (s.h * s.w);
  }

  /** The 64-bit accumulator never overflows, whatever the zero points. */
  lemma AccumulatorFits(g: Conv, m: seq<Byte>, b: nat, oy: nat, ox: nat, oc: nat, n: nat)
    requires Sound(g, |m|) && b < g.output.n && oc < g.output.c && n <= g.filter.h
    ensures Abs(Bias(g, m, oc) + WindowSum(g, m, b, oy, ox, oc, n)) < TWO32 * TWO31
  {
    var w := WindowSum(g, m, b, oy, ox, oc, n);
    assert Abs(w) <= Volume(g.filter) * TAP_BOUND by {
      WindowSumFits(g, m, b, oy, ox, oc, n);
      TimesMonotone(n, g.filter.h, Times(g.filter.w, Times(Taps(g), TAP_BOUND)));
      WindowVolume(g.filter, Taps(g));
    }
    assert Volume(g.filter) < TWO31;
  }
}
