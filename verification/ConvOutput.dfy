/**
 The output of a convolution: when it overlaps nothing the kernel reads, every cell holds the
 reference convolution of the memory before.
 */
module ConvOutput {
  import opened Bits
  import opened Int8
  import opened Tensors
  import opened HybridConv
  import opened ConvMath

  ghost predicate Written(g: Conv, m: seq<Byte>, m0: seq<Byte>, b: nat, y: nat, x: nat, c: nat)
    requires Sound(g, |m0|) && ShiftsInRange(g, m0) && Within(g.output, b, y, x, c)
  {
    var i := g.outputAt + Index(g.output, b, y, x, c);
    i < |m| && m[i] == Byte8(Cell(g, m0, b, y, x, c))
  }

  /** The cells below index `end` hold their values. */
  ghost predicate Progress(g: Conv, m: seq<Byte>, m0: seq<Byte>, end: nat)
    requires Sound(g, |m0|) && ShiftsInRange(g, m0)
  {
    forall b: nat, y: nat, x: nat, c: nat :: Within(g.output, b, y, x, c) && Index(g.output, b, y, x, c) < end ==>
      Written(g, m, m0, b, y, x, c)
  }

  lemma CellWritten(g: Conv, m: seq<Byte>, m': seq<Byte>, m0: seq<Byte>, b: nat, y: nat, x: nat, c: nat)
    requires Sound(g, |m0|) && ShiftsInRange(g, m0) && Within(g.output, b, y, x, c) && |m| == |m0|
    requires Index(g.output, b, y, x, c) < Volume(g.output)
    requires Progress(g, m, m0, Index(g.output, b, y, x, c))
    requires m' == m[g.outputAt + Index(g.output, b, y, x, c) := Byte8(Cell(g, m0, b, y, x, c))]
    ensures Progress(g, m', m0, Index(g.output, b, y, x, c + 1))
  {
    var i := Index(g.output, b, y, x, c);
    forall b': nat, y': nat, x': nat, c': nat | Within(g.output, b', y', x', c') && Index(g.output, b', y', x', c') < i + 1
      ensures Written(g, m', m0, b', y', x', c')
    {
      if Index(g.output, b', y', x', c') == i {
        IndexInjective(g.output, b, y, x, c, b', y', x', c');
      } else {
        assert Written(g, m, m0, b', y', x', c');
      }
    }
  }

  /** A memory that differs in an output apart from the operands has the same operands. */
  lemma UntouchedOperands(g: Conv, m: seq<Byte>, m0: seq<Byte>)
    requires Sound(g, |m0|) && OutputApart(g) && Untouched(g, m, m0)
    ensures OperandsOf(g, m) == OperandsOf(g, m0)
  {
    assert InputOf(g, m) == InputOf(g, m0) && FilterOf(g, m) == FilterOf(g, m0);
    assert OperandsOf(g, m).bias == OperandsOf(g, m0).bias;
    assert OperandsOf(g, m).multipliers == OperandsOf(g, m0).multipliers;
    assert OperandsOf(g, m).shifts == OperandsOf(g, m0).shifts;
  }

  lemma UntouchedCell(g: Conv, m: seq<Byte>, m0: seq<Byte>, b: nat, y: nat, x: nat, c: nat)
    requires Sound(g, |m0|) && OutputApart(g) && Untouched(g, m, m0) && b < g.output.n && c < g.output.c
    requires ShiftsInRange(g, m) && ShiftsInRange(g, m0)
    ensures Cell(g, m, b, y, x, c) == Cell(g, m0, b, y, x, c)
  {
    UntouchedOperands(g, m, m0);
    CellIsReference(g, m, b, y, x, c);
    CellIsReference(g, m0, b, y, x, c);
  }

  lemma StoredProgress(g: Conv, m: seq<Byte>, m0: seq<Byte>, b: nat, y: nat, x: nat, c: nat)
    requires Sound(g, |m0|) && OutputApart(g) && ShiftsInRange(g, m0) && Untouched(g, m, m0) && Within(g.output, b, y, x, c)
    requires Progress(g, m, m0, Index(g.output, b, y, x, c))
    ensures Progress(g, ConvStored(g, m, b, y, x, c), m0, Index(g.output, b, y, x, c + 1))
  {
    ShiftsUntouched(g, m, m0);
    UntouchedCell(g, m, m0, b, y, x, c);
    IndexInVolume(g.output, b, y, x, c);
    CellWritten(g, m, ConvStored(g, m, b, y, x, c), m0, b, y, x, c);
  }

  lemma RunNext(g: Conv, m: seq<Byte>, b: nat, y: nat, x: nat, c: nat, end: nat)
    requires Sound(g, |m|) && OutputApart(g) && ShiftsInRange(g, m) && Within(g.output, b, y, x, c) && end == Index(g.output, b, y, x, c)
    requires Progress(g, ConvRun(g, m, b, y, x, c), m, end)
    ensures Progress(g, ConvStored(g, ConvRun(g, m, b, y, x, c), b, y, x, c), m, end + 1)
  {
    ConvRunFrame(g, m, b, y, x, c);
    StoredProgress(g, ConvRun(g, m, b, y, x, c), m, b, y, x, c);
  }

  /** The place before the first cell of a pixel, a row or an image is the last one of the pixel, row or image before. */
  lemma RunCarries(g: Conv, m: seq<Byte>, b: nat, y: nat, x: nat, end: nat)
    requires Sound(g, |m|) && ShiftsInRange(g, m) && Reached(g.output, b, y, x, 0)
    ensures x > 0 && Progress(g, ConvRun(g, m, b, y, x - 1, g.output.c), m, end) ==> Progress(g, ConvRun(g, m, b, y, x, 0), m, end)
    ensures x == 0 < y && Progress(g, ConvRun(g, m, b, y - 1, g.output.w, 0), m, end) ==> Progress(g, ConvRun(g, m, b, y, x, 0), m, end)
    ensures x == y == 0 < b && Progress(g, ConvRun(g, m, b - 1, g.output.h, 0, 0), m, end) ==> Progress(g, ConvRun(g, m, b, y, x, 0), m, end)
  {}

  lemma {:induction false} RunProgress(g: Conv, m: seq<Byte>, b: nat, y: nat, x: nat, c: nat, end: nat)
    requires Sound(g, |m|) && OutputApart(g) && ShiftsInRange(g, m) && Reached(g.output, b, y, x, c) && end == Index(g.output, b, y, x, c)
    ensures Progress(g, ConvRun(g, m, b, y, x, c), m, end)
    decreases b, y, x, c
  {
    if c > 0 {
      RunProgress(g, m, b, y, x, c - 1, end - 1);
      RunNext(g, m, b, y, x, c - 1, end - 1);
    } else if x > 0 {
      IndexCarries(g.output, b, y, x - 1);
      RunProgress(g, m, b, y, x - 1, g.output.c, end);
      RunCarries(g, m, b, y, x, end);
    } else if y > 0 {
      IndexCarries(g.output, b, y - 1, 0);
      RunProgress(g, m, b, y - 1, g.output.w, 0, end);
      RunCarries(g, m, b, y, x, end);
    } else if b > 0 {
      IndexCarries(g.output, b - 1, 0, 0);
      RunProgress(g, m, b - 1, g.output.h, 0, 0, end);
      RunCarries(g, m, b, y, x, end);
    }
  }

  /** The byte of cell `(b, y, x, c)`, in row-major order from `at`, is the reference cell in two's complement. */
  ghost predicate ReferenceByte(width: R.Width, m: seq<Byte>, at: nat, l: R.Layer, o: R.Operands, h: nat, w: nat, b: nat, y: nat, x: nat, c: nat) {
    var i := at + ((b * h + y) * w + x) * l.channels + c;
    i < |m| && m[i] == R.ConvCell(width, l, o, b, y, x, c) % 256
  }

  /** Every element of a tensor of shape `s` at `at` is its reference cell. */
  ghost predicate AllReference(width: R.Width, m: seq<Byte>, at: nat, s: Shape, l: R.Layer, o: R.Operands) {
    forall b: nat, y: nat, x: nat, c: nat :: Within(s, b, y, x, c) ==> ReferenceByte(width, m, at, l, o, s.h, s.w, b, y, x, c)
  }

  /** Every output cell holds the reference convolution of the old operands, and no other byte changed. */
  ghost predicate Convolved(g: Conv, m: seq<Byte>, m0: seq<Byte>)
    requires Sound(g, |m0|)
  {
    Untouched(g, m, m0) && AllReference(R.Wrapping, m, g.outputAt, g.output, LayerOf(g), OperandsOf(g, m0))
  }

  lemma ByteFrom(m: seq<Byte>, at: nat, s: Shape, l: R.Layer, o: R.Operands, b: nat, y: nat, x: nat, c: nat, v: int)
    requires l.channels == s.c && at + Index(s, b, y, x, c) < |m| && m[at + Index(s, b, y, x, c)] == v % 256
    requires v == R.ConvCell(R.Wrapping, l, o, b, y, x, c)
    ensures ReferenceByte(R.Wrapping, m, at, l, o, s.h, s.w, b, y, x, c)
  {
    IndexIsProduct(s, b, y, x, c);
  }

  lemma WrittenIsReference(g: Conv, m: seq<Byte>, m0: seq<Byte>, b: nat, y: nat, x: nat, c: nat)
    requires Sound(g, |m0|) && ShiftsInRange(g, m0) && Within(g.output, b, y, x, c) && Written(g, m, m0, b, y, x, c)
    ensures ReferenceByte(R.Wrapping, m, g.outputAt, LayerOf(g), OperandsOf(g, m0), g.output.h, g.output.w, b, y, x, c)
  {
    CellIsReference(g, m0, b, y, x, c);
    TwosComplement(Cell(g, m0, b, y, x, c));
    ByteFrom(m, g.outputAt, g.output, LayerOf(g), OperandsOf(g, m0), b, y, x, c, Cell(g, m0, b, y, x, c));
  }

  /** An output that overlaps nothing the kernel reads holds the convolution of the old memory. */
  lemma RunConvolves(g: Conv, m: seq<Byte>)
    requires Sound(g, |m|) && OutputApart(g) && ShiftsInRange(g, m)
    ensures Convolved(g, ConvRun(g, m, g.output.n, 0, 0, 0), m)
  {
    var m' := ConvRun(g, m, g.output.n, 0, 0, 0);
    ConvRunFrame(g, m, g.output.n, 0, 0, 0);
    RunProgress(g, m, g.output.n, 0, 0, 0, Volume(g.output));
    forall b: nat, y: nat, x: nat, c: nat | Within(g.output, b, y, x, c)
      ensures ReferenceByte(R.Wrapping, m', g.outputAt, LayerOf(g), OperandsOf(g, m), g.output.h, g.output.w, b, y, x, c)
    {
      IndexInVolume(g.output, b, y, x, c);
      WrittenIsReference(g, m', m, b, y, x, c);
    }
  }

  /** The shifts the kernel accepts, read from their table. */
  lemma ShiftsAre(g: Conv, m: seq<Byte>)
    requires Sound(g, |m|)
    ensures ShiftsInRange(g, m) <==> forall c: nat :: c < g.output.c ==> -31 <= R.Int32Of(OperandsOf(g, m).shifts, 4 * c) <= 30
  {
    forall c: nat | c < g.output.c ensures Shift(g, m, c) == R.Int32Of(OperandsOf(g, m).shifts, 4 * c) { ShiftIs(g, m, c); }
  }

  lemma ExactByte(m: seq<Byte>, at: nat, s: Shape, l: R.Layer, o: R.Operands, b: nat, y: nat, x: nat, c: nat)
    requires ZeroPointsFit(l.inputZero, l.filterZero) && CoordinatesFit(l, s.h, s.w) && Within(s, b, y, x, c)
    requires ReferenceByte(R.Wrapping, m, at, l, o, s.h, s.w, b, y, x, c)
    ensures ReferenceByte(R.Exact, m, at, l, o, s.h, s.w, b, y, x, c)
  {
    ConvCellExact(l, o, b, y, x, c, s.h, s.w);
  }

  /** With coordinates and zero points that fit, the output is the exact convolution. */
  lemma AllExact(m: seq<Byte>, at: nat, s: Shape, l: R.Layer, o: R.Operands)
    requires ZeroPointsFit(l.inputZero, l.filterZero) && CoordinatesFit(l, s.h, s.w) && AllReference(R.Wrapping, m, at, s, l, o)
    ensures AllReference(R.Exact, m, at, s, l, o)
  {
    forall b: nat, y: nat, x: nat, c: nat | Within(s, b, y, x, c) ensures ReferenceByte(R.Exact, m, at, l, o, s.h, s.w, b, y, x, c) {
      assert ReferenceByte(R.Wrapping, m, at, l, o, s.h, s.w, b, y, x, c);
      ExactByte(m, at, s, l, o, b, y, x, c);
    }
  }
}
