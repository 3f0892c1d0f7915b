/**
 What each integer kernel leaves for a job, written over the descriptor's own tensors: their
 dimensions, zero points, and bytes in memory.
 */
module HybridMeaning {
  import opened Bits
  import opened Int8
  import opened Tensors
  import opened HybridConv
  import opened ConvMath
  import opened ConvOutput
  import opened HybridOperator
  import opened HybridDense
  import opened DenseOperator
  import opened HybridDispatch

  /** The `n` bytes at `at`, none when they do not lie in memory. */
  function Slice(m: seq<Byte>, at: int, n: nat): seq<Byte> {
    if 0 <= at && at + n <= |m| then m[at..at + n] else []
  }

  function Bytes(t: Tensor, base: nat, m: seq<Byte>): seq<Byte> { Slice(m, t.address as int - base, t.size) }

  lemma SliceFrom(t: Tensor, base: nat, m: seq<Byte>, at: nat, n: nat)
    requires RangeValid(t.address, t.size, base, |m|) && t.address == base + at && t.size == n
    ensures at + n <= |m| && Bytes(t, base, m) == m[at..at + n]
  {}

  // ---------------------------------------------------------------- convolution

  function ConvLayer(j: Job, depthwise: bool): R.Layer {
    var input, filter, output := j.tensors[0], j.tensors[1], j.tensors[3];
    R.Layer(depthwise, input.dims[1], input.dims[2], input.dims[3], filter.dims[1], filter.dims[2], output.dims[3],
            j.strideH, j.strideW, j.padH, j.padW, input.zeroPoint, filter.zeroPoint, j.outputZero, j.actMin, j.actMax)
  }

  function ConvOperands(j: Job, base: nat, m: seq<Byte>): R.Operands {
    R.Operands(Bytes(j.tensors[0], base, m), Bytes(j.tensors[1], base, m), Bytes(j.tensors[2], base, m),
               Slice(m, j.multiplierAddress as int - base, 4 * j.quantizationCount), Slice(m, j.shiftAddress as int - base, 4 * j.quantizationCount))
  }

  /** The output tensor overlaps no other tensor and no table. */
  predicate ConvApart(j: Job) {
    var at, n := j.tensors[3].address, j.tensors[3].size;
    && Apart(at, n, j.tensors[0].address, j.tensors[0].size) && Apart(at, n, j.tensors[1].address, j.tensors[1].size)
    && Apart(at, n, j.tensors[2].address, j.tensors[2].size)
    && Apart(at, n, j.multiplierAddress, 4 * j.quantizationCount) && Apart(at, n, j.shiftAddress, 4 * j.quantizationCount)
  }

  /** Every shift is one the kernels take. */
  predicate ShiftsTaken(shifts: seq<Byte>, channels: nat) {
    forall c: nat :: c < channels ==> -31 <= R.Int32Of(shifts, 4 * c) <= 30
  }

  /** Every output element is the reference cell of the job's bytes before. */
  ghost predicate ConvMeans(j: Job, base: nat, m: seq<Byte>, m': seq<Byte>, depthwise: bool)
    requires j.tensors[3].address >= base
  {
    AllReference(R.Wrapping, m', j.tensors[3].address - base, ShapeOf(j.tensors[3]), ConvLayer(j, depthwise), ConvOperands(j, base, m))
  }

  /** A longer bias is read the same. */
  lemma BiasPrefix(s: seq<Byte>, n: nat, c: nat)
    requires 4 * c + 4 <= n <= |s|
    ensures R.Int32Of(s[..n], 4 * c) == R.Int32Of(s, 4 * c)
  {}

  lemma LongerBias(l: R.Layer, o: R.Operands, o': R.Operands, n: nat, b: nat, y: nat, x: nat, c: nat)
    requires 4 * c + 4 <= n <= |o'.bias| && o == o'.(bias := o'.bias[..n])
    ensures R.ConvCell(R.Wrapping, l, o, b, y, x, c) == R.ConvCell(R.Wrapping, l, o', b, y, x, c)
  {
    BiasPrefix(o'.bias, n, c);
  }

  lemma LongerBiasByte(m: seq<Byte>, at: nat, l: R.Layer, o: R.Operands, o': R.Operands, n: nat, h: nat, w: nat, b: nat, y: nat, x: nat, c: nat)
    requires 4 * c + 4 <= n <= |o'.bias| && o == o'.(bias := o'.bias[..n]) && ReferenceByte(R.Wrapping, m, at, l, o, h, w, b, y, x, c)
    ensures ReferenceByte(R.Wrapping, m, at, l, o', h, w, b, y, x, c)
  {
    LongerBias(l, o, o', n, b, y, x, c);
  }

  lemma LongerBiasBytes(m: seq<Byte>, at: nat, s: Shape, l: R.Layer, o: R.Operands, o': R.Operands)
    requires 4 * s.c <= |o'.bias| && o == o'.(bias := o'.bias[..4 * s.c]) && AllReference(R.Wrapping, m, at, s, l, o)
    ensures AllReference(R.Wrapping, m, at, s, l, o')
  {
    forall b: nat, y: nat, x: nat, c: nat | Within(s, b, y, x, c) ensures ReferenceByte(R.Wrapping, m, at, l, o', s.h, s.w, b, y, x, c) {
      assert ReferenceByte(R.Wrapping, m, at, l, o, s.h, s.w, b, y, x, c);
      LongerBiasByte(m, at, l, o, o', 4 * s.c, s.h, s.w, b, y, x, c);
    }
  }

  /** The job's operands, once its tensors and tables are where the geometry has them. */
  lemma OperandsFrom(j: Job, base: nat, m: seq<Byte>, g: Conv)
    requires Sound(g, |m|)
    requires forall i :: 0 <= i < 3 ==> RangeValid(j.tensors[i].address, j.tensors[i].size, base, |m|)
    requires j.tensors[0].address == base + g.inputAt && j.tensors[0].size == Volume(g.input)
    requires j.tensors[1].address == base + g.filterAt && j.tensors[1].size == Volume(g.filter)
    requires j.tensors[2].address == base + g.biasAt && j.tensors[2].size >= 4 * g.output.c
    requires j.multiplierAddress == base + g.multAt && j.shiftAddress == base + g.shiftAt && j.quantizationCount == g.output.c
    ensures var o := ConvOperands(j, base, m);
            4 * g.output.c <= |o.bias| && OperandsOf(g, m) == o.(bias := o.bias[..4 * g.output.c])
  {
    SliceFrom(j.tensors[0], base, m, g.inputAt, Volume(g.input));
    SliceFrom(j.tensors[1], base, m, g.filterAt, Volume(g.filter));
    SliceFrom(j.tensors[2], base, m, g.biasAt, j.tensors[2].size);
    SlicesAre(g, m, ConvOperands(j, base, m), j.tensors[2].size);
  }

  /** The geometry reads the job's bytes. */
  lemma OperandsAre(j: Job, base: nat, m: seq<Byte>, depthwise: bool)
    requires BodyOk(j, base, |m|) && CommonConvValid(j, depthwise) && BiasCovers(j) && |m| < TWO31
    ensures forall i :: 0 <= i < 4 ==> j.tensors[i].address >= base
    ensures j.multiplierAddress >= base && j.shiftAddress >= base
    ensures var g, o := Geometry(j, base, depthwise), ConvOperands(j, base, m);
            && Sound(g, |m|) && LayerOf(g) == ConvLayer(j, depthwise) && 4 * g.output.c <= |o.bias|
            && OperandsOf(g, m) == o.(bias := o.bias[..4 * g.output.c])
  {
    AcceptedIsSound(j, base, |m|, depthwise);
    forall i | 0 <= i < 3 ensures RangeValid(j.tensors[i].address, j.tensors[i].size, base, |m|) {
      assert TensorOk(j.tensors[i], base, |m|);
    }
    CountIsVolume(j.tensors[0]);
    CountIsVolume(j.tensors[1]);
    BiasSize(j.tensors[2]);
    OperandsFrom(j, base, m, Geometry(j, base, depthwise));
  }

  lemma SlicesAre(g: Conv, m: seq<Byte>, o: R.Operands, biasSize: nat)
    requires Sound(g, |m|) && 4 * g.output.c <= biasSize && g.biasAt + biasSize <= |m|
    requires o == R.Operands(m[g.inputAt..g.inputAt + Volume(g.input)], m[g.filterAt..g.filterAt + Volume(g.filter)],
                             m[g.biasAt..g.biasAt + biasSize], m[g.multAt..g.multAt + 4 * g.output.c], m[g.shiftAt..g.shiftAt + 4 * g.output.c])
    ensures OperandsOf(g, m) == o.(bias := o.bias[..4 * g.output.c])
  {
    assert OperandsOf(g, m).bias == o.bias[..4 * g.output.c];
  }

  lemma JobApart(j: Job, base: nat, m: seq<Byte>, depthwise: bool)
    requires BodyOk(j, base, |m|) && CommonConvValid(j, depthwise) && BiasCovers(j) && |m| < TWO31 && ConvApart(j)
    ensures forall i :: 0 <= i < 4 ==> j.tensors[i].address >= base
    ensures j.multiplierAddress >= base && j.shiftAddress >= base
    ensures OutputApart(Geometry(j, base, depthwise))
  {
    AcceptedIsSound(j, base, |m|, depthwise);
    CountIsVolume(j.tensors[0]);
    CountIsVolume(j.tensors[1]);
    CountIsVolume(j.tensors[3]);
    BiasSize(j.tensors[2]);
  }

  /** A convolution runs exactly when its descriptor is accepted and the shifts in memory are in range. */
  lemma ConvRunsIff(j: Job, base: nat, m: seq<Byte>, depthwise: bool)
    requires BodyOk(j, base, |m|) && ConvAssumed(j, base, |m|, depthwise)
    ensures ConvRuns(j, base, m, depthwise) <==>
              CommonConvValid(j, depthwise) && ShiftsTaken(ConvOperands(j, base, m).shifts, j.tensors[3].dims[3])
  {
    if CommonConvValid(j, depthwise) {
      OperandsAre(j, base, m, depthwise);
      ShiftsAre(Geometry(j, base, depthwise), m);
    }
  }

  /** The geometry is the layer `l` over the operands `o`, with its output, of shape `s` and at `at`, apart from them. */
  predicate Describes(g: Conv, m: seq<Byte>, at: nat, s: Shape, l: R.Layer, o: R.Operands) {
    && Sound(g, |m|) && OutputApart(g) && LayerOf(g) == l && at == g.outputAt && s == g.output
    && 4 * g.output.c <= |o.bias| && OperandsOf(g, m) == o.(bias := o.bias[..4 * g.output.c])
  }

  lemma RunMeans(g: Conv, m: seq<Byte>, m': seq<Byte>, at: nat, s: Shape, l: R.Layer, o: R.Operands)
    requires Describes(g, m, at, s, l, o) && ShiftsInRange(g, m) && m' == ConvRun(g, m, g.output.n, 0, 0, 0)
    ensures AllReference(R.Wrapping, m', at, s, l, o)
  {
    RunConvolves(g, m);
    LongerBiasBytes(m', at, s, l, OperandsOf(g, m), o);
  }

  lemma AcceptedDescribes(j: Job, base: nat, m: seq<Byte>, depthwise: bool)
    requires BodyOk(j, base, |m|) && CommonConvValid(j, depthwise) && BiasCovers(j) && |m| < TWO31 && ConvApart(j)
    ensures forall i :: 0 <= i < 4 ==> j.tensors[i].address >= base
    ensures j.multiplierAddress >= base && j.shiftAddress >= base
    ensures Describes(Geometry(j, base, depthwise), m, j.tensors[3].address - base, ShapeOf(j.tensors[3]), ConvLayer(j, depthwise), ConvOperands(j, base, m))
  {
    OperandsAre(j, base, m, depthwise);
    JobApart(j, base, m, depthwise);
  }

  /** With its output apart from what it reads, a convolution leaves the reference convolution of the bytes before. */
  lemma ConvJobMeans(j: Job, base: nat, m: seq<Byte>, m': seq<Byte>, depthwise: bool)
    requires BodyOk(j, base, |m|) && ConvAssumed(j, base, |m|, depthwise)
    requires ConvRuns(j, base, m, depthwise) && ConvOutcome(j, base, m, m', depthwise) && ConvApart(j)
    ensures j.tensors[3].address >= base && ConvMeans(j, base, m, m', depthwise)
  {
    AcceptedDescribes(j, base, m, depthwise);
    RunMeans(Geometry(j, base, depthwise), m, m', j.tensors[3].address - base, ShapeOf(j.tensors[3]), ConvLayer(j, depthwise), ConvOperands(j, base, m));
  }

  // ---------------------------------------------------------------- matrix product and fully connected

  /** The matrices of a job whose output is tensor `last`. */
  function JobMatrices(j: Job, base: nat, m: seq<Byte>, connected: bool, last: nat): R.Matrices
    requires last < MAX_TENSORS
  {
    var lhs, rhs := j.tensors[0], j.tensors[1];
    R.Matrices(Bytes(lhs, base, m), Bytes(rhs, base, m), if last == 3 then Bytes(j.tensors[2], base, m) else [],
               lhs.dims[1], j.tensors[last].dims[1], connected, lhs.zeroPoint, rhs.zeroPoint, j.outputZero)
  }

  /** The output overlaps no tensor before it. */
  predicate LastApart(j: Job, last: nat)
    requires last < MAX_TENSORS
  {
    forall i :: 0 <= i < last ==> Apart(j.tensors[last].address, j.tensors[last].size, j.tensors[i].address, j.tensors[i].size)
  }

  /** Every output element is the reference product of the job's bytes before. */
  ghost predicate DenseMeans(j: Job, base: nat, m: seq<Byte>, m': seq<Byte>, connected: bool)
    requires 3 <= j.tensorCount <= MAX_TENSORS && j.tensors[j.tensorCount - 1].address >= base
  {
    var last := j.tensorCount - 1;
    AllProducts(m', j.tensors[last].address - base, j.tensors[0].dims[0], JobMatrices(j, base, m, connected, last), j.actMin, j.actMax)
  }

  /** The job's matrices, once its tensors are where the geometry has them. */
  lemma MatricesFrom(j: Job, base: nat, m: seq<Byte>, connected: bool, last: nat, g: Dense)
    requires DenseSound(g, |m|) && 2 <= last <= 3 && (g.biasAt.Some? <==> last == 3)
    requires forall i :: 0 <= i < last ==> RangeValid(j.tensors[i].address, j.tensors[i].size, base, |m|)
    requires j.tensors[0].address == base + g.lhsAt && j.tensors[0].size == Times(g.rows, g.depth)
    requires j.tensors[1].address == base + g.rhsAt && j.tensors[1].size == RhsSize(g)
    requires last == 3 ==> j.tensors[2].address == base + g.biasAt.value && j.tensors[2].size == 4 * g.cols
    requires g.depth == j.tensors[0].dims[1] && g.cols == j.tensors[last].dims[1] && g.byOutput == connected
    requires g.lhsZero == j.tensors[0].zeroPoint && g.rhsZero == j.tensors[1].zeroPoint && g.outZero == j.outputZero
    ensures MatricesOf(g, m) == JobMatrices(j, base, m, connected, last)
  {
    SliceFrom(j.tensors[0], base, m, g.lhsAt, Times(g.rows, g.depth));
    SliceFrom(j.tensors[1], base, m, g.rhsAt, RhsSize(g));
    if last == 3 { SliceFrom(j.tensors[2], base, m, g.biasAt.value, 4 * g.cols); }
  }

  lemma MatricesAre(j: Job, base: nat, m: seq<Byte>, connected: bool)
    requires BodyOk(j, base, |m|) && DenseValid(j, connected)
    ensures forall i :: 0 <= i < j.tensorCount ==> j.tensors[i].address >= base
    ensures var g := DenseGeometry(j, base, connected);
            DenseSound(g, |m|) && MatricesOf(g, m) == JobMatrices(j, base, m, connected, j.tensorCount - 1)
  {
    DenseIsSound(j, base, |m|, connected);
    forall i | 0 <= i < j.tensorCount ensures RangeValid(j.tensors[i].address, j.tensors[i].size, base, |m|) {
      assert TensorOk(j.tensors[i], base, |m|);
    }
    MatricesFrom(j, base, m, connected, j.tensorCount - 1, DenseGeometry(j, base, connected));
  }

  lemma DenseJobApart(j: Job, base: nat, capacity: nat, connected: bool)
    requires BodyOk(j, base, capacity) && DenseValid(j, connected) && LastApart(j, j.tensorCount - 1)
    ensures forall i :: 0 <= i < j.tensorCount ==> j.tensors[i].address >= base
    ensures DenseApart(DenseGeometry(j, base, connected))
  {
    DenseIsSound(j, base, capacity, connected);
  }

  lemma ProductsFrom(g: Dense, m: seq<Byte>, m': seq<Byte>, at: nat, rows: nat, d: R.Matrices, lo: int, hi: int)
    requires DenseSound(g, |m|) && DenseApart(g) && m' == DenseRun(g, m, g.rows, 0) && MatricesOf(g, m) == d
    requires at == g.outAt && rows == g.rows && lo == g.actMin && hi == g.actMax
    ensures AllProducts(m', at, rows, d, lo, hi)
  {
    RunMultiplies(g, m);
  }

  /** With its output apart from its operands, the kernel leaves the reference product of the bytes before. */
  lemma DenseJobMeans(j: Job, base: nat, m: seq<Byte>, m': seq<Byte>, connected: bool)
    requires BodyOk(j, base, |m|) && DenseValid(j, connected) && DenseOutcome(j, base, m, m', connected) && LastApart(j, j.tensorCount - 1)
    ensures j.tensors[j.tensorCount - 1].address >= base && DenseMeans(j, base, m, m', connected)
  {
    MatricesAre(j, base, m, connected);
    DenseJobApart(j, base, |m|, connected);
    var last := j.tensorCount - 1;
    ProductsFrom(DenseGeometry(j, base, connected), m, m', j.tensors[last].address - base, j.tensors[0].dims[0],
                 JobMatrices(j, base, m, connected, last), j.actMin, j.actMax);
  }

  // ---------------------------------------------------------------- addition

  /** No output byte lands on an operand byte that is still to be read. */
  predicate AddOrdered(j: Job) {
    var at, n := j.tensors[2].address, j.tensors[2].size;
    ReadBeforeWritten(j.tensors[0].address, at, n) && ReadBeforeWritten(j.tensors[1].address, at, n)
  }

  /** Every output element is the reference sum of the job's bytes before. */
  ghost predicate AddMeans(j: Job, base: nat, m: seq<Byte>, m': seq<Byte>)
    requires j.tensors[2].address >= base
  {
    var lhs, rhs, output := j.tensors[0], j.tensors[1], j.tensors[2];
    AllSums(m', output.address - base, output.size, Bytes(lhs, base, m), Bytes(rhs, base, m),
            lhs.zeroPoint, rhs.zeroPoint, j.outputZero, j.actMin, j.actMax)
  }

  lemma SizesAgree(j: Job)
    requires AddValid(j)
    ensures j.tensors[0].size == j.tensors[1].size == j.tensors[2].size
  {
    SameCount(j.tensors[0], j.tensors[1]);
    SameCount(j.tensors[0], j.tensors[2]);
  }

  lemma SumsFrom(g: Sum, m: seq<Byte>, m': seq<Byte>, at: nat, n: nat, lhs: seq<Byte>, rhs: seq<Byte>,
                 lhsZero: int, rhsZero: int, outZero: int, lo: int, hi: int)
    requires SumSound(g, |m|) && SumOrdered(g) && m' == AddRun(g, m, g.count) && at == g.outAt && n == g.count
    requires lhs == m[g.lhsAt..g.lhsAt + g.count] && rhs == m[g.rhsAt..g.rhsAt + g.count]
    requires lhsZero == g.lhsZero && rhsZero == g.rhsZero && outZero == g.outZero && lo == g.actMin && hi == g.actMax
    ensures AllSums(m', at, n, lhs, rhs, lhsZero, rhsZero, outZero, lo, hi)
  {
    RunAdds(g, m);
  }

  /** Where no output byte lands on an operand byte still to be read, the addition leaves the reference sum. */
  lemma AddJobMeans(j: Job, base: nat, m: seq<Byte>, m': seq<Byte>)
    requires BodyOk(j, base, |m|) && AddValid(j) && AddOutcome(j, base, m, m') && AddOrdered(j)
    ensures j.tensors[2].address >= base && AddMeans(j, base, m, m')
  {
    AddIsSound(j, base, |m|);
    SizesAgree(j);
    assert TensorOk(j.tensors[0], base, |m|) && TensorOk(j.tensors[1], base, |m|);
    var g := SumGeometry(j, base);
    SliceFrom(j.tensors[0], base, m, g.lhsAt, g.count);
    SliceFrom(j.tensors[1], base, m, g.rhsAt, g.count);
    SumsFrom(g, m, m', j.tensors[2].address - base, j.tensors[2].size, Bytes(j.tensors[0], base, m), Bytes(j.tensors[1], base, m),
             j.tensors[0].zeroPoint, j.tensors[1].zeroPoint, j.outputZero, j.actMin, j.actMax);
  }

  // ---------------------------------------------------------------- every integer kernel

  /** Each kernel leaves the reference function of the memory before, unless its output overlaps what it still reads. */
  lemma LeftMeans(opcode: nat, j: Job, base: nat, m: seq<Byte>, m': seq<Byte>)
    requires IsInteger(opcode) && BodyOk(j, base, |m|) && Assumed(opcode, j, base, |m|) && Left(opcode, j, base, m, m') && Runs(opcode, j, base, m)
    ensures opcode == 2 || opcode == 3 ==> j.tensors[3].address >= base && (ConvApart(j) ==> ConvMeans(j, base, m, m', opcode == 3))
    ensures opcode == 4 || opcode == 5 ==>
              && 3 <= j.tensorCount <= MAX_TENSORS && j.tensors[j.tensorCount - 1].address >= base
              && (LastApart(j, j.tensorCount - 1) ==> DenseMeans(j, base, m, m', opcode == 5))
    ensures opcode == 6 ==> j.tensors[2].address >= base && (AddOrdered(j) ==> AddMeans(j, base, m, m'))
  {
    if IsConv(opcode) {
      AcceptedIsSound(j, base, |m|, Depthwise(opcode));
      if ConvApart(j) { ConvJobMeans(j, base, m, m', Depthwise(opcode)); }
    } else if IsDense(opcode) {
      DenseIsSound(j, base, |m|, Connected(opcode));
      if LastApart(j, j.tensorCount - 1) { DenseJobMeans(j, base, m, m', Connected(opcode)); }
    } else {
      AddIsSound(j, base, |m|);
      if AddOrdered(j) { AddJobMeans(j, base, m, m'); }
    }
  }
}
