/** Operator descriptors: validation, and what the convolution entry points accept and leave. */
module HybridOperator {
  import opened Arith
  import opened Bits
  import opened FixedPoint
  import opened Tensors
  import opened HybridConv

  const MAGIC: nat := 0x4e50_584f
  const VERSION: nat := 4
  const DESCRIPTOR_SIZE: nat := 296
  const MAX_TENSORS: nat := 4
  const MAX_DIMS: nat := 4

  const MODE_HYBRID: nat := 1
  const STATE_SUBMITTED: nat := 1
  const STATE_RUNNING: nat := 2
  const STATE_COMPLETE: nat := 3
  const STATE_ERROR: nat := 4
  const ERROR_NONE: nat := 0
  const ERROR_BAD_DESCRIPTOR: nat := 1
  const ERROR_UNSUPPORTED: nat := 2
  const ERROR_EXECUTION: nat := 3
  const ERROR_ADDRESS: nat := 4
  const OP_CONV_2D: nat := 2
  const OP_DEPTHWISE_CONV_2D: nat := 3
  const OP_MATMUL: nat := 4
  const OP_FULLY_CONNECTED: nat := 5
  const OP_ADD: nat := 6
  const OP_SOFTMAX: nat := 7
  const OP_LAYER_NORM: nat := 8
  const INT8: nat := 1
  const INT32: nat := 2
  const FLOAT32: nat := 3

  datatype TensorData = TensorData(address: Word, size: Word, rank: Word, dims: seq<Word>, elementType: Word, zeroPoint: Int32)

  type Tensor = t: TensorData | |t.dims| == MAX_DIMS witness TensorData(0, 0, 0, [0, 0, 0, 0], 0, 0)

  /** The part of a descriptor that says what to compute. */
  datatype JobData =
    JobData(tensorCount: Word, tensors: seq<Tensor>, strideH: Word, strideW: Word, padH: Word, padW: Word,
            multiplierAddress: Word, shiftAddress: Word, outputZero: Int32, actMin: Int32, actMax: Int32, quantizationCount: Word)

  const NO_TENSOR: Tensor := TensorData(0, 0, 0, [0, 0, 0, 0], 0, 0)

  type Job = j: JobData | |j.tensors| == MAX_TENSORS
    witness JobData(0, [NO_TENSOR, NO_TENSOR, NO_TENSOR, NO_TENSOR], 0, 0, 0, 0, 0, 0, 0, 0, 0, 0)

  datatype Descriptor =
    Descriptor(magic: Word, version: Word, descriptorSize: Word, opcode: Word, state: Word, error: Word, executionMode: Word,
               job: Job, operationCount: nat, modeledCycles: nat, bytesRead: nat, bytesWritten: nat)

  // ---------------------------------------------------------------- element counts

  function Product(dims: seq<Word>, n: nat): nat
    requires n <= |dims|
  {
    if n == 0 then 1 else Product(dims, n - 1) * dims[n - 1]
  }

  predicate AllPositive(dims: seq<Word>, n: nat)
    requires n <= |dims|
  {
    forall i :: 0 <= i < n ==> dims[i] > 0
  }

  /** The number of elements; 0 stands for a bad rank, an empty dimension or a count above 64 bits. */
  function Count(t: Tensor): nat {
    if t.rank == 0 || t.rank > MAX_DIMS || !AllPositive(t.dims, t.rank) || Product(t.dims, t.rank) >= TWO64 then 0
    else Product(t.dims, t.rank)
  }

  lemma {:induction false} ProductGrows(dims: seq<Word>, i: nat, n: nat)
    requires i <= n <= |dims| && AllPositive(dims, n)
    ensures 1 <= Product(dims, i) <= Product(dims, n)
    decreases n
  {
    if i < n {
      ProductGrows(dims, i, n - 1);
      AtLeast(Product(dims, n - 1), dims[n - 1]);
    } else if n > 0 {
      ProductGrows(dims, n - 1, n - 1);
      AtLeast(Product(dims, n - 1), dims[n - 1]);
    }
  }

  method ElementCount(t: Tensor) returns (count: nat)
    ensures count == Count(t)
  {
    if t.rank == 0 || t.rank > MAX_DIMS { return 0; }
    count := 1;
    for i := 0 to t.rank
      invariant AllPositive(t.dims, i) && count == Product(t.dims, i) < TWO64
    {
      var dim := t.dims[i];
      if dim == 0 { return 0; }
      Guard(TWO64, count, dim);
      if count > (TWO64 - 1) / dim {
        if AllPositive(t.dims, t.rank) { ProductGrows(t.dims, i + 1, t.rank); }
        return 0;
      }
      count := count * dim;
    }
  }

  // ---------------------------------------------------------------- validation

  predicate RangeValid(address: nat, size: nat, base: nat, capacity: nat) {
    size != 0 && size <= capacity && address >= base && address - base <= capacity - size
  }

  /** The range test is that the interval is not empty and lies in memory. */
  lemma RangeValidIff(address: nat, size: nat, base: nat, capacity: nat)
    ensures RangeValid(address, size, base, capacity) <==> size > 0 && base <= address && address + size <= base + capacity
  {}

  predicate HeaderOk(d: Descriptor) {
    && d.magic == MAGIC && d.version == VERSION && d.descriptorSize == DESCRIPTOR_SIZE
    && d.executionMode == MODE_HYBRID && d.state == STATE_SUBMITTED && d.job.tensorCount <= MAX_TENSORS
  }

  predicate TensorOk(t: Tensor, base: nat, capacity: nat) {
    && (t.elementType == INT8 || t.elementType == INT32 || t.elementType == FLOAT32)
    && 0 < t.rank <= MAX_DIMS && RangeValid(t.address, t.size, base, capacity)
  }

  predicate TensorsOk(j: Job, n: nat, base: nat, capacity: nat)
    requires n <= MAX_TENSORS
  {
    forall i :: 0 <= i < n ==> TensorOk(j.tensors[i], base, capacity)
  }

  predicate TablesPaired(j: Job) { j.multiplierAddress == 0 <==> j.shiftAddress == 0 }

  predicate TablesOk(j: Job, base: nat, capacity: nat) {
    j.quantizationCount != 0 ==>
      && 4 * j.quantizationCount < TWO32
      && RangeValid(j.multiplierAddress, 4 * j.quantizationCount, base, capacity)
      && RangeValid(j.shiftAddress, 4 * j.quantizationCount, base, capacity)
  }

  /** Everything the kernels rely on: what is left of validation once the header is read. */
  predicate BodyOk(j: Job, base: nat, capacity: nat) {
    j.tensorCount <= MAX_TENSORS && TensorsOk(j, j.tensorCount, base, capacity) && TablesPaired(j) && TablesOk(j, base, capacity)
  }

  predicate Validates(d: Descriptor, base: nat, capacity: nat) { HeaderOk(d) && BodyOk(d.job, base, capacity) }

  /** The first failed group of tests names the error. */
  function ValidationError(d: Descriptor, base: nat, capacity: nat): Word {
    if !HeaderOk(d) then ERROR_BAD_DESCRIPTOR
    else if !TensorsOk(d.job, d.job.tensorCount, base, capacity) then ERROR_ADDRESS
    else if !TablesPaired(d.job) then ERROR_BAD_DESCRIPTOR
    else if !TablesOk(d.job, base, capacity) then ERROR_ADDRESS
    else ERROR_NONE
  }

  method Validate(d: Descriptor, base: nat, capacity: nat) returns (ok: bool, error: Word)
    ensures ok <==> Validates(d, base, capacity)
    ensures error == ValidationError(d, base, capacity)
  {
    error := ERROR_NONE;
    if d.magic != MAGIC || d.version != VERSION || d.descriptorSize != DESCRIPTOR_SIZE ||
       d.executionMode != MODE_HYBRID || d.state != STATE_SUBMITTED || d.job.tensorCount > MAX_TENSORS {
      return false, ERROR_BAD_DESCRIPTOR;
    }
    for i := 0 to d.job.tensorCount
      invariant TensorsOk(d.job, i, base, capacity)
    {
      var tensor := d.job.tensors[i];
      var typeValid := tensor.elementType == INT8 || tensor.elementType == INT32 || tensor.elementType == FLOAT32;
      if !typeValid || tensor.rank == 0 || tensor.rank > MAX_DIMS || !RangeValid(tensor.address, tensor.size, base, capacity) {
        return false, ERROR_ADDRESS;
      }
    }
    if (d.job.multiplierAddress == 0) != (d.job.shiftAddress == 0) { return false, ERROR_BAD_DESCRIPTOR; }
    if d.job.quantizationCount != 0 {
      var bytes := 4 * d.job.quantizationCount;
      if bytes > TWO32 - 1 || !RangeValid(d.job.multiplierAddress, bytes, base, capacity) ||
         !RangeValid(d.job.shiftAddress, bytes, base, capacity) {
        return false, ERROR_ADDRESS;
      }
    }
    ok := true;
  }

  // ---------------------------------------------------------------- the convolution entry points

  predicate ConvTensorsOk(j: Job) {
    var input, filter, bias, output := j.tensors[0], j.tensors[1], j.tensors[2], j.tensors[3];
    && input.elementType == INT8 && filter.elementType == INT8 && bias.elementType == INT32 && output.elementType == INT8
    && input.rank == 4 && filter.rank == 4 && bias.rank == 1 && output.rank == 4
    && input.size == Count(input) && filter.size == Count(filter) && bias.size == 4 * Count(bias) && output.size == Count(output)
  }

  predicate CommonConvValid(j: Job, depthwise: bool) {
    var input, filter, output := j.tensors[0].dims, j.tensors[1].dims, j.tensors[3].dims;
    && j.tensorCount == 4 && j.quantizationCount != 0 && j.strideH != 0 && j.strideW != 0
    && ConvTensorsOk(j)
    && input[0] != 0 && output[0] == input[0] && j.quantizationCount == output[3]
    && -128 <= j.actMin <= j.actMax <= 127
    && if depthwise then filter[0] == 1 && filter[3] == output[3] && input[3] > 0 && output[3] % input[3] == 0
       else filter[0] == output[3] && filter[3] == input[3]
  }

  /** The tests of the kernels, on the element counts the counting loop returns. */
  method CheckConv(j: Job, depthwise: bool) returns (ok: bool)
    requires j.tensorCount == 4 ==> j.tensors[0].size > 0
    ensures ok <==> CommonConvValid(j, depthwise)
  {
    if j.tensorCount != 4 || j.quantizationCount == 0 || j.strideH == 0 || j.strideW == 0 { return false; }
    var input, filter, bias, output := j.tensors[0], j.tensors[1], j.tensors[2], j.tensors[3];
    var inputs := ElementCount(input);
    var filters := ElementCount(filter);
    var biases := ElementCount(bias);
    var outputs := ElementCount(output);
    if input.elementType != INT8 || filter.elementType != INT8 || bias.elementType != INT32 || output.elementType != INT8 ||
       input.rank != 4 || filter.rank != 4 || bias.rank != 1 || output.rank != 4 {
      return false;
    }
    if input.size != inputs || filter.size != filters || bias.size != 4 * biases || output.size != outputs ||
       input.dims[0] == 0 || output.dims[0] != input.dims[0] || j.quantizationCount != output.dims[3] {
      return false;
    }
    if j.actMin < -128 || j.actMax > 127 || j.actMin > j.actMax { return false; }
    assert input.dims[3] > 0;
    if depthwise {
      ok := filter.dims[0] == 1 && filter.dims[3] == output.dims[3] && output.dims[3] % input.dims[3] == 0;
    } else {
      ok := filter.dims[0] == output.dims[3] && filter.dims[3] == input.dims[3];
    }
  }

  function ShapeOf(t: Tensor): Shape { Shape(t.dims[0], t.dims[1], t.dims[2], t.dims[3]) }

  lemma CountIsVolume(t: Tensor)
    requires t.rank == 4 && Count(t) > 0
    ensures Positive(ShapeOf(t)) && Volume(ShapeOf(t)) == Count(t)
  {
    var s := ShapeOf(t);
    IndexIsProduct(s, 0, 0, 0, 0);
    assert Product(t.dims, 1) == t.dims[0];
    assert Product(t.dims, 2) == Product(t.dims, 1) * t.dims[1];
    assert Product(t.dims, 3) == Product(t.dims, 2) * t.dims[2];
    assert Product(t.dims, 4) == Product(t.dims, 3) * t.dims[3];
  }

  /** The geometry a descriptor describes, relative to the memory's base address. */
  function Geometry(j: Job, base: nat, depthwise: bool): Conv
    requires forall i :: 0 <= i < 4 ==> j.tensors[i].address >= base
    requires j.multiplierAddress >= base && j.shiftAddress >= base
  {
    var input, filter, bias, output := j.tensors[0], j.tensors[1], j.tensors[2], j.tensors[3];
    Conv(depthwise, ShapeOf(input), ShapeOf(filter), ShapeOf(output),
         input.address - base, filter.address - base, bias.address - base, output.address - base,
         j.multiplierAddress - base, j.shiftAddress - base,
         j.strideH, j.strideW, j.padH, j.padW, input.zeroPoint, filter.zeroPoint, j.outputZero, j.actMin, j.actMax)
  }

  /** The kernels do not compare the bias length with the output channels. */
  predicate BiasCovers(j: Job) { j.tensors[2].dims[0] >= j.tensors[3].dims[3] }

  /** An accepted convolution descriptor whose bias covers the channels keeps every access inside memory. */
  lemma AcceptedIsSound(j: Job, base: nat, capacity: nat, depthwise: bool)
    requires BodyOk(j, base, capacity) && CommonConvValid(j, depthwise) && BiasCovers(j) && capacity < TWO31
    ensures forall i :: 0 <= i < 4 ==> j.tensors[i].address >= base
    ensures j.multiplierAddress >= base && j.shiftAddress >= base
    ensures Sound(Geometry(j, base, depthwise), capacity)
  {
    forall i | 0 <= i < 4 ensures TensorOk(j.tensors[i], base, capacity) {}
    CountIsVolume(j.tensors[0]);
    CountIsVolume(j.tensors[1]);
    CountIsVolume(j.tensors[3]);
    BiasSize(j.tensors[2]);
  }

  lemma BiasSize(t: Tensor)
    requires t.rank == 1 && Count(t) > 0
    ensures Count(t) == t.dims[0]
  {
    assert Product(t.dims, 1) == Product(t.dims, 0) * t.dims[0];
  }

  // ---------------------------------------------------------------- what a convolution leaves

  /** What is assumed of an accepted convolution: a long enough bias, and an output that does not overlap the shifts. */
  predicate ConvAssumed(j: Job, base: nat, capacity: nat, depthwise: bool) {
    BodyOk(j, base, capacity) && CommonConvValid(j, depthwise) ==>
      && BiasCovers(j) && capacity < TWO31
      && (AcceptedIsSound(j, base, capacity, depthwise); ShiftsApart(Geometry(j, base, depthwise)))
  }

  /** A convolution that runs: its descriptor is accepted and its shifts are in range. */
  predicate ConvRuns(j: Job, base: nat, m: seq<Byte>, depthwise: bool)
    requires BodyOk(j, base, |m|) && ConvAssumed(j, base, |m|, depthwise)
  {
    CommonConvValid(j, depthwise) && (AcceptedIsSound(j, base, |m|, depthwise); ShiftsInRange(Geometry(j, base, depthwise), m))
  }

  /** From memory `m` to memory `m'`: the convolution when it runs, nothing otherwise. */
  ghost predicate ConvOutcome(j: Job, base: nat, m: seq<Byte>, m': seq<Byte>, depthwise: bool)
    requires BodyOk(j, base, |m|) && ConvAssumed(j, base, |m|, depthwise)
  {
    if ConvRuns(j, base, m, depthwise) then
      AcceptedIsSound(j, base, |m|, depthwise);
      var g := Geometry(j, base, depthwise);
      m' == ConvRun(g, m, g.output.n, 0, 0, 0)
    else m' == m
  }

  /** One operation per output cell and filter tap. */
  function ConvOperations(j: Job, depthwise: bool): nat {
    var filter, output := j.tensors[1].dims, j.tensors[3].dims;
    Product([output[0], output[1], output[2], output[3], filter[1], filter[2], if depthwise then 1 else j.tensors[0].dims[3]], 7)
  }

  function ConvBytesRead(j: Job): nat {
    (j.tensors[0].size + j.tensors[1].size + j.tensors[2].size) % TWO32 + 8 * j.quantizationCount
  }

  method CountConvBytes(j: Job) returns (bytes: nat)
    ensures bytes == ConvBytesRead(j)
  {
    bytes := (j.tensors[0].size + j.tensors[1].size + j.tensors[2].size) % TWO32;
    bytes := bytes + 2 * j.quantizationCount * 4;
  }

  lemma WordProduct(a: nat, b: nat)
    requires a < TWO32 && b < TWO32
    ensures Times(a, b) < TWO64
  {
    TimesIsProduct(a, b);
    MulMonotone(a, TWO32 - 1, b);
  }

  lemma TimesThree(h: nat, w: nat, k: nat)
    ensures Times(h, Times(w, k)) == h * w * k
  {
    TimesIsProduct(w, k);
    TimesIsProduct(h, Times(w, k));
    assert h * (w * k) == h * w * k;
  }

  /** The taps per cell are at most the cells of the filter. */
  lemma TapsBound(s: Shape, k: nat)
    requires s.n >= 1 && k <= s.c
    ensures Times(s.h, Times(s.w, k)) <= Volume(s)
  {
    TimesThree(s.h, s.w, k);
    VolumeIs(s);
    FewerTaps(s.n, s.h * s.w, s.c, k);
  }

  lemma {:induction false} SameProduct(a: seq<Word>, b: seq<Word>, n: nat)
    requires n <= |a| && n <= |b| && forall i :: 0 <= i < n ==> a[i] == b[i]
    ensures Product(a, n) == Product(b, n)
  {
    if n > 0 { SameProduct(a, b, n - 1); }
  }

  lemma LastThree(f: seq<Word>, cells: nat)
    requires |f| == 7 && cells == Product(f, 4)
    ensures Product(f, 7) == Times(cells, Times(f[4], Times(f[5], f[6])))
  {
    var h, w, t := f[4] as nat, f[5] as nat, f[6] as nat;
    assert Product(f, 5) == cells * h;
    assert Product(f, 6) == cells * h * w;
    assert Product(f, 7) == cells * h * w * t;
    TimesThree(h, w, t);
    TimesIsProduct(cells, Times(h, Times(w, t)));
    Regrouped(cells, h, w, t);
  }

  lemma Regrouped(n: nat, h: nat, w: nat, t: nat)
    ensures n * h * w * t == n * (h * w * t)
  {
    assert n * (h * w * t) == n * (h * w) * t;
    assert n * (h * w) == n * h * w;
  }

  /** The 64-bit operation count of an accepted convolution does not wrap. */
  lemma OperationsFit(j: Job, depthwise: bool)
    requires CommonConvValid(j, depthwise) && j.tensors[1].size > 0 && j.tensors[3].size > 0
    ensures ConvOperations(j, depthwise) < TWO64
  {
    var filter, output, taps := j.tensors[1], j.tensors[3], if depthwise then 1 else j.tensors[0].dims[3];
    CountIsVolume(filter);
    TapsBound(ShapeOf(filter), taps);
    WordProduct(Count(output), Times(filter.dims[1], Times(filter.dims[2], taps)));
    var f := [output.dims[0], output.dims[1], output.dims[2], output.dims[3], filter.dims[1], filter.dims[2], taps];
    SameProduct(output.dims, f, 4);
    LastThree(f, Count(output));
  }

  lemma FactorWraps(a: nat, b: nat)
    ensures (a % TWO64) * b % TWO64 == a * b % TWO64
  {
    var q, r := a / TWO64, a % TWO64;
    assert a * b == (q * TWO64 + r) * b == (q * b) * TWO64 + r * b;
    QuotientIs(a * b, TWO64, q * b + r * b / TWO64, r * b % TWO64);
  }

  /** A product of words taken factor by factor in 64 bits. */
  method Multiply64(factors: seq<Word>) returns (count: nat)
    ensures count == Product(factors, |factors|) % TWO64
  {
    count := 1;
    for i := 0 to |factors|
      invariant count == Product(factors, i) % TWO64
    {
      FactorWraps(Product(factors, i), factors[i]);
      count := count * factors[i] % TWO64;
    }
  }

  method CountConv(j: Job, depthwise: bool) returns (count: nat)
    requires CommonConvValid(j, depthwise) && j.tensors[1].size > 0 && j.tensors[3].size > 0
    ensures count == ConvOperations(j, depthwise)
  {
    var filter, output := j.tensors[1].dims, j.tensors[3].dims;
    var factors := [output[0], output[1], output[2], output[3], filter[1], filter[2], if depthwise then 1 else j.tensors[0].dims[3]];
    count := Multiply64(factors);
    OperationsFit(j, depthwise);
  }

  /** Either convolution kernel on the memory. */
  method ConvolveJob(j: Job, base: nat, mem: array<Byte>, depthwise: bool) returns (ok: bool)
    requires BodyOk(j, base, mem.Length) && ConvAssumed(j, base, mem.Length, depthwise)
    modifies mem
    ensures ok <==> ConvRuns(j, base, old(mem[..]), depthwise)
    ensures ConvOutcome(j, base, old(mem[..]), mem[..], depthwise)
  {
    if j.tensorCount == 4 { assert TensorOk(j.tensors[0], base, mem.Length); }
    ok := CheckConv(j, depthwise);
    if !ok { return; }
    AcceptedIsSound(j, base, mem.Length, depthwise);
    ok := Convolve(Geometry(j, base, depthwise), mem);
  }
}
