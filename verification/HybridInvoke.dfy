/**
 One offloaded convolution from end to end: the firmware stages the client's buffers, rings
 the device, and copies the result out.  What comes out is the convolution of the client's
 own bytes.
 */
module HybridInvoke {
  import opened Arith
  import opened Bits
  import opened FixedPoint
  import opened Int8
  import opened Tensors
  import opened ConvMath
  import opened ConvOutput
  import opened HybridOperator
  import opened HybridMeaning
  import opened HybridDispatch
  import opened Staging
  import opened StagedConv

  // ---------------------------------------------------------------- the client's convolution

  /** What the kernels ask of the client: ranks, shapes that agree, strides and an activation range. */
  predicate ClientValid(c: Client, depthwise: bool) {
    && |c.input| == 4 && |c.filter| == 4 && |c.bias| == 1 && |c.output| == 4 && c.strideH != 0 && c.strideW != 0
    && c.output[0] == c.input[0] && -128 <= c.actMin <= c.actMax <= 127
    && (if depthwise then c.filter[0] == 1 && c.filter[3] == c.output[3] && c.input[3] > 0 && c.output[3] % c.input[3] == 0
        else c.filter[0] == c.output[3] && c.filter[3] == c.input[3])
  }

  /** The bias has an entry for every channel. */
  predicate BiasPerChannel(c: Client) { ClientSized(c) && |c.output| == 4 ==> Padded4(c.bias)[0] >= c.output[3] }

  function ClientLayer(c: Client, depthwise: bool): R.Layer
    requires ClientSized(c) && ClientValid(c, depthwise)
  {
    R.Layer(depthwise, c.input[1], c.input[2], c.input[3], c.filter[1], c.filter[2], c.output[3],
            c.strideH, c.strideW, c.padH, c.padW, c.inputZero, c.filterZero, c.outputZero, c.actMin, c.actMax)
  }

  function ClientOperands(c: Client): R.Operands { R.Operands(c.inputData, c.filterData, c.biasData, c.multipliers, c.shifts) }

  function OutputShape(c: Client): Shape
    requires ClientSized(c) && |c.output| == 4
  {
    Shape(c.output[0], c.output[1], c.output[2], c.output[3])
  }

  /** The client's buffers: input, filter, bias, output, multipliers, shifts. */
  function Buffers(c: Client): seq<seq<Byte>> { TensorDatas(c) + [c.multipliers, c.shifts] }

  // ---------------------------------------------------------------- the staged job is that convolution

  lemma {:induction false} PaddedProduct(dims: seq<Int32>, n: nat)
    requires |dims| <= MAX_DIMS && AllAbove(dims, |dims|) && n <= |dims|
    ensures Product(Padded4(dims), n) == ProductOf(dims, n) && AllPositive(Padded4(dims), n)
  {
    if n > 0 { PaddedProduct(dims, n - 1); }
  }

  lemma StagedCount(address: Word, dims: seq<Int32>, elementSize: nat, elementType: Word, zero: Int32)
    requires Sized(dims, elementSize) && elementSize > 0
    ensures Count(StagedTensor(address, dims, elementSize, elementType, zero)) == ProductOf(dims, |dims|) > 0
  {
    PaddedProduct(dims, |dims|);
    ProductOfGrows(dims, 0, |dims|);
    AtLeast(ProductOf(dims, |dims|), elementSize);
  }

  lemma AllCounts(j: Job, c: Client)
    requires TensorsFrom(j, c)
    ensures j.tensors[0].size == Count(j.tensors[0]) > 0 && j.tensors[1].size == Count(j.tensors[1]) > 0
    ensures j.tensors[2].size == 4 * Count(j.tensors[2]) > 0 && j.tensors[3].size == Count(j.tensors[3]) > 0
  {
    StagedCount(j.tensors[0].address, c.input, 1, INT8, c.inputZero);
    StagedCount(j.tensors[1].address, c.filter, 1, INT8, c.filterZero);
    StagedCount(j.tensors[2].address, c.bias, 4, INT32, 0);
    StagedCount(j.tensors[3].address, c.output, 1, INT8, c.outputZero);
  }

  /** The kernels accept the staged job exactly when the client is valid. */
  lemma ValidIff(j: Job, c: Client, depthwise: bool)
    requires FromClient(j, c) && j.tensorCount == 4
    ensures CommonConvValid(j, depthwise) <==> ClientValid(c, depthwise)
  {
    AllCounts(j, c);
  }

  /** Block `k` holds the client's buffer `k`. */
  lemma BlockBytes(m: seq<Byte>, blocks: seq<Block>, c: Client, k: nat, address: nat, size: nat)
    requires Contents(m, blocks, Buffers(c)) && InBlock(blocks, k, address, size)
    ensures k < |Buffers(c)| && Slice(m, address - EXTMEM_BASE, size) == Buffers(c)[k]
  {
    assert BlockHolds(m, blocks[k], Buffers(c)[k]);
  }

  /** All that staging leaves: the job is the client's, its blocks hold the client's buffers, and it validates. */
  predicate Ready(j: Job, c: Client, blocks: seq<Block>, m: seq<Byte>) {
    && FromClient(j, c) && Staged(j, blocks) && BiasCovers(j) && ClientOk(c) && StagedEnd(c) <= STAGING_SIZE
    && |m| == EXTMEM_SIZE && Contents(m, blocks, Buffers(c)) && BodyOk(j, EXTMEM_BASE, EXTMEM_SIZE)
  }

  lemma BuffersAre(c: Client)
    ensures var s := Buffers(c);
            |s| == 6 && s[0] == c.inputData && s[1] == c.filterData && s[2] == c.biasData && s[4] == c.multipliers && s[5] == c.shifts
  {}

  /** What the kernels read of the staged job are the client's buffers. */
  lemma StagedOperands(j: Job, c: Client, blocks: seq<Block>, m: seq<Byte>)
    requires Staged(j, blocks) && Contents(m, blocks, Buffers(c))
    ensures ConvOperands(j, EXTMEM_BASE, m) == ClientOperands(c)
  {
    BuffersAre(c);
    TensorBytesAre(j, c, blocks, m, 0);
    TensorBytesAre(j, c, blocks, m, 1);
    TensorBytesAre(j, c, blocks, m, 2);
    BlockBytes(m, blocks, c, 4, j.multiplierAddress, 4 * j.quantizationCount);
    BlockBytes(m, blocks, c, 5, j.shiftAddress, 4 * j.quantizationCount);
  }

  lemma TensorBytesAre(j: Job, c: Client, blocks: seq<Block>, m: seq<Byte>, k: nat)
    requires Staged(j, blocks) && Contents(m, blocks, Buffers(c)) && k < 4
    ensures |Buffers(c)| == 6 && Bytes(j.tensors[k], EXTMEM_BASE, m) == Buffers(c)[k]
  {
    assert Holds(j, blocks, k);
    BlockBytes(m, blocks, c, k, j.tensors[k].address, j.tensors[k].size);
  }

  lemma StagedLayer(j: Job, c: Client, depthwise: bool)
    requires FromClient(j, c) && ClientValid(c, depthwise)
    ensures ConvLayer(j, depthwise) == ClientLayer(c, depthwise) && ShapeOf(j.tensors[3]) == OutputShape(c)
  {}

  // ---------------------------------------------------------------- the call

  /** Not offloaded, refused by the device, or done with these output bytes. */
  datatype Result = NotTaken | Refused | Done(output: seq<Byte>)

  /** The device takes the convolution: the kernels accept it and every shift is in range. */
  predicate Takes(c: Client, depthwise: bool) {
    ClientSized(c) && ClientValid(c, depthwise) && ShiftsTaken(c.shifts, c.output[3])
  }

  /** Each output byte is its cell of the reference convolution of the client's buffers. */
  ghost predicate IsOutput(c: Client, depthwise: bool, output: seq<Byte>)
    requires Takes(c, depthwise)
  {
    && |output| == Volume(OutputShape(c))
    && AllReference(R.Wrapping, output, 0, OutputShape(c), ClientLayer(c, depthwise), ClientOperands(c))
  }

  /** The output tensor of a job, in memory. */
  function OutputOf(j: Job, m: seq<Byte>): seq<Byte>
    requires j.tensors[3].address >= EXTMEM_BASE && j.tensors[3].address - EXTMEM_BASE + j.tensors[3].size <= |m|
  {
    m[j.tensors[3].address - EXTMEM_BASE..j.tensors[3].address - EXTMEM_BASE + j.tensors[3].size]
  }

  lemma SliceByte(m: seq<Byte>, at: nat, n: nat, s: Shape, l: R.Layer, o: R.Operands, b: nat, y: nat, x: nat, c: nat)
    requires Within(s, b, y, x, c) && at + n <= |m| && n == Volume(s) && l.channels == s.c && ReferenceByte(R.Wrapping, m, at, l, o, s.h, s.w, b, y, x, c)
    ensures ReferenceByte(R.Wrapping, m[at..at + n], 0, l, o, s.h, s.w, b, y, x, c)
  {
    IndexInVolume(s, b, y, x, c);
    IndexIsProduct(s, b, y, x, c);
  }

  /** A tensor's own bytes. */
  lemma SliceBytes(m: seq<Byte>, at: nat, n: nat, s: Shape, l: R.Layer, o: R.Operands, own: seq<Byte>)
    requires at + n <= |m| && n == Volume(s) && l.channels == s.c && AllReference(R.Wrapping, m, at, s, l, o) && own == m[at..at + n]
    ensures AllReference(R.Wrapping, own, 0, s, l, o)
  {
    forall b: nat, y: nat, x: nat, c: nat | Within(s, b, y, x, c) ensures ReferenceByte(R.Wrapping, own, 0, l, o, s.h, s.w, b, y, x, c) {
      assert ReferenceByte(R.Wrapping, m, at, l, o, s.h, s.w, b, y, x, c);
      SliceByte(m, at, n, s, l, o, b, y, x, c);
    }
  }

  /** The device runs a staged job exactly when it takes the client's convolution. */
  lemma RunsIffTakes(j: Job, c: Client, blocks: seq<Block>, m: seq<Byte>, depthwise: bool)
    requires Ready(j, c, blocks, m) && ConvAssumed(j, EXTMEM_BASE, EXTMEM_SIZE, depthwise)
    ensures ConvRuns(j, EXTMEM_BASE, m, depthwise) <==> Takes(c, depthwise)
  {
    ValidIff(j, c, depthwise);
    ConvRunsIff(j, EXTMEM_BASE, m, depthwise);
    StagedOperands(j, c, blocks, m);
  }

  lemma StagedJobApart(j: Job, blocks: seq<Block>)
    requires Staged(j, blocks)
    ensures ConvApart(j)
  {
    OutputSeparate(j, blocks);
  }

  lemma OutputSize(j: Job, c: Client)
    requires FromClient(j, c)
    ensures j.tensors[3].size == Volume(OutputShape(c))
  {
    AllCounts(j, c);
    CountIsVolume(j.tensors[3]);
  }

  lemma MeansAre(j: Job, c: Client, blocks: seq<Block>, m: seq<Byte>, m': seq<Byte>, depthwise: bool, at: nat)
    requires FromClient(j, c) && Staged(j, blocks) && Contents(m, blocks, Buffers(c)) && ClientValid(c, depthwise)
    requires j.tensors[3].address == EXTMEM_BASE + at && ConvMeans(j, EXTMEM_BASE, m, m', depthwise)
    ensures AllReference(R.Wrapping, m', at, OutputShape(c), ClientLayer(c, depthwise), ClientOperands(c))
  {
    StagedOperands(j, c, blocks, m);
    StagedLayer(j, c, depthwise);
  }

  lemma OutputFrom(j: Job, c: Client, m: seq<Byte>, depthwise: bool, at: nat, own: seq<Byte>)
    requires Takes(c, depthwise) && j.tensors[3].address == EXTMEM_BASE + at && at + j.tensors[3].size <= |m| && own == OutputOf(j, m)
    requires j.tensors[3].size == Volume(OutputShape(c))
    requires AllReference(R.Wrapping, m, at, OutputShape(c), ClientLayer(c, depthwise), ClientOperands(c))
    ensures IsOutput(c, depthwise, own)
  {
    SliceBytes(m, at, j.tensors[3].size, OutputShape(c), ClientLayer(c, depthwise), ClientOperands(c), own);
  }

  lemma MeansIsOutput(j: Job, c: Client, blocks: seq<Block>, m: seq<Byte>, m': seq<Byte>, depthwise: bool)
    requires FromClient(j, c) && Staged(j, blocks) && Contents(m, blocks, Buffers(c)) && Takes(c, depthwise)
    requires j.tensors[3].address >= EXTMEM_BASE && j.tensors[3].address - EXTMEM_BASE + j.tensors[3].size <= |m'|
    requires ConvMeans(j, EXTMEM_BASE, m, m', depthwise)
    ensures IsOutput(c, depthwise, OutputOf(j, m'))
  {
    var at := j.tensors[3].address - EXTMEM_BASE;
    MeansAre(j, c, blocks, m, m', depthwise, at);
    OutputSize(j, c);
    OutputFrom(j, c, m', depthwise, at, OutputOf(j, m'));
  }

  lemma StagedRange(j: Job, blocks: seq<Block>)
    requires Staged(j, blocks)
    ensures j.tensors[3].address >= EXTMEM_BASE && j.tensors[3].address - EXTMEM_BASE + j.tensors[3].size <= EXTMEM_SIZE
  {
    assert Holds(j, blocks, 3);
  }

  lemma OutcomeSize(j: Job, base: nat, m: seq<Byte>, m': seq<Byte>, depthwise: bool)
    requires BodyOk(j, base, |m|) && ConvAssumed(j, base, |m|, depthwise) && ConvOutcome(j, base, m, m', depthwise)
    ensures |m'| == |m|
  {}

  lemma Concludes(j: Job, c: Client, blocks: seq<Block>, m: seq<Byte>, m': seq<Byte>, depthwise: bool)
    requires Ready(j, c, blocks, m) && ConvAssumed(j, EXTMEM_BASE, EXTMEM_SIZE, depthwise) && ConvOutcome(j, EXTMEM_BASE, m, m', depthwise)
    ensures ConvRuns(j, EXTMEM_BASE, m, depthwise) <==> Takes(c, depthwise)
    ensures Takes(c, depthwise) ==>
              && j.tensors[3].address >= EXTMEM_BASE && j.tensors[3].address - EXTMEM_BASE + j.tensors[3].size <= |m'|
              && IsOutput(c, depthwise, OutputOf(j, m'))
  {
    RunsIffTakes(j, c, blocks, m, depthwise);
    OutcomeSize(j, EXTMEM_BASE, m, m', depthwise);
    StagedRange(j, blocks);
    if Takes(c, depthwise) {
      StagedJobApart(j, blocks);
      ConvJobMeans(j, EXTMEM_BASE, m, m', depthwise);
      MeansIsOutput(j, c, blocks, m, m', depthwise);
    }
  }

  /** Ringing the device changes only the output, which lies in the arena. */
  lemma StillArena(j: Job, blocks: seq<Block>, m0: seq<Byte>, m: seq<Byte>, m': seq<Byte>)
    requires Staged(j, blocks) && |m| == EXTMEM_SIZE && ArenaOnly(m, m0) && (m' == m || OutputOnly(j, EXTMEM_BASE, m, m'))
    ensures ArenaOnly(m', m0)
  {
    assert Holds(j, blocks, 3);
  }

  /** The doorbell: the device dispatches the descriptor. */
  method Ring(mem: array<Byte>, d: Descriptor, depthwise: bool) returns (ok: bool)
    requires mem.Length == EXTMEM_SIZE && Validates(d, EXTMEM_BASE, EXTMEM_SIZE)
    requires d.opcode == (if depthwise then OP_DEPTHWISE_CONV_2D else OP_CONV_2D) && Assumed(d.opcode, d.job, EXTMEM_BASE, EXTMEM_SIZE)
    modifies mem
    ensures ok <==> ConvRuns(d.job, EXTMEM_BASE, old(mem[..]), depthwise)
    ensures ConvOutcome(d.job, EXTMEM_BASE, old(mem[..]), mem[..], depthwise)
    ensures mem[..] == old(mem[..]) || OutputOnly(d.job, EXTMEM_BASE, old(mem[..]), mem[..])
  {
    var device := new Device(EXTMEM_BASE, mem, d);
    ok := device.Dispatch(Outcome(false, mem[..], 0, 0, 0));
  }

  /** Ringing for a staged job leaves the client's convolution in its output tensor. */
  method RingStaged(mem: array<Byte>, d: Descriptor, c: Client, depthwise: bool, ghost blocks: seq<Block>) returns (ok: bool)
    requires Ready(d.job, c, blocks, mem[..]) && Validates(d, EXTMEM_BASE, EXTMEM_SIZE)
    requires d.opcode == (if depthwise then OP_DEPTHWISE_CONV_2D else OP_CONV_2D)
    modifies mem
    ensures ok <==> Takes(c, depthwise)
    ensures ok ==> d.job.tensors[3].address >= EXTMEM_BASE && d.job.tensors[3].address - EXTMEM_BASE + d.job.tensors[3].size <= mem.Length
    ensures ok ==> IsOutput(c, depthwise, OutputOf(d.job, mem[..]))
    ensures mem[..] == old(mem[..]) || OutputOnly(d.job, EXTMEM_BASE, old(mem[..]), mem[..])
  {
    ghost var m := mem[..];
    StagedAssumed(d, blocks);
    ok := Ring(mem, d, depthwise);
    Concludes(d.job, c, blocks, m, mem[..], depthwise);
  }

  /** The second half of the call: ring, and copy the output. */
  method Finish(mem: array<Byte>, d: Descriptor, c: Client, depthwise: bool, ghost blocks: seq<Block>) returns (r: Result)
    requires Ready(d.job, c, blocks, mem[..]) && Validates(d, EXTMEM_BASE, EXTMEM_SIZE)
    requires d.opcode == (if depthwise then OP_DEPTHWISE_CONV_2D else OP_CONV_2D)
    modifies mem
    ensures if Takes(c, depthwise) then r.Done? && IsOutput(c, depthwise, r.output) else r.Refused?
    ensures mem[..] == old(mem[..]) || OutputOnly(d.job, EXTMEM_BASE, old(mem[..]), mem[..])
  {
    var ok := RingStaged(mem, d, c, depthwise, blocks);
    if !ok { return Refused; }
    r := Done(OutputOf(d.job, mem[..]));
  }

  /**
   The call: not offloaded exactly when staging fails; otherwise done exactly when the
   device takes the client's convolution, and then with that convolution.
   */
  method Invoke(mem: array<Byte>, c: Client, depthwise: bool) returns (r: Result)
    requires mem.Length == EXTMEM_SIZE && ClientOk(c) && BiasPerChannel(c)
    modifies mem
    ensures r.NotTaken? <==> !(ClientSized(c) && StagedEnd(c) <= STAGING_SIZE)
    ensures !r.NotTaken? ==> (r.Done? <==> Takes(c, depthwise))
    ensures r.Done? ==> IsOutput(c, depthwise, r.output)
    ensures ArenaOnly(mem[..], old(mem[..]))
  {
    var staged, blocks := StageConv(mem, c, depthwise);
    if staged.None? { return NotTaken; }
    ghost var m := mem[..];
    r := Finish(mem, staged.value, c, depthwise, blocks);
    StillArena(staged.value.job, blocks, old(mem[..]), m, mem[..]);
  }

  /** With int8 zero points and coordinates that fit, the output is the exact convolution of the client's buffers. */
  lemma OutputIsMath(c: Client, depthwise: bool, output: seq<Byte>)
    requires Takes(c, depthwise) && IsOutput(c, depthwise, output)
    requires -128 <= c.inputZero <= 127 && -128 <= c.filterZero <= 127 && CoordinatesFit(ClientLayer(c, depthwise), c.output[1], c.output[2])
    ensures AllReference(R.Exact, output, 0, OutputShape(c), ClientLayer(c, depthwise), ClientOperands(c))
  {
    Int8ZeroPointsFit(c.inputZero, c.filterZero);
    AllExact(output, 0, OutputShape(c), ClientLayer(c, depthwise), ClientOperands(c));
  }
}
