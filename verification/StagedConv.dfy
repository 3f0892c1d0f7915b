/** Staging one convolution: every descriptor that is submitted validates, and dispatch may rely on it. */
module StagedConv {
  import opened Arith
  import opened Bits
  import opened FixedPoint
  import opened Int8
  import opened Tensors
  import opened HybridConv
  import opened HybridOperator
  import opened HybridDispatch
  import opened Staging
  import opened Wrappers

  /** Dimensions as the descriptor holds them: four words, zero beyond the rank. */
  function Padded4(dims: seq<Int32>): (r: seq<Word>)
    requires |dims| <= MAX_DIMS && AllAbove(dims, |dims|)
    ensures |r| == MAX_DIMS
  {
    seq(MAX_DIMS, i requires 0 <= i < MAX_DIMS => if i < |dims| then dims[i] as Word else 0)
  }

  function StagedTensor(address: Word, dims: seq<Int32>, elementSize: nat, elementType: Word, zero: Int32): Tensor
    requires Sized(dims, elementSize)
  {
    ProductOfGrows(dims, 0, |dims|);
    TensorData(address, elementSize * ProductOf(dims, |dims|), |dims|, Padded4(dims), elementType, zero)
  }

  /** The staging arena of an external memory. */
  ghost predicate Arena(alloc: Allocator, mem: array<Byte>)
    reads alloc
  {
    alloc.Valid() && alloc.base == EXTMEM_BASE + STAGING_OFFSET && alloc.size == STAGING_SIZE && mem.Length == EXTMEM_SIZE
  }

  /** Memory is as it was outside the arena. */
  predicate ArenaOnly(m: seq<Byte>, m0: seq<Byte>) { SameOutside(m, m0, STAGING_OFFSET, STAGING_SIZE) }

  /** The block holds these bytes. */
  predicate BlockHolds(m: seq<Byte>, b: Block, data: seq<Byte>) {
    && b.size == |data| && STAGING_OFFSET + b.offset + b.size <= |m|
    && m[STAGING_OFFSET + b.offset..STAGING_OFFSET + b.offset + b.size] == data
  }

  /** Each block holds its data. */
  predicate Contents(m: seq<Byte>, blocks: seq<Block>, datas: seq<seq<Byte>>) {
    |blocks| == |datas| && forall k :: 0 <= k < |blocks| ==> BlockHolds(m, blocks[k], datas[k])
  }

  method CopyIn(mem: array<Byte>, at: nat, data: seq<Byte>)
    requires at + |data| <= mem.Length
    modifies mem
    ensures mem[at..at + |data|] == data && SameOutside(mem[..], old(mem[..]), at, |data|)
  {
    ghost var m0 := mem[..];
    for i := 0 to |data|
      invariant forall k :: 0 <= k < i ==> mem[at + k] == data[k]
      invariant SameOutside(mem[..], m0, at, |data|)
    {
      ghost var m := mem[..];
      mem[at + i] := data[i];
      assert mem[..] == m[at + i := data[i]];
    }
  }

  /** Filling a later block leaves the earlier ones as they are. */
  lemma EarlierKept(m: seq<Byte>, m': seq<Byte>, b: Block, data: seq<Byte>, at: nat, n: nat)
    requires BlockHolds(m, b, data) && SameOutside(m', m, at, n) && STAGING_OFFSET + b.offset + b.size <= at
    ensures BlockHolds(m', b, data)
  {
    var lo := STAGING_OFFSET + b.offset;
    forall i | 0 <= i < |data| ensures m'[lo..lo + b.size][i] == data[i] {
      assert m[lo..lo + b.size][i] == m[lo + i];
    }
  }

  lemma ContentsGrow(m: seq<Byte>, m': seq<Byte>, blocks: seq<Block>, datas: seq<seq<Byte>>, b: Block, data: seq<Byte>)
    requires Contents(m, blocks, datas) && Layout(blocks + [b], STAGING_SIZE) && b.size == |data|
    requires SameOutside(m', m, STAGING_OFFSET + b.offset, b.size) && BlockHolds(m', b, data)
    ensures Contents(m', blocks + [b], datas + [data])
  {
    var all, bytes := blocks + [b], datas + [data];
    forall k | 0 <= k < |all| ensures BlockHolds(m', all[k], bytes[k]) {
      if k < |blocks| {
        assert all[k] == blocks[k] && all[|blocks|] == b;
        EarlierKept(m, m', blocks[k], datas[k], STAGING_OFFSET + b.offset, b.size);
      }
    }
  }

  /** The client's bytes are as many as its dimensions say. */
  predicate DataFor(dims: seq<Int32>, elementSize: nat, data: seq<Byte>) {
    Sized(dims, elementSize) ==> |data| == elementSize * ProductOf(dims, |dims|)
  }

  /**
   The client's tensor staged in slot `index`: one more block holding its bytes, and the
   descriptor's tensor set.  It succeeds exactly when the tensor has a size and room is left.
   */
  method StageTensor(alloc: Allocator, mem: array<Byte>, j: Job, index: nat, dims: seq<Int32>, data: seq<Byte>,
                     elementSize: Word, elementType: Word, zero: Int32, ghost datas: seq<seq<Byte>>)
    returns (ok: bool, j': Job)
    requires Arena(alloc, mem) && index < MAX_TENSORS && 0 < elementSize <= 16 && DataFor(dims, elementSize, data)
    requires Contents(mem[..], alloc.blocks, datas)
    modifies alloc, mem
    ensures Arena(alloc, mem) && ArenaOnly(mem[..], old(mem[..]))
    ensures ok <==> Sized(dims, elementSize) && EndOf(old(alloc.cursor), |data|, 16) <= STAGING_SIZE
    ensures ok ==> alloc.cursor == EndOf(old(alloc.cursor), |data|, 16) && Contents(mem[..], alloc.blocks, datas + [data])
    ensures ok ==> |alloc.blocks| == |old(alloc.blocks)| + 1 && alloc.blocks[..|old(alloc.blocks)|] == old(alloc.blocks)
    ensures ok ==> var b := alloc.blocks[|old(alloc.blocks)|];
                   && b.offset % 16 == 0 && alloc.base + b.offset < TWO32 && b.size == |data|
                   && j' == j.(tensors := j.tensors[index := StagedTensor(alloc.base + b.offset, dims, elementSize, elementType, zero)],
                               tensorCount := Max(j.tensorCount, index + 1))
    ensures !ok ==> j' == j && alloc.cursor == old(alloc.cursor) && alloc.blocks == old(alloc.blocks) && mem[..] == old(mem[..])
  {
    var bytes := TensorBytes(dims, elementSize);
    ghost var before := alloc.blocks;
    assert PowerOfTwo(16) by { SixteenIsPower(); }
    var address := alloc.Allocate(bytes, 16);
    if address == 0 { return false, j; }
    var tensor := StagedTensor(address, dims, elementSize, elementType, zero);
    j' := j.(tensors := j.tensors[index := tensor]);
    if j.tensorCount <= index { j' := j'.(tensorCount := index + 1); }
    CopyIn(mem, address - EXTMEM_BASE, data);
    ContentsGrow(old(mem[..]), mem[..], before, datas, Block(address - alloc.base, bytes), data);
    ok := true;
  }

  lemma SixteenIsPower()
    ensures PowerOfTwo(16) && PowerOfTwo(4)
  {
    assert PowerOfTwo(2);
    assert PowerOfTwo(4);
    assert PowerOfTwo(8);
  }

  datatype Client =
    Client(input: seq<Int32>, filter: seq<Int32>, bias: seq<Int32>, output: seq<Int32>,
           inputData: seq<Byte>, filterData: seq<Byte>, biasData: seq<Byte>, outputData: seq<Byte>,
           multipliers: seq<Byte>, shifts: seq<Byte>,
           inputZero: Int32, filterZero: Int32, outputZero: Int32, strideH: Word, strideW: Word, padH: Word, padW: Word,
           actMin: Int32, actMax: Int32)

  /** The client's buffers are as long as its dimensions say; both tables have a word per channel. */
  predicate ClientOk(c: Client) {
    && DataFor(c.input, 1, c.inputData) && DataFor(c.filter, 1, c.filterData) && DataFor(c.bias, 4, c.biasData)
    && DataFor(c.output, 1, c.outputData)
    && |c.output| == 4 && (Sized(c.output, 1) ==> |c.multipliers| == |c.shifts| == 4 * (c.output[3] as int))
  }

  /** Every tensor has a size. */
  predicate ClientSized(c: Client) { Sized(c.input, 1) && Sized(c.filter, 1) && Sized(c.bias, 4) && Sized(c.output, 1) }

  function TensorDatas(c: Client): seq<seq<Byte>> { [c.inputData, c.filterData, c.biasData, c.outputData] }

  /** The cursor after the four tensors, whether or not they fit. */
  function TensorsEnd(c: Client): nat {
    EndOf(EndOf(EndOf(EndOf(0, |c.inputData|, 16), |c.filterData|, 16), |c.biasData|, 16), |c.outputData|, 16)
  }

  /** The cursor after the two tables as well. */
  function StagedEnd(c: Client): nat { EndOf(EndOf(TensorsEnd(c), |c.multipliers|, 4), |c.shifts|, 4) }

  const EMPTY_JOB: Job := JobData(0, [NO_TENSOR, NO_TENSOR, NO_TENSOR, NO_TENSOR], 0, 0, 0, 0, 0, 0, 0, 0, 0, 0)

  /** Block `k` holds `size` bytes at `address`. */
  predicate InBlock(blocks: seq<Block>, k: nat, address: nat, size: nat) {
    k < |blocks| && address == EXTMEM_BASE + STAGING_OFFSET + blocks[k].offset && size == blocks[k].size
  }

  /** The four tensors and the two tables lie in six blocks of one staging arena. */
  predicate Staged(j: Job, blocks: seq<Block>) {
    && |blocks| == 6 && Layout(blocks, STAGING_SIZE)
    && (forall k :: 0 <= k < 4 ==> Holds(j, blocks, k))
    && InBlock(blocks, 4, j.multiplierAddress, 4 * j.quantizationCount)
    && InBlock(blocks, 5, j.shiftAddress, 4 * j.quantizationCount)
    && j.tensorCount == 4
  }

  /** A staged job in a submitted descriptor passes every test of the validator. */
  lemma StagedValidates(d: Descriptor, blocks: seq<Block>)
    requires Staged(d.job, blocks)
    requires d.magic == MAGIC && d.version == VERSION && d.descriptorSize == DESCRIPTOR_SIZE && d.executionMode == MODE_HYBRID
    requires d.state == STATE_SUBMITTED
    ensures Validates(d, EXTMEM_BASE, EXTMEM_SIZE)
  {
    forall i | 0 <= i < 4 ensures TensorOk(d.job.tensors[i], EXTMEM_BASE, EXTMEM_SIZE) {
      assert Holds(d.job, blocks, i);
    }
  }

  /** What two blocks hold does not overlap. */
  lemma BlocksApart(blocks: seq<Block>, i: nat, k: nat, a: nat, n: nat, b: nat, m: nat)
    requires Layout(blocks, STAGING_SIZE) && i != k && InBlock(blocks, i, a, n) && InBlock(blocks, k, b, m)
    ensures Apart(a, n, b, m)
  {}

  /** The descriptor lies below the arena, so no block overlaps it. */
  lemma DescriptorApart(blocks: seq<Block>, k: nat, a: nat, n: nat)
    requires InBlock(blocks, k, a, n)
    ensures Apart(a, n, EXTMEM_BASE + DESCRIPTOR_OFFSET, DESCRIPTOR_SIZE)
  {}

  /** The output overlaps no input, no table and not the descriptor. */
  lemma OutputSeparate(j: Job, blocks: seq<Block>)
    requires Staged(j, blocks)
    ensures var at, n := j.tensors[3].address, j.tensors[3].size;
            && (forall k :: 0 <= k < 3 ==> Apart(at, n, j.tensors[k].address, j.tensors[k].size))
            && Apart(at, n, j.multiplierAddress, 4 * j.quantizationCount) && Apart(at, n, j.shiftAddress, 4 * j.quantizationCount)
            && Apart(at, n, EXTMEM_BASE + DESCRIPTOR_OFFSET, DESCRIPTOR_SIZE)
  {
    var at, n := j.tensors[3].address, j.tensors[3].size;
    assert Holds(j, blocks, 3);
    forall k | 0 <= k < 3 ensures Apart(at, n, j.tensors[k].address, j.tensors[k].size) {
      assert Holds(j, blocks, k);
      BlocksApart(blocks, 3, k, at, n, j.tensors[k].address, j.tensors[k].size);
    }
    BlocksApart(blocks, 3, 4, at, n, j.multiplierAddress, 4 * j.quantizationCount);
    BlocksApart(blocks, 3, 5, at, n, j.shiftAddress, 4 * j.quantizationCount);
    DescriptorApart(blocks, 3, at, n);
  }

  /** All that dispatch assumes holds of a staged job whose bias has an entry per channel, whatever the opcode. */
  lemma StagedAssumed(d: Descriptor, blocks: seq<Block>)
    requires Staged(d.job, blocks) && BiasCovers(d.job)
    ensures Assumed(d.opcode, d.job, EXTMEM_BASE, EXTMEM_SIZE)
  {
    var j, depthwise := d.job, Depthwise(d.opcode);
    if BodyOk(j, EXTMEM_BASE, EXTMEM_SIZE) && CommonConvValid(j, depthwise) { StagedApart(j, blocks, depthwise); }
  }

  /** The staged output overlaps nothing the kernel reads. */
  lemma StagedApart(j: Job, blocks: seq<Block>, depthwise: bool)
    requires Staged(j, blocks) && BiasCovers(j) && BodyOk(j, EXTMEM_BASE, EXTMEM_SIZE) && CommonConvValid(j, depthwise)
    ensures forall i :: 0 <= i < 4 ==> j.tensors[i].address >= EXTMEM_BASE
    ensures j.multiplierAddress >= EXTMEM_BASE && j.shiftAddress >= EXTMEM_BASE
    ensures OutputApart(Geometry(j, EXTMEM_BASE, depthwise))
  {
    AcceptedIsSound(j, EXTMEM_BASE, EXTMEM_SIZE, depthwise);
    OutputSeparate(j, blocks);
    TensorVolume(j.tensors[0]);
    TensorVolume(j.tensors[1]);
    TensorVolume(j.tensors[3]);
    BiasSize(j.tensors[2]);
  }

  lemma TensorVolume(t: Tensor)
    requires t.rank == 4 && t.size == Count(t) && t.size > 0
    ensures Volume(ShapeOf(t)) == t.size
  {
    CountIsVolume(t);
  }

  /** Tensor `k` sits in block `k`, with a rank and a type the validator takes. */
  predicate Holds(j: Job, blocks: seq<Block>, k: nat)
    requires k < 4
  {
    && InBlock(blocks, k, j.tensors[k].address, j.tensors[k].size)
    && 0 < j.tensors[k].rank <= MAX_DIMS && (j.tensors[k].elementType == INT8 || j.tensors[k].elementType == INT32)
  }

  /** The first `n` tensors are staged. */
  predicate HoldsUpTo(j: Job, blocks: seq<Block>, n: nat)
    requires n <= 4
  {
    |blocks| == n && j.tensorCount == n && forall k :: 0 <= k < n ==> Holds(j, blocks, k)
  }

  method StageNext(alloc: Allocator, mem: array<Byte>, j: Job, n: nat, dims: seq<Int32>, data: seq<Byte>,
                   elementSize: Word, elementType: Word, zero: Int32, ghost datas: seq<seq<Byte>>)
    returns (ok: bool, j': Job)
    requires Arena(alloc, mem) && n < 4 && HoldsUpTo(j, alloc.blocks, n) && Contents(mem[..], alloc.blocks, datas)
    requires 0 < elementSize <= 16 && (elementType == INT8 || elementType == INT32) && DataFor(dims, elementSize, data)
    modifies alloc, mem
    ensures Arena(alloc, mem) && ArenaOnly(mem[..], old(mem[..]))
    ensures ok <==> Sized(dims, elementSize) && EndOf(old(alloc.cursor), |data|, 16) <= STAGING_SIZE
    ensures ok ==> alloc.cursor == EndOf(old(alloc.cursor), |data|, 16) && Contents(mem[..], alloc.blocks, datas + [data])
    ensures ok ==> HoldsUpTo(j', alloc.blocks, n + 1) && Sized(dims, elementSize) && 0 <= |data| < TWO32
    ensures ok ==> j'.tensors[n] == StagedTensor(j'.tensors[n].address, dims, elementSize, elementType, zero)
    ensures ok ==> forall k :: 0 <= k < 4 && k != n ==> j'.tensors[k] == j.tensors[k]
  {
    ghost var before := alloc.blocks;
    ok, j' := StageTensor(alloc, mem, j, n, dims, data, elementSize, elementType, zero, datas);
    if ok {
      forall k | 0 <= k < n + 1 ensures Holds(j', alloc.blocks, k) {
        if k < n {
          assert Holds(j, before, k);
          assert alloc.blocks[k] == alloc.blocks[..n][k];
        }
      }
    }
  }

  /** The four tensors of a job are the client's. */
  predicate TensorsFrom(j: Job, c: Client) {
    && ClientSized(c)
    && j.tensors[0] == StagedTensor(j.tensors[0].address, c.input, 1, INT8, c.inputZero)
    && j.tensors[1] == StagedTensor(j.tensors[1].address, c.filter, 1, INT8, c.filterZero)
    && j.tensors[2] == StagedTensor(j.tensors[2].address, c.bias, 4, INT32, 0)
    && j.tensors[3] == StagedTensor(j.tensors[3].address, c.output, 1, INT8, c.outputZero)
  }

  /** The whole job is the client's. */
  predicate FromClient(j: Job, c: Client) {
    && TensorsFrom(j, c) && |c.output| == 4 && j.quantizationCount == c.output[3]
    && j.strideH == c.strideH && j.strideW == c.strideW && j.padH == c.padH && j.padW == c.padW
    && j.outputZero == c.outputZero && j.actMin == c.actMin && j.actMax == c.actMax
  }

  /** All four tensors are staged exactly when each has a size and the last one still fits. */
  method StageFour(alloc: Allocator, mem: array<Byte>, c: Client) returns (ok: bool, j: Job)
    requires Arena(alloc, mem) && alloc.blocks == [] && alloc.cursor == 0 && ClientOk(c)
    modifies alloc, mem
    ensures Arena(alloc, mem) && ArenaOnly(mem[..], old(mem[..]))
    ensures ok <==> ClientSized(c) && TensorsEnd(c) <= STAGING_SIZE
    ensures ok ==> HoldsUpTo(j, alloc.blocks, 4) && TensorsFrom(j, c)
    ensures ok ==> alloc.cursor == TensorsEnd(c) && Contents(mem[..], alloc.blocks, TensorDatas(c))
  {
    j := EMPTY_JOB;
    ok, j := StageNext(alloc, mem, j, 0, c.input, c.inputData, 1, INT8, c.inputZero, []);
    if !ok { return; }
    ok, j := StageNext(alloc, mem, j, 1, c.filter, c.filterData, 1, INT8, c.filterZero, [c.inputData]);
    if !ok { return; }
    ok, j := StageNext(alloc, mem, j, 2, c.bias, c.biasData, 4, INT32, 0, [c.inputData, c.filterData]);
    if !ok { return; }
    ok, j := StageNext(alloc, mem, j, 3, c.output, c.outputData, 1, INT8, c.outputZero, [c.inputData, c.filterData, c.biasData]);
  }

  /** The multipliers and the shifts after the tensors. */
  method StageTables(alloc: Allocator, mem: array<Byte>, c: Client, channels: Word) returns (ok: bool, multipliers: Word, shifts: Word)
    requires Arena(alloc, mem) && |alloc.blocks| == 4 && Contents(mem[..], alloc.blocks, TensorDatas(c))
    requires 0 < 4 * channels < TWO32 && |c.multipliers| == 4 * channels == |c.shifts|
    modifies alloc, mem
    ensures Arena(alloc, mem) && ArenaOnly(mem[..], old(mem[..]))
    ensures ok <==> EndOf(EndOf(old(alloc.cursor), 4 * channels, 4), 4 * channels, 4) <= STAGING_SIZE
    ensures ok ==> |alloc.blocks| == 6 && alloc.blocks[..4] == old(alloc.blocks)
    ensures ok ==> InBlock(alloc.blocks, 4, multipliers, 4 * channels) && InBlock(alloc.blocks, 5, shifts, 4 * channels)
    ensures ok ==> Contents(mem[..], alloc.blocks, TensorDatas(c) + [c.multipliers, c.shifts])
  {
    var bytes: Word := 4 * channels;
    SixteenIsPower();
    ghost var four := alloc.blocks;
    multipliers := alloc.Allocate(bytes, 4);
    shifts := alloc.Allocate(bytes, 4);
    ok := multipliers != 0 && shifts != 0;
    if !ok { return; }
    FillTables(alloc, mem, c, multipliers, shifts, four);
  }

  method FillTables(alloc: Allocator, mem: array<Byte>, c: Client, multipliers: Word, shifts: Word, ghost four: seq<Block>)
    requires Arena(alloc, mem) && |four| == 4 && Contents(mem[..], four, TensorDatas(c))
    requires multipliers >= alloc.base && shifts >= alloc.base
    requires alloc.blocks == four + [Block(multipliers - alloc.base, |c.multipliers|), Block(shifts - alloc.base, |c.shifts|)]
    modifies mem
    ensures ArenaOnly(mem[..], old(mem[..])) && Contents(mem[..], alloc.blocks, TensorDatas(c) + [c.multipliers, c.shifts])
  {
    ghost var first, second := Block(multipliers - alloc.base, |c.multipliers|), Block(shifts - alloc.base, |c.shifts|);
    assert alloc.blocks[4] == first && alloc.blocks[5] == second;
    ghost var m0 := mem[..];
    CopyIn(mem, multipliers - EXTMEM_BASE, c.multipliers);
    assert Layout(four + [first], STAGING_SIZE) by { LayoutPrefix(alloc.blocks, four + [first], STAGING_SIZE); }
    ContentsGrow(m0, mem[..], four, TensorDatas(c), first, c.multipliers);
    ghost var m1 := mem[..];
    CopyIn(mem, shifts - EXTMEM_BASE, c.shifts);
    assert alloc.blocks == four + [first] + [second];
    ContentsGrow(m1, mem[..], four + [first], TensorDatas(c) + [c.multipliers], second, c.shifts);
    assert TensorDatas(c) + [c.multipliers] + [c.shifts] == TensorDatas(c) + [c.multipliers, c.shifts];
  }

  lemma LayoutPrefix(blocks: seq<Block>, front: seq<Block>, cursor: nat)
    requires Layout(blocks, cursor) && front <= blocks
    ensures Layout(front, cursor)
  {}

  /**
   Stage a convolution, then fill and submit its descriptor.  It succeeds exactly when every
   tensor has a size and the blocks, each rounded up to its alignment, fit the arena.
   */
  method StageConv(mem: array<Byte>, c: Client, depthwise: bool) returns (r: Option<Descriptor>, ghost blocks: seq<Block>)
    requires mem.Length == EXTMEM_SIZE && ClientOk(c)
    modifies mem
    ensures r.Some? <==> ClientSized(c) && StagedEnd(c) <= STAGING_SIZE
    ensures ArenaOnly(mem[..], old(mem[..]))
    ensures r.Some? ==>
              && r.value.opcode == (if depthwise then OP_DEPTHWISE_CONV_2D else OP_CONV_2D)
              && Staged(r.value.job, blocks) && Validates(r.value, EXTMEM_BASE, EXTMEM_SIZE)
              && Contents(mem[..], blocks, TensorDatas(c) + [c.multipliers, c.shifts])
              && FromClient(r.value.job, c)
  {
    var alloc := new Allocator();
    blocks := [];
    var ok, j := StageFour(alloc, mem, c);
    if !ok { return None, blocks; }
    ghost var four := alloc.blocks;
    ChannelsBelow(c.output);
    assert Holds(j, four, 3);
    assert four[3].size == |c.outputData| by { assert BlockHolds(mem[..], four[3], TensorDatas(c)[3]); }
    var channels: Word := c.output[3];
    var multipliers, shifts;
    ok, multipliers, shifts := StageTables(alloc, mem, c, channels);
    if !ok { return None, blocks; }
    blocks := alloc.blocks;
    var staged := j.(multiplierAddress := multipliers, shiftAddress := shifts, quantizationCount := channels,
                     outputZero := c.outputZero, actMin := c.actMin, actMax := c.actMax,
                     strideH := c.strideH, strideW := c.strideW, padH := c.padH, padW := c.padW);
    StagedFromFour(j, staged, four, blocks);
    var opcode := if depthwise then OP_DEPTHWISE_CONV_2D else OP_CONV_2D;
    var d := Descriptor(MAGIC, VERSION, DESCRIPTOR_SIZE, opcode, STATE_SUBMITTED, ERROR_NONE, MODE_HYBRID, staged, 0, 0, 0, 0);
    StagedValidates(d, blocks);
    r := Some(d);
  }

  lemma StagedFromFour(j: Job, staged: Job, four: seq<Block>, blocks: seq<Block>)
    requires HoldsUpTo(j, four, 4) && |blocks| == 6 && blocks[..4] == four && Layout(blocks, STAGING_SIZE)
    requires staged.tensors == j.tensors && staged.tensorCount == j.tensorCount
    requires InBlock(blocks, 4, staged.multiplierAddress, 4 * staged.quantizationCount)
    requires InBlock(blocks, 5, staged.shiftAddress, 4 * staged.quantizationCount)
    ensures Staged(staged, blocks)
  {
    forall k | 0 <= k < 4 ensures Holds(staged, blocks, k) {
      assert Holds(j, four, k);
      assert blocks[k] == blocks[..4][k];
    }
  }

  /** The channels are no more than the bytes of the output. */
  lemma ChannelsBelow(dims: seq<Int32>)
    requires |dims| == 4 && Sized(dims, 1)
    ensures dims[3] <= ProductOf(dims, 4)
  {
    ProductOfGrows(dims, 3, 3);
    Scales(1, ProductOf(dims, 3), dims[3]);
  }
}
