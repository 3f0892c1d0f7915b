/** What the matrix product, fully connected and addition entry points accept and leave. */
module DenseOperator {
  import opened Bits
  import opened Tensors
  import opened HybridDense
  import opened HybridOperator
  import opened Wrappers

  // ---------------------------------------------------------------- the shared tests

  /** The tensor's byte size is its element count, in 32 bits. */
  predicate SizeMatches(t: Tensor, elementSize: nat)
    requires elementSize > 0
  {
    Count(t) != 0 && Count(t) <= (TWO32 - 1) / elementSize && t.size == Count(t) * elementSize
  }

  method TensorBytesMatch(t: Tensor, elementSize: nat) returns (ok: bool)
    requires elementSize > 0
    ensures ok <==> SizeMatches(t, elementSize)
  {
    var count := ElementCount(t);
    ok := count != 0 && count <= (TWO32 - 1) / elementSize && t.size == count * elementSize;
  }

  predicate ActivationOk(j: Job) { -128 <= j.actMin <= j.actMax <= 127 }

  predicate Matrix(t: Tensor) { t.elementType == INT8 && t.rank == 2 && SizeMatches(t, 1) }

  predicate BiasVector(t: Tensor) { t.elementType == INT32 && t.rank == 1 && SizeMatches(t, 4) }

  method IsMatrix(t: Tensor) returns (ok: bool)
    ensures ok <==> Matrix(t)
  {
    ok := TensorBytesMatch(t, 1);
    ok := ok && t.elementType == INT8 && t.rank == 2;
  }

  // ---------------------------------------------------------------- matrix product and fully connected

  /** The output comes last; a fully connected layer may have a bias before it. */
  predicate DenseCount(j: Job, connected: bool) { j.tensorCount == 3 || (connected && j.tensorCount == 4) }

  /** The accepted jobs: a product of matrices, or, when `connected`, of a matrix and a transposed one plus a bias. */
  predicate DenseValid(j: Job, connected: bool) {
    && DenseCount(j, connected)
    && var lhs, rhs, output := j.tensors[0], j.tensors[1], j.tensors[j.tensorCount - 1];
       && Matrix(lhs) && Matrix(rhs) && Matrix(output) && output.dims[0] == lhs.dims[0] && ActivationOk(j)
       && (if connected then rhs.dims[1] == lhs.dims[1] && output.dims[1] == rhs.dims[0]
           else rhs.dims[0] == lhs.dims[1] && output.dims[1] == rhs.dims[1])
       && (j.tensorCount == 4 ==> BiasVector(j.tensors[2]) && j.tensors[2].dims[0] == output.dims[1])
  }

  method CheckDense(j: Job, connected: bool) returns (ok: bool)
    ensures ok <==> DenseValid(j, connected)
  {
    if j.tensorCount < 3 || j.tensorCount > (if connected then 4 else 3) { return false; }
    var lhs, rhs, output := j.tensors[0], j.tensors[1], j.tensors[j.tensorCount - 1];
    var left := IsMatrix(lhs);
    var right := IsMatrix(rhs);
    var out := IsMatrix(output);
    if !left || !right || !out { return false; }
    var hasBias := j.tensorCount == 4;
    if hasBias {
      var bias := j.tensors[2];
      var sized := TensorBytesMatch(bias, 4);
      if bias.elementType != INT32 || bias.rank != 1 || !sized { return false; }
    }
    var outputDepth := if connected then rhs.dims[0] else rhs.dims[1];
    var inner := if connected then rhs.dims[1] else rhs.dims[0];
    if inner != lhs.dims[1] || output.dims[0] != lhs.dims[0] || output.dims[1] != outputDepth ||
       j.actMin < -128 || j.actMax > 127 || j.actMin > j.actMax ||
       (hasBias && j.tensors[2].dims[0] != outputDepth) {
      return false;
    }
    ok := true;
  }

  /** The product a descriptor describes, relative to the memory's base address. */
  function DenseGeometry(j: Job, base: nat, connected: bool): Dense
    requires DenseCount(j, connected) && forall i :: 0 <= i < j.tensorCount ==> j.tensors[i].address >= base
  {
    var lhs, rhs, output := j.tensors[0], j.tensors[1], j.tensors[j.tensorCount - 1];
    Dense(lhs.dims[0], output.dims[1], lhs.dims[1], connected, lhs.address - base, rhs.address - base, output.address - base,
          if j.tensorCount == 4 then Some(j.tensors[2].address - base) else None,
          lhs.zeroPoint, rhs.zeroPoint, j.outputZero, j.actMin, j.actMax)
  }

  lemma MatrixSize(t: Tensor)
    requires Matrix(t)
    ensures t.size == Times(t.dims[0], t.dims[1])
  {
    TimesIsProduct(t.dims[0], t.dims[1]);
    assert Product(t.dims, 1) == Product(t.dims, 0) * t.dims[0];
    assert Product(t.dims, 2) == Product(t.dims, 1) * t.dims[1];
  }

  lemma VectorSize(t: Tensor)
    requires BiasVector(t)
    ensures t.size == 4 * t.dims[0]
  {
    BiasSize(t);
  }

  /** An accepted job keeps every access inside memory, with no further assumption. */
  lemma DenseIsSound(j: Job, base: nat, capacity: nat, connected: bool)
    requires BodyOk(j, base, capacity) && DenseValid(j, connected)
    ensures forall i :: 0 <= i < j.tensorCount ==> j.tensors[i].address >= base
    ensures var g := DenseGeometry(j, base, connected);
            && DenseSound(g, capacity)
            && Times(g.rows, g.depth) == j.tensors[0].size && RhsSize(g) == j.tensors[1].size
            && Times(g.rows, g.cols) == j.tensors[j.tensorCount - 1].size
            && (g.biasAt.Some? ==> 4 * g.cols == j.tensors[2].size)
  {
    forall i | 0 <= i < j.tensorCount ensures TensorOk(j.tensors[i], base, capacity) {}
    MatrixSize(j.tensors[0]);
    MatrixSize(j.tensors[1]);
    MatrixSize(j.tensors[j.tensorCount - 1]);
    if j.tensorCount == 4 { VectorSize(j.tensors[2]); }
  }

  /** From memory `m` to memory `m'`: the product when it is accepted, nothing otherwise. */
  ghost predicate DenseOutcome(j: Job, base: nat, m: seq<Byte>, m': seq<Byte>, connected: bool)
    requires BodyOk(j, base, |m|)
  {
    if DenseValid(j, connected) then
      DenseIsSound(j, base, |m|, connected);
      var g := DenseGeometry(j, base, connected);
      m' == DenseRun(g, m, g.rows, 0)
    else m' == m
  }

  /** One operation per output and element of the dot product. */
  function DenseOperations(j: Job): nat
    requires 3 <= j.tensorCount <= 4
  {
    Product([j.tensors[0].dims[0], j.tensors[j.tensorCount - 1].dims[1], j.tensors[0].dims[1]], 3)
  }

  function DenseBytesRead(j: Job): nat {
    (j.tensors[0].size + j.tensors[1].size + if j.tensorCount == 4 then j.tensors[2].size else 0) % TWO32
  }

  method CountDenseBytes(j: Job) returns (bytes: nat)
    ensures bytes == DenseBytesRead(j)
  {
    bytes := j.tensors[0].size + j.tensors[1].size;
    if j.tensorCount == 4 { bytes := bytes + j.tensors[2].size; }
    bytes := bytes % TWO32;
  }

  /** The 64-bit operation count does not wrap. */
  lemma DenseOperationsFit(j: Job, connected: bool)
    requires DenseValid(j, connected)
    ensures DenseOperations(j) < TWO64
  {
    var output, depth := j.tensors[j.tensorCount - 1], j.tensors[0].dims[1];
    var f := [output.dims[0], output.dims[1], depth];
    SameProduct(output.dims, f, 2);
    assert Product(f, 3) == Product(f, 2) * depth;
    WordProduct(Count(output), depth);
    TimesIsProduct(Count(output), depth);
  }

  method CountDense(j: Job, connected: bool) returns (count: nat)
    requires DenseValid(j, connected)
    ensures count == DenseOperations(j)
  {
    count := Multiply64([j.tensors[0].dims[0], j.tensors[j.tensorCount - 1].dims[1], j.tensors[0].dims[1]]);
    DenseOperationsFit(j, connected);
  }

  /** The matrix product, or the fully connected kernel, on the memory. */
  method MultiplyJob(j: Job, base: nat, mem: array<Byte>, connected: bool) returns (ok: bool)
    requires BodyOk(j, base, mem.Length)
    modifies mem
    ensures ok <==> DenseValid(j, connected)
    ensures DenseOutcome(j, base, old(mem[..]), mem[..], connected)
  {
    ok := CheckDense(j, connected);
    if !ok { return; }
    DenseIsSound(j, base, mem.Length, connected);
    Multiply(DenseGeometry(j, base, connected), mem);
  }

  // ---------------------------------------------------------------- addition

  predicate SameShape(a: Tensor, b: Tensor)
    requires a.rank <= MAX_DIMS
  {
    a.rank == b.rank && forall i :: 0 <= i < a.rank ==> a.dims[i] == b.dims[i]
  }

  method ShapesAgree(a: Tensor, b: Tensor) returns (same: bool)
    requires a.rank <= MAX_DIMS
    ensures same <==> SameShape(a, b)
  {
    if a.rank != b.rank { return false; }
    for i := 0 to a.rank
      invariant forall k :: 0 <= k < i ==> a.dims[k] == b.dims[k]
    {
      if a.dims[i] != b.dims[i] { return false; }
    }
    same := true;
  }

  predicate Bytes8(t: Tensor) { t.elementType == INT8 && SizeMatches(t, 1) }

  predicate AddValid(j: Job) {
    && j.tensorCount == 3 && j.tensors[0].rank <= MAX_DIMS
    && Bytes8(j.tensors[0]) && Bytes8(j.tensors[1]) && Bytes8(j.tensors[2])
    && SameShape(j.tensors[0], j.tensors[1]) && SameShape(j.tensors[0], j.tensors[2]) && ActivationOk(j)
  }

  method CheckAdd(j: Job) returns (ok: bool)
    requires j.tensorCount == 3 ==> j.tensors[0].rank <= MAX_DIMS
    ensures ok <==> AddValid(j)
  {
    if j.tensorCount != 3 || j.tensors[0].elementType != INT8 || j.tensors[1].elementType != INT8 || j.tensors[2].elementType != INT8 {
      return false;
    }
    var second := ShapesAgree(j.tensors[0], j.tensors[1]);
    var third := ShapesAgree(j.tensors[0], j.tensors[2]);
    var sized0 := TensorBytesMatch(j.tensors[0], 1);
    var sized1 := TensorBytesMatch(j.tensors[1], 1);
    var sized2 := TensorBytesMatch(j.tensors[2], 1);
    ok := second && third && sized0 && sized1 && sized2 && j.actMin >= -128 && j.actMax <= 127 && j.actMin <= j.actMax;
  }

  lemma SameCount(a: Tensor, b: Tensor)
    requires a.rank <= MAX_DIMS && SameShape(a, b)
    ensures Count(a) == Count(b)
  {
    SameProduct(a.dims, b.dims, a.rank);
  }

  function SumGeometry(j: Job, base: nat): Sum
    requires j.tensorCount == 3 && forall i :: 0 <= i < 3 ==> j.tensors[i].address >= base
  {
    var lhs, rhs, output := j.tensors[0], j.tensors[1], j.tensors[2];
    Sum(Count(output), lhs.address - base, rhs.address - base, output.address - base,
        lhs.zeroPoint, rhs.zeroPoint, j.outputZero, j.actMin, j.actMax)
  }

  lemma AddIsSound(j: Job, base: nat, capacity: nat)
    requires BodyOk(j, base, capacity) && AddValid(j)
    ensures forall i :: 0 <= i < 3 ==> j.tensors[i].address >= base
    ensures SumSound(SumGeometry(j, base), capacity) && SumGeometry(j, base).count == j.tensors[2].size
  {
    forall i | 0 <= i < 3 ensures TensorOk(j.tensors[i], base, capacity) {}
    SameCount(j.tensors[0], j.tensors[1]);
    SameCount(j.tensors[0], j.tensors[2]);
  }

  ghost predicate AddOutcome(j: Job, base: nat, m: seq<Byte>, m': seq<Byte>)
    requires BodyOk(j, base, |m|)
  {
    if AddValid(j) then
      AddIsSound(j, base, |m|);
      var g := SumGeometry(j, base);
      m' == AddRun(g, m, g.count)
    else m' == m
  }

  /** The addition on the memory. */
  method AddJob(j: Job, base: nat, mem: array<Byte>) returns (ok: bool)
    requires BodyOk(j, base, mem.Length)
    modifies mem
    ensures ok <==> AddValid(j)
    ensures AddOutcome(j, base, old(mem[..]), mem[..])
  {
    if j.tensorCount == 3 { assert TensorOk(j.tensors[0], base, mem.Length); }
    ok := CheckAdd(j);
    if !ok { return; }
    AddIsSound(j, base, mem.Length);
    Add(SumGeometry(j, base), mem);
  }
}
