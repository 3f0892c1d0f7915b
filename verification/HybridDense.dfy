/**
 The int8 matrix product, fully connected and addition kernels on external memory.  They
 accumulate in 32 bits, so each is related to the exact sum modulo 2^32 and, where it fits, to
 the exact sum itself.
 */
module HybridDense {
  import opened Bits
  import opened FixedPoint
  import opened Int8
  import opened Tensors
  import opened Wrappers

  /** `rows` by `cols` dot products of length `depth`; `byOutput` when the right operand has a row per output. */
  datatype Dense = Dense(rows: nat, cols: nat, depth: nat, byOutput: bool,
                         lhsAt: nat, rhsAt: nat, outAt: nat, biasAt: Option<nat>,
                         lhsZero: int, rhsZero: int, outZero: int, actMin: int, actMax: int)

  function RhsSize(g: Dense): nat { if g.byOutput then Times(g.cols, g.depth) else Times(g.depth, g.cols) }

  predicate DenseSound(g: Dense, size: nat) {
    && g.lhsAt + Times(g.rows, g.depth) <= size && g.rhsAt + RhsSize(g) <= size && g.outAt + Times(g.rows, g.cols) <= size
    && (g.biasAt.Some? ==> g.biasAt.value + 4 * g.cols <= size) && -128 <= g.actMin <= g.actMax <= 127
  }

  /** The output overlaps nothing the kernel reads. */
  predicate DenseApart(g: Dense) {
    var n := Times(g.rows, g.cols);
    && Apart(g.outAt, n, g.lhsAt, Times(g.rows, g.depth)) && Apart(g.outAt, n, g.rhsAt, RhsSize(g))
    && (g.biasAt.Some? ==> Apart(g.outAt, n, g.biasAt.value, 4 * g.cols))
  }

  function LhsCell(g: Dense, row: nat, k: nat): nat { g.lhsAt + Times(row, g.depth) + k }

  function RhsCell(g: Dense, col: nat, k: nat): nat {
    g.rhsAt + if g.byOutput then Times(col, g.depth) + k else Times(k, g.cols) + col
  }

  lemma DenseCellsInside(g: Dense, row: nat, col: nat, k: nat)
    requires row < g.rows && col < g.cols && k < g.depth
    ensures g.lhsAt <= LhsCell(g, row, k) < g.lhsAt + Times(g.rows, g.depth)
    ensures g.rhsAt <= RhsCell(g, col, k) < g.rhsAt + RhsSize(g)
  {
    TimesMonotone(row, g.rows, g.depth);
    if g.byOutput { TimesMonotone(col, g.cols, g.depth); } else { TimesMonotone(k, g.depth, g.cols); }
  }

  // ---------------------------------------------------------------- what the loops compute

  function Start(g: Dense, m: seq<Byte>, col: nat): Int32
    requires DenseSound(g, |m|) && col < g.cols
  {
    if g.biasAt.Some? then Int32At(m, g.biasAt.value + 4 * col) else 0
  }

  function Term(g: Dense, m: seq<Byte>, row: nat, col: nat, k: nat): Int32
    requires DenseSound(g, |m|) && row < g.rows && col < g.cols && k < g.depth
  {
    DenseCellsInside(g, row, col, k);
    Product8(Signed8(m[LhsCell(g, row, k)]), Signed8(m[RhsCell(g, col, k)]), g.lhsZero, g.rhsZero)
  }

  function Terms(g: Dense, m: seq<Byte>, row: nat, col: nat): seq<int>
    requires DenseSound(g, |m|) && row < g.rows && col < g.cols
  {
    seq(g.depth, k requires 0 <= k < g.depth => Term(g, m, row, col, k))
  }

  function Value(g: Dense, m: seq<Byte>, row: nat, col: nat): (r: int)
    requires DenseSound(g, |m|) && row < g.rows && col < g.cols
    ensures -128 <= r <= 127
  {
    Clamp(Wrap32(Running(Start(g, m, col), Terms(g, m, row, col), g.depth) + g.outZero), g.actMin, g.actMax)
  }

  method ReadBias(g: Dense, mem: array<Byte>, col: nat) returns (v: Int32)
    requires DenseSound(g, mem.Length) && col < g.cols
    ensures v == Start(g, mem[..], col)
  {
    if g.biasAt.None? { return 0; }
    var i := g.biasAt.value + 4 * col;
    v := Int32At([mem[i], mem[i + 1], mem[i + 2], mem[i + 3]], 0);
  }

  predicate TermIs(g: Dense, m: seq<Byte>, row: nat, col: nat, k: nat, term: int)
    requires DenseSound(g, |m|) && row < g.rows && col < g.cols && k < g.depth
  {
    term == Term(g, m, row, col, k)
  }

  ghost predicate TermsAre(g: Dense, m: seq<Byte>, row: nat, col: nat, terms: seq<int>)
    requires DenseSound(g, |m|) && row < g.rows && col < g.cols
  {
    |terms| == g.depth && forall k {:trigger TermIs(g, m, row, col, k, terms[k])} :: 0 <= k < g.depth ==> TermIs(g, m, row, col, k, terms[k])
  }

  method ReadTerm(g: Dense, mem: array<Byte>, row: nat, col: nat, k: nat, ghost terms: seq<int>) returns (term: Int32)
    requires DenseSound(g, mem.Length) && row < g.rows && col < g.cols && k < g.depth && TermsAre(g, mem[..], row, col, terms)
    ensures term == terms[k]
  {
    DenseCellsInside(g, row, col, k);
    term := Product8(Signed8(mem[LhsCell(g, row, k)]), Signed8(mem[RhsCell(g, col, k)]), g.lhsZero, g.rhsZero);
    assert TermIs(g, mem[..], row, col, k, terms[k]);
  }

  /** The innermost loop. */
  method Accumulate(g: Dense, mem: array<Byte>, row: nat, col: nat, start: Int32, ghost terms: seq<int>) returns (accumulator: Int32)
    requires DenseSound(g, mem.Length) && row < g.rows && col < g.cols && TermsAre(g, mem[..], row, col, terms)
    ensures accumulator == Running(start, terms, g.depth)
  {
    accumulator := start;
    for k := 0 to g.depth
      invariant accumulator == Running(start, terms, k)
    {
      var term := ReadTerm(g, mem, row, col, k, terms);
      accumulator := Wrap32(accumulator + term);
    }
  }

  /** One output value. */
  method ComputeValue(g: Dense, mem: array<Byte>, row: nat, col: nat) returns (value: int)
    requires DenseSound(g, mem.Length) && row < g.rows && col < g.cols
    ensures value == Value(g, mem[..], row, col)
  {
    var start := ReadBias(g, mem, col);
    var accumulator := Accumulate(g, mem, row, col, start, Terms(g, mem[..], row, col));
    value := Clamp(Wrap32(accumulator + g.outZero), g.actMin, g.actMax);
  }

  // ---------------------------------------------------------------- the output loops

  function OutCell(g: Dense, row: nat, col: nat): nat { g.outAt + Times(row, g.cols) + col }

  /** Memory with one output written, from what memory holds. */
  function DenseStored(g: Dense, m: seq<Byte>, row: nat, col: nat): (r: seq<Byte>)
    requires DenseSound(g, |m|) && row < g.rows && col < g.cols
    ensures |r| == |m|
  {
    TimesMonotone(row, g.rows, g.cols);
    m[OutCell(g, row, col) := Byte8(Value(g, m, row, col))]
  }

  /** Memory when the loops reach output `(row, col)`: each output is computed from the memory its predecessors left. */
  function DenseRun(g: Dense, m: seq<Byte>, row: nat, col: nat): (r: seq<Byte>)
    requires DenseSound(g, |m|) && row <= g.rows && col <= g.cols && (col > 0 ==> row < g.rows)
    ensures |r| == |m|
    decreases row, col
  {
    if col > 0 then DenseStored(g, DenseRun(g, m, row, col - 1), row, col - 1)
    else if row > 0 then DenseRun(g, m, row - 1, g.cols)
    else m
  }

  method WriteValue(g: Dense, mem: array<Byte>, row: nat, col: nat)
    requires DenseSound(g, mem.Length) && row < g.rows && col < g.cols
    modifies mem
    ensures mem[..] == DenseStored(g, old(mem[..]), row, col)
  {
    var value := ComputeValue(g, mem, row, col);
    TimesMonotone(row, g.rows, g.cols);
    mem[OutCell(g, row, col)] := Byte8(value);
  }

  /** The loops shared by the matrix product and the fully connected kernel, wherever the tensors lie. */
  method Multiply(g: Dense, mem: array<Byte>)
    requires DenseSound(g, mem.Length)
    modifies mem
    ensures mem[..] == DenseRun(g, old(mem[..]), g.rows, 0)
  {
    ghost var m0 := mem[..];
    for row := 0 to g.rows
      invariant mem[..] == DenseRun(g, m0, row, 0)
    {
      for col := 0 to g.cols
        invariant mem[..] == DenseRun(g, m0, row, col)
      {
        WriteValue(g, mem, row, col);
      }
    }
  }

  // ---------------------------------------------------------------- an output apart from the operands

  predicate DenseUntouched(g: Dense, m: seq<Byte>, m0: seq<Byte>) { SameOutside(m, m0, g.outAt, Times(g.rows, g.cols)) }

  /** Wherever it lies, only the output changes. */
  lemma {:induction false} DenseRunFrame(g: Dense, m: seq<Byte>, row: nat, col: nat)
    requires DenseSound(g, |m|) && row <= g.rows && col <= g.cols && (col > 0 ==> row < g.rows)
    ensures DenseUntouched(g, DenseRun(g, m, row, col), m)
    decreases row, col
  {
    if col > 0 {
      DenseRunFrame(g, m, row, col - 1);
      TimesMonotone(row, g.rows, g.cols);
    } else if row > 0 {
      DenseRunFrame(g, m, row - 1, g.cols);
    }
  }

  /** A value is read from the operands only. */
  lemma ValueUntouched(g: Dense, m: seq<Byte>, m0: seq<Byte>, row: nat, col: nat)
    requires DenseSound(g, |m0|) && DenseApart(g) && DenseUntouched(g, m, m0) && row < g.rows && col < g.cols
    ensures Value(g, m, row, col) == Value(g, m0, row, col)
  {
    forall k | 0 <= k < g.depth ensures Terms(g, m, row, col)[k] == Terms(g, m0, row, col)[k] {
      DenseCellsInside(g, row, col, k);
    }
    assert Terms(g, m, row, col) == Terms(g, m0, row, col);
  }

  ghost predicate DenseWritten(g: Dense, m: seq<Byte>, m0: seq<Byte>, row: nat, col: nat)
    requires DenseSound(g, |m0|) && row < g.rows && col < g.cols
  {
    OutCell(g, row, col) < |m| && m[OutCell(g, row, col)] == Byte8(Value(g, m0, row, col))
  }

  /** The outputs below index `end` hold their values. */
  ghost predicate DenseProgress(g: Dense, m: seq<Byte>, m0: seq<Byte>, end: nat)
    requires DenseSound(g, |m0|)
  {
    forall row: nat, col: nat :: row < g.rows && col < g.cols && Times(row, g.cols) + col < end ==> DenseWritten(g, m, m0, row, col)
  }

  lemma DenseCellWritten(g: Dense, m: seq<Byte>, m': seq<Byte>, m0: seq<Byte>, row: nat, col: nat)
    requires DenseSound(g, |m0|) && row < g.rows && col < g.cols && OutCell(g, row, col) < |m|
    requires DenseProgress(g, m, m0, Times(row, g.cols) + col)
    requires m' == m[OutCell(g, row, col) := Byte8(Value(g, m0, row, col))]
    ensures DenseProgress(g, m', m0, Times(row, g.cols) + col + 1)
  {
    var i := Times(row, g.cols) + col;
    forall r: nat, c: nat | r < g.rows && c < g.cols && Times(r, g.cols) + c < i + 1 ensures DenseWritten(g, m', m0, r, c) {
      RowOrder(row, col, r, c, g.cols);
      if Times(r, g.cols) + c < i { assert DenseWritten(g, m, m0, r, c); }
    }
  }

  lemma DenseStoredProgress(g: Dense, m: seq<Byte>, m0: seq<Byte>, row: nat, col: nat)
    requires DenseSound(g, |m0|) && DenseApart(g) && DenseUntouched(g, m, m0) && row < g.rows && col < g.cols
    requires DenseProgress(g, m, m0, Times(row, g.cols) + col)
    ensures DenseProgress(g, DenseStored(g, m, row, col), m0, Times(row, g.cols) + col + 1)
  {
    ValueUntouched(g, m, m0, row, col);
    TimesMonotone(row, g.rows, g.cols);
    DenseCellWritten(g, m, DenseStored(g, m, row, col), m0, row, col);
  }

  lemma {:induction false} DenseRunProgress(g: Dense, m: seq<Byte>, row: nat, col: nat)
    requires DenseSound(g, |m|) && DenseApart(g) && row <= g.rows && col <= g.cols && (col > 0 ==> row < g.rows)
    ensures DenseProgress(g, DenseRun(g, m, row, col), m, Times(row, g.cols) + col)
    decreases row, col
  {
    if col > 0 {
      DenseRunProgress(g, m, row, col - 1);
      DenseRunFrame(g, m, row, col - 1);
      DenseStoredProgress(g, DenseRun(g, m, row, col - 1), m, row, col - 1);
    } else if row > 0 {
      DenseRunProgress(g, m, row - 1, g.cols);
    }
  }

  // ---------------------------------------------------------------- the exact dot product

  /** The term without wrap-around. */
  function ExactTerm(g: Dense, m: seq<Byte>, row: nat, col: nat, k: nat): int
    requires DenseSound(g, |m|) && row < g.rows && col < g.cols && k < g.depth
  {
    DenseCellsInside(g, row, col, k);
    (Signed8(m[LhsCell(g, row, k)]) - g.lhsZero) * (Signed8(m[RhsCell(g, col, k)]) - g.rhsZero)
  }

  function ExactTerms(g: Dense, m: seq<Byte>, row: nat, col: nat): seq<int>
    requires DenseSound(g, |m|) && row < g.rows && col < g.cols
  {
    seq(g.depth, k requires 0 <= k < g.depth => ExactTerm(g, m, row, col, k))
  }

  /** The dot product of a row and a column, each off its zero point. */
  function Dot(g: Dense, m: seq<Byte>, row: nat, col: nat): int
    requires DenseSound(g, |m|) && row < g.rows && col < g.cols
  {
    SumOf(ExactTerms(g, m, row, col), g.depth)
  }

  lemma TermWraps(g: Dense, m: seq<Byte>, row: nat, col: nat, k: nat)
    requires DenseSound(g, |m|) && row < g.rows && col < g.cols && k < g.depth
    ensures Terms(g, m, row, col)[k] == Wrap32(ExactTerms(g, m, row, col)[k])
  {
    DenseCellsInside(g, row, col, k);
    MulWraps(Signed8(m[LhsCell(g, row, k)]) - g.lhsZero, Signed8(m[RhsCell(g, col, k)]) - g.rhsZero);
  }

  /** The operands and the bias, as slices of memory. */
  function MatricesOf(g: Dense, m: seq<Byte>): R.Matrices
    requires DenseSound(g, |m|)
  {
    R.Matrices(m[g.lhsAt..g.lhsAt + Times(g.rows, g.depth)], m[g.rhsAt..g.rhsAt + RhsSize(g)],
               if g.biasAt.Some? then m[g.biasAt.value..g.biasAt.value + 4 * g.cols] else [],
               g.depth, g.cols, g.byOutput, g.lhsZero, g.rhsZero, g.outZero)
  }

  /** The affine value before the activation range, over the bytes of the operands. */
  function Affine(g: Dense, m: seq<Byte>, row: nat, col: nat): int
    requires DenseSound(g, |m|) && row < g.rows && col < g.cols
  {
    R.Affine(MatricesOf(g, m), row, col)
  }

  lemma LhsIs(g: Dense, m: seq<Byte>, row: nat, col: nat, k: nat)
    requires DenseSound(g, |m|) && row < g.rows && col < g.cols && k < g.depth
    ensures LhsCell(g, row, k) < |m|
    ensures R.Int8Of(m[g.lhsAt..g.lhsAt + Times(g.rows, g.depth)], row * g.depth + k) == Signed8(m[LhsCell(g, row, k)])
  {
    DenseCellsInside(g, row, col, k);
    TimesIsProduct(row, g.depth);
    SliceSigned(m, g.lhsAt, Times(g.rows, g.depth), Times(row, g.depth) + k);
  }

  lemma RhsIs(g: Dense, m: seq<Byte>, row: nat, col: nat, k: nat)
    requires DenseSound(g, |m|) && row < g.rows && col < g.cols && k < g.depth
    ensures RhsCell(g, col, k) < |m|
    ensures R.Int8Of(m[g.rhsAt..g.rhsAt + RhsSize(g)], if g.byOutput then col * g.depth + k else k * g.cols + col) == Signed8(m[RhsCell(g, col, k)])
  {
    DenseCellsInside(g, row, col, k);
    if g.byOutput { TimesIsProduct(col, g.depth); } else { TimesIsProduct(k, g.cols); }
    SliceSigned(m, g.rhsAt, RhsSize(g), RhsCell(g, col, k) - g.rhsAt);
  }

  lemma DotTermIs(d: R.Matrices, row: nat, col: nat, k: nat, x: int, y: int)
    requires x == R.Int8Of(d.lhs, row * d.depth + k) && y == R.Int8Of(d.rhs, if d.transposed then col * d.depth + k else k * d.cols + col)
    ensures R.DotTerms(d, row, col)(k) == (x - d.lhsZero) * (y - d.rhsZero)
  {}

  lemma TermIsReference(g: Dense, m: seq<Byte>, row: nat, col: nat, k: nat)
    requires DenseSound(g, |m|) && row < g.rows && col < g.cols && k < g.depth
    ensures R.DotTerms(MatricesOf(g, m), row, col)(k) == ExactTerm(g, m, row, col, k)
  {
    LhsIs(g, m, row, col, k);
    RhsIs(g, m, row, col, k);
    DotTermIs(MatricesOf(g, m), row, col, k, Signed8(m[LhsCell(g, row, k)]), Signed8(m[RhsCell(g, col, k)]));
  }

  lemma {:induction false} SumIs(f: nat -> int, terms: seq<int>, n: nat)
    requires n <= |terms| && forall k: nat :: k < |terms| ==> f(k) == terms[k]
    ensures R.Sum(n, f) == SumOf(terms, n)
  {
    if n > 0 { SumIs(f, terms, n - 1); }
  }

  lemma StartIs(g: Dense, m: seq<Byte>, col: nat)
    requires DenseSound(g, |m|) && col < g.cols
    ensures Start(g, m, col) == R.Int32Of(MatricesOf(g, m).bias, 4 * col)
  {
    if g.biasAt.Some? { SliceWord(m, g.biasAt.value, 4 * g.cols, 4 * col); }
  }

  /** The sum of the kernel's terms is the dot product of the matrices. */
  lemma AffineIs(g: Dense, m: seq<Byte>, row: nat, col: nat)
    requires DenseSound(g, |m|) && row < g.rows && col < g.cols
    ensures Affine(g, m, row, col) == Start(g, m, col) + Dot(g, m, row, col) + g.outZero
  {
    var f, terms := R.DotTerms(MatricesOf(g, m), row, col), ExactTerms(g, m, row, col);
    forall k: nat | k < g.depth ensures f(k) == terms[k] { TermIsReference(g, m, row, col, k); }
    SumIs(f, terms, g.depth);
    StartIs(g, m, col);
  }

  /** Every output is the clamped affine value modulo 2^32. */
  lemma ValueIsAffine(g: Dense, m: seq<Byte>, row: nat, col: nat)
    requires DenseSound(g, |m|) && row < g.rows && col < g.cols
    ensures Value(g, m, row, col) == Clamp(Wrap32(Affine(g, m, row, col)), g.actMin, g.actMax)
    ensures Value(g, m, row, col) == Clamp(Affine(g, m, row, col), g.actMin, g.actMax) <==>
              Settled(Affine(g, m, row, col), g.actMin, g.actMax)
  {
    forall k | 0 <= k < g.depth ensures Terms(g, m, row, col)[k] == Wrap32(ExactTerms(g, m, row, col)[k]) {
      TermWraps(g, m, row, col, k);
    }
    RunningIsSum(Start(g, m, col), Terms(g, m, row, col), ExactTerms(g, m, row, col), g.depth);
    WrapSum(Start(g, m, col) + Dot(g, m, row, col), g.outZero);
    AffineIs(g, m, row, col);
  }

  // ---------------------------------------------------------------- what the kernel leaves

  /** The byte of output `(row, col)`, in row-major order from `at`, is the reference cell in two's complement. */
  ghost predicate ProductByte(m: seq<Byte>, at: nat, d: R.Matrices, lo: int, hi: int, row: nat, col: nat) {
    var i := at + row * d.cols + col;
    i < |m| && m[i] == R.DenseCell(d, lo, hi, row, col) % 256
  }

  ghost predicate AllProducts(m: seq<Byte>, at: nat, rows: nat, d: R.Matrices, lo: int, hi: int) {
    forall row: nat, col: nat :: row < rows && col < d.cols ==> ProductByte(m, at, d, lo, hi, row, col)
  }

  lemma ValueIsReference(g: Dense, m: seq<Byte>, row: nat, col: nat)
    requires DenseSound(g, |m|) && row < g.rows && col < g.cols
    ensures Value(g, m, row, col) == R.DenseCell(MatricesOf(g, m), g.actMin, g.actMax, row, col)
  {
    ValueIsAffine(g, m, row, col);
    WrappedIs(Affine(g, m, row, col));
  }

  lemma WrittenIsProduct(g: Dense, m: seq<Byte>, m0: seq<Byte>, row: nat, col: nat)
    requires DenseSound(g, |m0|) && row < g.rows && col < g.cols && DenseWritten(g, m, m0, row, col)
    ensures ProductByte(m, g.outAt, MatricesOf(g, m0), g.actMin, g.actMax, row, col)
  {
    ValueIsReference(g, m0, row, col);
    TwosComplement(Value(g, m0, row, col));
    TimesIsProduct(row, g.cols);
  }

  /** Every output byte holds the reference product of the old operands, and no other byte changed. */
  ghost predicate Multiplied(g: Dense, m: seq<Byte>, m0: seq<Byte>)
    requires DenseSound(g, |m0|)
  {
    DenseUntouched(g, m, m0) && AllProducts(m, g.outAt, g.rows, MatricesOf(g, m0), g.actMin, g.actMax)
  }

  /** An output that overlaps no operand holds the product of the old ones. */
  lemma RunMultiplies(g: Dense, m: seq<Byte>)
    requires DenseSound(g, |m|) && DenseApart(g)
    ensures Multiplied(g, DenseRun(g, m, g.rows, 0), m)
  {
    var m' := DenseRun(g, m, g.rows, 0);
    DenseRunFrame(g, m, g.rows, 0);
    DenseRunProgress(g, m, g.rows, 0);
    forall row: nat, col: nat | row < g.rows && col < g.cols ensures ProductByte(m', g.outAt, MatricesOf(g, m), g.actMin, g.actMax, row, col) {
      TimesMonotone(row, g.rows, g.cols);
      assert DenseWritten(g, m', m, row, col);
      WrittenIsProduct(g, m', m, row, col);
    }
  }

  // ---------------------------------------------------------------- addition

  datatype Sum = Sum(count: nat, lhsAt: nat, rhsAt: nat, outAt: nat,
                     lhsZero: int, rhsZero: int, outZero: int, actMin: int, actMax: int)

  predicate SumSound(g: Sum, size: nat) {
    && g.lhsAt + g.count <= size && g.rhsAt + g.count <= size && g.outAt + g.count <= size
    && -128 <= g.actMin <= g.actMax <= 127
  }

  /** No output byte lands on an operand byte that is still to be read; adding in place is allowed. */
  predicate ReadBeforeWritten(at: nat, out: nat, n: nat) { out <= at || at + n <= out }

  predicate SumOrdered(g: Sum) { ReadBeforeWritten(g.lhsAt, g.outAt, g.count) && ReadBeforeWritten(g.rhsAt, g.outAt, g.count) }

  /** `(a - za) + (b - zb) + zo` with each operation on an `int32_t`. */
  function Added32(a: int, b: int, za: int, zb: int, zo: int): Int32 {
    Wrap32(Wrap32(Wrap32(a - za) + Wrap32(b - zb)) + zo)
  }

  function Element(g: Sum, m: seq<Byte>, i: nat): (r: int)
    requires SumSound(g, |m|) && i < g.count
    ensures -128 <= r <= 127
  {
    Clamp(Added32(Signed8(m[g.lhsAt + i]), Signed8(m[g.rhsAt + i]), g.lhsZero, g.rhsZero, g.outZero), g.actMin, g.actMax)
  }

  /** Memory with one sum written, from what memory holds. */
  function AddStored(g: Sum, m: seq<Byte>, i: nat): (r: seq<Byte>)
    requires SumSound(g, |m|) && i < g.count
    ensures |r| == |m|
  {
    m[g.outAt + i := Byte8(Element(g, m, i))]
  }

  /** Memory after the first `n` elements: each is added from the memory its predecessors left. */
  function AddRun(g: Sum, m: seq<Byte>, n: nat): (r: seq<Byte>)
    requires SumSound(g, |m|) && n <= g.count
    ensures |r| == |m|
  {
    if n == 0 then m else AddStored(g, AddRun(g, m, n - 1), n - 1)
  }

  /** The loop, wherever the tensors lie. */
  method Add(g: Sum, mem: array<Byte>)
    requires SumSound(g, mem.Length)
    modifies mem
    ensures mem[..] == AddRun(g, old(mem[..]), g.count)
  {
    ghost var m0 := mem[..];
    for k := 0 to g.count
      invariant mem[..] == AddRun(g, m0, k)
    {
      AddElement(g, mem, k);
    }
  }

  method AddElement(g: Sum, mem: array<Byte>, i: nat)
    requires SumSound(g, mem.Length) && i < g.count
    modifies mem
    ensures mem[..] == AddStored(g, old(mem[..]), i)
  {
    var value := Added32(Signed8(mem[g.lhsAt + i]), Signed8(mem[g.rhsAt + i]), g.lhsZero, g.rhsZero, g.outZero);
    mem[g.outAt + i] := Byte8(Clamp(value, g.actMin, g.actMax));
  }

  lemma {:induction false} AddRunFrame(g: Sum, m: seq<Byte>, n: nat)
    requires SumSound(g, |m|) && n <= g.count
    ensures SameOutside(AddRun(g, m, n), m, g.outAt, n)
  {
    if n > 0 { AddRunFrame(g, m, n - 1); }
  }

  lemma ElementUntouched(g: Sum, m: seq<Byte>, m0: seq<Byte>, i: nat)
    requires SumSound(g, |m0|) && |m| == |m0| && i < g.count && m[g.lhsAt + i] == m0[g.lhsAt + i] && m[g.rhsAt + i] == m0[g.rhsAt + i]
    ensures Element(g, m, i) == Element(g, m0, i)
  {}

  lemma {:induction false} AddRunSums(g: Sum, m: seq<Byte>, n: nat, i: nat)
    requires SumSound(g, |m|) && SumOrdered(g) && i < n <= g.count
    ensures AddRun(g, m, n)[g.outAt + i] == Byte8(Element(g, m, i))
    decreases n
  {
    if i < n - 1 {
      AddRunSums(g, m, n - 1, i);
    } else {
      AddRunFrame(g, m, i);
      ElementUntouched(g, AddRun(g, m, i), m, i);
    }
  }

  function ExactSum(g: Sum, m: seq<Byte>, i: nat): int
    requires SumSound(g, |m|) && i < g.count
  {
    R.ExactSum(m[g.lhsAt..g.lhsAt + g.count], m[g.rhsAt..g.rhsAt + g.count], g.lhsZero, g.rhsZero, g.outZero, i)
  }

  lemma ExactSumIs(g: Sum, m: seq<Byte>, i: nat)
    requires SumSound(g, |m|) && i < g.count
    ensures ExactSum(g, m, i) == Signed8(m[g.lhsAt + i]) - g.lhsZero + Signed8(m[g.rhsAt + i]) - g.rhsZero + g.outZero
  {
    SliceSigned(m, g.lhsAt, g.count, i);
    SliceSigned(m, g.rhsAt, g.count, i);
  }

  lemma AddedWraps(a: int, b: int, za: int, zb: int, zo: int)
    ensures Added32(a, b, za, zb, zo) == Wrap32(a - za + b - zb + zo)
  {
    WrapBoth(a - za, b - zb);
    WrapSum(a - za + (b - zb), zo);
  }

  /** The 32-bit sum is the exact sum modulo 2^32. */
  lemma ElementIsSum(g: Sum, m: seq<Byte>, i: nat)
    requires SumSound(g, |m|) && i < g.count
    ensures Element(g, m, i) == Clamp(Wrap32(ExactSum(g, m, i)), g.actMin, g.actMax)
    ensures Element(g, m, i) == Clamp(ExactSum(g, m, i), g.actMin, g.actMax) <==> Settled(ExactSum(g, m, i), g.actMin, g.actMax)
  {
    ExactSumIs(g, m, i);
    AddedWraps(Signed8(m[g.lhsAt + i]), Signed8(m[g.rhsAt + i]), g.lhsZero, g.rhsZero, g.outZero);
  }

  /** The byte of element `i` from `at` is the sum modulo 2^32, clipped, in two's complement. */
  ghost predicate SumByte(m: seq<Byte>, at: nat, lhs: seq<Byte>, rhs: seq<Byte>, lhsZero: int, rhsZero: int, outZero: int, lo: int, hi: int, i: nat) {
    at + i < |m| && m[at + i] == R.Clipped(R.Wrapped(R.ExactSum(lhs, rhs, lhsZero, rhsZero, outZero, i)), lo, hi) % 256
  }

  ghost predicate AllSums(m: seq<Byte>, at: nat, count: nat, lhs: seq<Byte>, rhs: seq<Byte>, lhsZero: int, rhsZero: int, outZero: int, lo: int, hi: int) {
    forall i: nat :: i < count ==> SumByte(m, at, lhs, rhs, lhsZero, rhsZero, outZero, lo, hi, i)
  }

  /** Every output byte holds the sum of the old operands, and no other byte changed. */
  ghost predicate Added(g: Sum, m: seq<Byte>, m0: seq<Byte>)
    requires SumSound(g, |m0|)
  {
    && SameOutside(m, m0, g.outAt, g.count)
    && AllSums(m, g.outAt, g.count, m0[g.lhsAt..g.lhsAt + g.count], m0[g.rhsAt..g.rhsAt + g.count],
               g.lhsZero, g.rhsZero, g.outZero, g.actMin, g.actMax)
  }

  lemma ElementIsByte(g: Sum, m: seq<Byte>, m0: seq<Byte>, i: nat)
    requires SumSound(g, |m0|) && i < g.count && |m| == |m0| && m[g.outAt + i] == Byte8(Element(g, m0, i))
    ensures SumByte(m, g.outAt, m0[g.lhsAt..g.lhsAt + g.count], m0[g.rhsAt..g.rhsAt + g.count],
                    g.lhsZero, g.rhsZero, g.outZero, g.actMin, g.actMax, i)
  {
    ElementIsSum(g, m0, i);
    WrappedIs(ExactSum(g, m0, i));
    TwosComplement(Element(g, m0, i));
  }

  /** Where no output byte lands on an operand byte still to be read, the output holds the sum of the old operands. */
  lemma RunAdds(g: Sum, m: seq<Byte>)
    requires SumSound(g, |m|) && SumOrdered(g)
    ensures Added(g, AddRun(g, m, g.count), m)
  {
    var m' := AddRun(g, m, g.count);
    AddRunFrame(g, m, g.count);
    var lhs, rhs := m[g.lhsAt..g.lhsAt + g.count], m[g.rhsAt..g.rhsAt + g.count];
    forall i: nat | i < g.count ensures SumByte(m', g.outAt, lhs, rhs, g.lhsZero, g.rhsZero, g.outZero, g.actMin, g.actMax, i) {
      AddRunSums(g, m, g.count, i);
      ElementIsByte(g, m', m, i);
    }
  }
}
