/**
 When the 32-bit kernels are exact.  A product or a sum is exact for all data if and only if
 the interval between its extremes wraps as a whole: between two values that wrap
 differently some data falls where the clamp shows it.
 */
module DenseExact {
  import opened Arith
  import opened Bits
  import opened FixedPoint
  import opened Int8
  import opened Tensors
  import opened HybridDense

  // ---------------------------------------------------------------- extreme products

  /** The product of two extreme int8 values off their zero points. */
  function Corner8(a: int, b: int, za: int, zb: int): int { (a - za) * (b - zb) }

  function Least(za: int, zb: int): int {
    Min(Min(Corner8(-128, -128, za, zb), Corner8(-128, 127, za, zb)), Min(Corner8(127, -128, za, zb), Corner8(127, 127, za, zb)))
  }

  function Greatest(za: int, zb: int): int {
    Max(Max(Corner8(-128, -128, za, zb), Corner8(-128, 127, za, zb)), Max(Corner8(127, -128, za, zb), Corner8(127, 127, za, zb)))
  }

  lemma BetweenEnds(x: int, lo: int, hi: int, y: int)
    requires lo <= x <= hi
    ensures Min(lo * y, hi * y) <= x * y <= Max(lo * y, hi * y)
  {
    if y >= 0 {
      MulMonotone(lo, x, y);
      MulMonotone(x, hi, y);
    } else {
      MulMonotone(lo, x, -y);
      MulMonotone(x, hi, -y);
    }
  }

  lemma BetweenCorners(x: int, lx: int, hx: int, y: int, ly: int, hy: int)
    requires lx <= x <= hx && ly <= y <= hy
    ensures Min(Min(lx * ly, lx * hy), Min(hx * ly, hx * hy)) <= x * y <= Max(Max(lx * ly, lx * hy), Max(hx * ly, hx * hy))
  {
    BetweenEnds(x, lx, hx, ly);
    BetweenEnds(x, lx, hx, hy);
    BetweenEnds(y, ly, hy, x);
    Commutes(y, x);
    Commutes(ly, x);
    Commutes(hy, x);
  }

  lemma ProductBetween(a: int, b: int, za: int, zb: int)
    requires -128 <= a <= 127 && -128 <= b <= 127
    ensures Least(za, zb) <= (a - za) * (b - zb) <= Greatest(za, zb)
  {
    BetweenCorners(a - za, -128 - za, 127 - za, b - zb, -128 - zb, 127 - zb);
  }

  lemma LeastReached(za: int, zb: int) returns (a: int, b: int)
    ensures -128 <= a <= 127 && -128 <= b <= 127 && Corner8(a, b, za, zb) == Least(za, zb)
  {
    a := if Least(za, zb) == Corner8(-128, -128, za, zb) || Least(za, zb) == Corner8(-128, 127, za, zb) then -128 else 127;
    b := if Least(za, zb) == Corner8(a, -128, za, zb) then -128 else 127;
  }

  lemma GreatestReached(za: int, zb: int) returns (a: int, b: int)
    ensures -128 <= a <= 127 && -128 <= b <= 127 && Corner8(a, b, za, zb) == Greatest(za, zb)
  {
    a := if Greatest(za, zb) == Corner8(-128, -128, za, zb) || Greatest(za, zb) == Corner8(-128, 127, za, zb) then -128 else 127;
    b := if Greatest(za, zb) == Corner8(a, -128, za, zb) then -128 else 127;
  }

  // ---------------------------------------------------------------- products: sufficient

  /** The least value an output can have before the clamp, whatever the operands hold. */
  function LeastAffine(g: Dense, start: int): int { start + g.outZero + g.depth * Least(g.lhsZero, g.rhsZero) }

  function GreatestAffine(g: Dense, start: int): int { start + g.outZero + g.depth * Greatest(g.lhsZero, g.rhsZero) }

  lemma AffineBetween(g: Dense, m: seq<Byte>, row: nat, col: nat)
    requires DenseSound(g, |m|) && row < g.rows && col < g.cols
    ensures LeastAffine(g, Start(g, m, col)) <= Affine(g, m, row, col) <= GreatestAffine(g, Start(g, m, col))
  {
    AffineIs(g, m, row, col);
    var exact := ExactTerms(g, m, row, col);
    var lo, hi := Least(g.lhsZero, g.rhsZero), Greatest(g.lhsZero, g.rhsZero);
    forall k | 0 <= k < |exact| ensures lo <= exact[k] <= hi {
      DenseCellsInside(g, row, col, k);
      ProductBetween(Signed8(m[LhsCell(g, row, k)]), Signed8(m[RhsCell(g, col, k)]), g.lhsZero, g.rhsZero);
    }
    SumBetween(exact, g.depth, lo, hi);
  }

  /** What a caller can compute: the clamp hides nothing, or the extremes wrap together. */
  predicate ProductFits(g: Dense, start: int) {
    g.actMin == g.actMax || OneTurn(LeastAffine(g, start), GreatestAffine(g, start), g.actMin, g.actMax)
  }

  predicate ExactOn(g: Dense, m: seq<Byte>, row: nat, col: nat)
    requires DenseSound(g, |m|) && row < g.rows && col < g.cols
  {
    Value(g, m, row, col) == Clamp(Affine(g, m, row, col), g.actMin, g.actMax)
  }

  /** For all zero points, operands and layouts. */
  lemma FittingProductExact(g: Dense, m: seq<Byte>, row: nat, col: nat)
    requires DenseSound(g, |m|) && row < g.rows && col < g.cols && ProductFits(g, Start(g, m, col))
    ensures ExactOn(g, m, row, col)
  {
    ValueIsAffine(g, m, row, col);
    if g.actMin < g.actMax {
      AffineBetween(g, m, row, col);
      SettledBetween(Affine(g, m, row, col), LeastAffine(g, Start(g, m, col)), GreatestAffine(g, Start(g, m, col)), g.actMin, g.actMax);
    }
  }

  // ---------------------------------------------------------------- products: necessary

  /** The operands and the bias lie apart. */
  predicate OperandsApart(g: Dense) {
    && Apart(g.lhsAt, Times(g.rows, g.depth), g.rhsAt, RhsSize(g))
    && (g.biasAt.Some? ==>
          Apart(g.biasAt.value, 4 * g.cols, g.lhsAt, Times(g.rows, g.depth)) && Apart(g.biasAt.value, 4 * g.cols, g.rhsAt, RhsSize(g)))
  }

  /** One step of an operand moves the sum by less than half the way round. */
  predicate SmallSteps(g: Dense) { Abs(g.lhsZero) <= TWO31 - 257 && Abs(g.rhsZero) <= TWO31 - 257 }

  /** Exact for every memory with this bias. */
  ghost predicate AlwaysExactProduct(g: Dense, m0: seq<Byte>, row: nat, col: nat)
    requires DenseSound(g, |m0|) && row < g.rows && col < g.cols
  {
    forall m: seq<Byte> :: |m| == |m0| && Start(g, m, col) == Start(g, m0, col) ==> ExactOn(g, m, row, col)
  }

  lemma RoundTrip8(x: int)
    requires -128 <= x <= 127
    ensures Signed8(Byte8(x)) == x
  {}

  lemma RhsCellsDiffer(g: Dense, col: nat, j: nat, k: nat)
    requires col < g.cols && j < g.depth && k < g.depth && j != k
    ensures RhsCell(g, col, j) != RhsCell(g, col, k)
  {
    if !g.byOutput { RowOrder(j, col, k, col, g.cols); }
  }

  /** The memory with term `k`'s left operand set. */
  function WithLhs(g: Dense, m: seq<Byte>, row: nat, col: nat, k: nat, v: int): (m': seq<Byte>)
    requires DenseSound(g, |m|) && row < g.rows && col < g.cols && k < g.depth && -128 <= v <= 127
    ensures |m'| == |m|
  {
    DenseCellsInside(g, row, col, k);
    m[LhsCell(g, row, k) := Byte8(v)]
  }

  function WithRhs(g: Dense, m: seq<Byte>, row: nat, col: nat, k: nat, v: int): (m': seq<Byte>)
    requires DenseSound(g, |m|) && row < g.rows && col < g.cols && k < g.depth && -128 <= v <= 127
    ensures |m'| == |m|
  {
    DenseCellsInside(g, row, col, k);
    m[RhsCell(g, col, k) := Byte8(v)]
  }

  function Lhs(g: Dense, m: seq<Byte>, row: nat, col: nat, k: nat): (v: int)
    requires DenseSound(g, |m|) && row < g.rows && col < g.cols && k < g.depth
    ensures -128 <= v <= 127
  {
    DenseCellsInside(g, row, col, k);
    Signed8(m[LhsCell(g, row, k)])
  }

  function Rhs(g: Dense, m: seq<Byte>, row: nat, col: nat, k: nat): (v: int)
    requires DenseSound(g, |m|) && row < g.rows && col < g.cols && k < g.depth
    ensures -128 <= v <= 127
  {
    DenseCellsInside(g, row, col, k);
    Signed8(m[RhsCell(g, col, k)])
  }

  lemma TermIsProduct(g: Dense, m: seq<Byte>, row: nat, col: nat, k: nat)
    requires DenseSound(g, |m|) && row < g.rows && col < g.cols && k < g.depth
    ensures ExactTerms(g, m, row, col)[k] == (Lhs(g, m, row, col, k) - g.lhsZero) * (Rhs(g, m, row, col, k) - g.rhsZero)
  {}

  lemma WithLhsReads(g: Dense, m: seq<Byte>, row: nat, col: nat, k: nat, v: int, j: nat)
    requires DenseSound(g, |m|) && OperandsApart(g) && row < g.rows && col < g.cols && k < g.depth && j < g.depth && -128 <= v <= 127
    ensures var m' := WithLhs(g, m, row, col, k, v);
            && Lhs(g, m', row, col, j) == (if j == k then v else Lhs(g, m, row, col, j))
            && Rhs(g, m', row, col, j) == Rhs(g, m, row, col, j) && Start(g, m', col) == Start(g, m, col)
  {
    DenseCellsInside(g, row, col, k);
    DenseCellsInside(g, row, col, j);
    RoundTrip8(v);
  }

  lemma WithRhsReads(g: Dense, m: seq<Byte>, row: nat, col: nat, k: nat, v: int, j: nat)
    requires DenseSound(g, |m|) && OperandsApart(g) && row < g.rows && col < g.cols && k < g.depth && j < g.depth && -128 <= v <= 127
    ensures var m' := WithRhs(g, m, row, col, k, v);
            && Rhs(g, m', row, col, j) == (if j == k then v else Rhs(g, m, row, col, j))
            && Lhs(g, m', row, col, j) == Lhs(g, m, row, col, j) && Start(g, m', col) == Start(g, m, col)
  {
    DenseCellsInside(g, row, col, k);
    DenseCellsInside(g, row, col, j);
    if j != k { RhsCellsDiffer(g, col, j, k); }
    RoundTrip8(v);
  }

  /** Memories that differ in one operand of term `k` only. */
  lemma OneTermApart(g: Dense, m: seq<Byte>, m': seq<Byte>, row: nat, col: nat, k: nat)
    requires DenseSound(g, |m|) && |m'| == |m| && row < g.rows && col < g.cols && k < g.depth
    requires Start(g, m', col) == Start(g, m, col)
    requires forall j: nat :: j < g.depth && j != k ==> Lhs(g, m', row, col, j) == Lhs(g, m, row, col, j)
    requires forall j: nat :: j < g.depth && j != k ==> Rhs(g, m', row, col, j) == Rhs(g, m, row, col, j)
    ensures Affine(g, m', row, col) - Affine(g, m, row, col) ==
              ExactTerms(g, m', row, col)[k] - ExactTerms(g, m, row, col)[k]
  {
    AffineIs(g, m, row, col);
    AffineIs(g, m', row, col);
    var e, e' := ExactTerms(g, m, row, col), ExactTerms(g, m', row, col);
    forall j | 0 <= j < |e| && j != k ensures e[j] == e'[j] {
      TermIsProduct(g, m, row, col, j);
      TermIsProduct(g, m', row, col, j);
    }
    SumReplaced(e, e', k, g.depth);
  }

  /** One step of a factor moves the product by the other factor. */
  lemma FactorStep(x: int, x': int, y: int)
    requires Abs(x' - x) <= 1
    ensures Abs(x' * y - x * y) <= Abs(y) && Abs(y * x' - y * x) <= Abs(y)
  {
    if x' == x + 1 {
      assert x' * y == x * y + y && y * x' == y * x + y;
    } else if x' == x - 1 {
      assert x' * y == x * y - y && y * x' == y * x - y;
    }
  }

  /** Two memories one step of one operand apart wrap by the same turns. */
  lemma StepTurns(g: Dense, m0: seq<Byte>, m: seq<Byte>, m': seq<Byte>, row: nat, col: nat, k: nat)
    requires DenseSound(g, |m0|) && row < g.rows && col < g.cols && k < g.depth && g.actMin < g.actMax && SmallSteps(g)
    requires |m| == |m0| == |m'| && Start(g, m, col) == Start(g, m0, col) == Start(g, m', col)
    requires ExactOn(g, m, row, col) && ExactOn(g, m', row, col)
    requires forall j: nat :: j < g.depth && j != k ==> Lhs(g, m', row, col, j) == Lhs(g, m, row, col, j)
    requires forall j: nat :: j < g.depth && j != k ==> Rhs(g, m', row, col, j) == Rhs(g, m, row, col, j)
    requires Abs(Lhs(g, m', row, col, k) - Lhs(g, m, row, col, k)) <= 1 && Abs(Rhs(g, m', row, col, k) - Rhs(g, m, row, col, k)) <= 1
    requires Lhs(g, m', row, col, k) == Lhs(g, m, row, col, k) || Rhs(g, m', row, col, k) == Rhs(g, m, row, col, k)
    ensures Turns(Affine(g, m', row, col)) == Turns(Affine(g, m, row, col))
  {
    OneTermApart(g, m, m', row, col, k);
    TermIsProduct(g, m, row, col, k);
    TermIsProduct(g, m', row, col, k);
    var x, x' := Lhs(g, m, row, col, k) - g.lhsZero, Lhs(g, m', row, col, k) - g.lhsZero;
    var y, y' := Rhs(g, m, row, col, k) - g.rhsZero, Rhs(g, m', row, col, k) - g.rhsZero;
    FactorStep(x, x', y);
    FactorStep(y, y', x);
    ValueIsAffine(g, m, row, col);
    ValueIsAffine(g, m', row, col);
    SettledNeighbours(Affine(g, m', row, col), Affine(g, m, row, col), g.actMin, g.actMax);
  }

  /** The next value on the way from `from` to `to`. */
  function Toward(from: int, to: int): int { if to < from then from - 1 else if to > from then from + 1 else from }

  /** Setting the left operand of term `k`, step by step, keeps the turns. */
  lemma {:induction false} LhsTurns(g: Dense, m0: seq<Byte>, m: seq<Byte>, row: nat, col: nat, k: nat, v: int)
    requires DenseSound(g, |m0|) && OperandsApart(g) && row < g.rows && col < g.cols && k < g.depth && -128 <= v <= 127
    requires g.actMin < g.actMax && SmallSteps(g) && AlwaysExactProduct(g, m0, row, col)
    requires |m| == |m0| && Start(g, m, col) == Start(g, m0, col)
    ensures Turns(Affine(g, WithLhs(g, m, row, col, k, v), row, col)) == Turns(Affine(g, m, row, col))
    decreases Abs(v - Lhs(g, m, row, col, k))
  {
    var now := Lhs(g, m, row, col, k);
    var u := Toward(now, v);
    var m1 := WithLhs(g, m, row, col, k, u);
    forall j: nat | j < g.depth
      ensures Lhs(g, m1, row, col, j) == (if j == k then u else Lhs(g, m, row, col, j)) && Rhs(g, m1, row, col, j) == Rhs(g, m, row, col, j)
    {
      WithLhsReads(g, m, row, col, k, u, j);
    }
    WithLhsReads(g, m, row, col, k, u, k);
    assert ExactOn(g, m, row, col) && ExactOn(g, m1, row, col);
    StepTurns(g, m0, m, m1, row, col, k);
    if u != v {
      LhsTurns(g, m0, m1, row, col, k, v);
      assert WithLhs(g, m1, row, col, k, v) == WithLhs(g, m, row, col, k, v);
    }
  }

  lemma {:induction false} RhsTurns(g: Dense, m0: seq<Byte>, m: seq<Byte>, row: nat, col: nat, k: nat, v: int)
    requires DenseSound(g, |m0|) && OperandsApart(g) && row < g.rows && col < g.cols && k < g.depth && -128 <= v <= 127
    requires g.actMin < g.actMax && SmallSteps(g) && AlwaysExactProduct(g, m0, row, col)
    requires |m| == |m0| && Start(g, m, col) == Start(g, m0, col)
    ensures Turns(Affine(g, WithRhs(g, m, row, col, k, v), row, col)) == Turns(Affine(g, m, row, col))
    decreases Abs(v - Rhs(g, m, row, col, k))
  {
    var now := Rhs(g, m, row, col, k);
    var u := Toward(now, v);
    var m1 := WithRhs(g, m, row, col, k, u);
    forall j: nat | j < g.depth
      ensures Rhs(g, m1, row, col, j) == (if j == k then u else Rhs(g, m, row, col, j)) && Lhs(g, m1, row, col, j) == Lhs(g, m, row, col, j)
    {
      WithRhsReads(g, m, row, col, k, u, j);
    }
    WithRhsReads(g, m, row, col, k, u, k);
    assert ExactOn(g, m, row, col) && ExactOn(g, m1, row, col);
    StepTurns(g, m0, m, m1, row, col, k);
    if u != v {
      RhsTurns(g, m0, m1, row, col, k, v);
      assert WithRhs(g, m1, row, col, k, v) == WithRhs(g, m, row, col, k, v);
    }
  }

  /** The first `n` terms hold `a` and `b`. */
  ghost predicate Filled(g: Dense, m: seq<Byte>, row: nat, col: nat, n: nat, a: int, b: int)
    requires DenseSound(g, |m|) && row < g.rows && col < g.cols && n <= g.depth
  {
    forall j: nat :: j < n ==> Lhs(g, m, row, col, j) == a && Rhs(g, m, row, col, j) == b
  }

  /** Both operands of term `k` set. */
  function WithTerm(g: Dense, m: seq<Byte>, row: nat, col: nat, k: nat, a: int, b: int): (m': seq<Byte>)
    requires DenseSound(g, |m|) && row < g.rows && col < g.cols && k < g.depth && -128 <= a <= 127 && -128 <= b <= 127
    ensures |m'| == |m|
  {
    WithRhs(g, WithLhs(g, m, row, col, k, a), row, col, k, b)
  }

  lemma WithTermReads(g: Dense, m: seq<Byte>, row: nat, col: nat, k: nat, a: int, b: int, j: nat)
    requires DenseSound(g, |m|) && OperandsApart(g) && row < g.rows && col < g.cols && k < g.depth && j < g.depth
    requires -128 <= a <= 127 && -128 <= b <= 127
    ensures var m' := WithTerm(g, m, row, col, k, a, b);
            && Lhs(g, m', row, col, j) == (if j == k then a else Lhs(g, m, row, col, j))
            && Rhs(g, m', row, col, j) == (if j == k then b else Rhs(g, m, row, col, j)) && Start(g, m', col) == Start(g, m, col)
  {
    WithLhsReads(g, m, row, col, k, a, j);
    WithRhsReads(g, WithLhs(g, m, row, col, k, a), row, col, k, b, j);
  }

  lemma TermTurns(g: Dense, m0: seq<Byte>, m: seq<Byte>, row: nat, col: nat, k: nat, a: int, b: int)
    requires DenseSound(g, |m0|) && OperandsApart(g) && row < g.rows && col < g.cols && k < g.depth
    requires -128 <= a <= 127 && -128 <= b <= 127
    requires g.actMin < g.actMax && SmallSteps(g) && AlwaysExactProduct(g, m0, row, col)
    requires |m| == |m0| && Start(g, m, col) == Start(g, m0, col)
    ensures Turns(Affine(g, WithTerm(g, m, row, col, k, a, b), row, col)) == Turns(Affine(g, m, row, col))
  {
    LhsTurns(g, m0, m, row, col, k, a);
    WithLhsReads(g, m, row, col, k, a, k);
    RhsTurns(g, m0, WithLhs(g, m, row, col, k, a), row, col, k, b);
  }

  /** A memory with the same bias whose first `n` terms are set and whose value wraps by the same turns. */
  ghost predicate FilledFrom(g: Dense, m0: seq<Byte>, m: seq<Byte>, row: nat, col: nat, n: nat, a: int, b: int)
    requires DenseSound(g, |m0|) && row < g.rows && col < g.cols && n <= g.depth
  {
    && |m| == |m0| && Start(g, m, col) == Start(g, m0, col) && Filled(g, m, row, col, n, a, b)
    && Turns(Affine(g, m, row, col)) == Turns(Affine(g, m0, row, col))
  }

  lemma FilledNext(g: Dense, m0: seq<Byte>, m: seq<Byte>, row: nat, col: nat, n: nat, a: int, b: int)
    requires DenseSound(g, |m0|) && OperandsApart(g) && row < g.rows && col < g.cols && n < g.depth
    requires -128 <= a <= 127 && -128 <= b <= 127 && FilledFrom(g, m0, m, row, col, n, a, b)
    requires g.actMin < g.actMax && SmallSteps(g) && AlwaysExactProduct(g, m0, row, col)
    ensures FilledFrom(g, m0, WithTerm(g, m, row, col, n, a, b), row, col, n + 1, a, b)
  {
    var m' := WithTerm(g, m, row, col, n, a, b);
    TermTurns(g, m0, m, row, col, n, a, b);
    WithTermReads(g, m, row, col, n, a, b, n);
    forall j: nat | j < n + 1 ensures Lhs(g, m', row, col, j) == a && Rhs(g, m', row, col, j) == b {
      WithTermReads(g, m, row, col, n, a, b, j);
    }
  }

  /** From any memory to one with all terms at a given corner, one step at a time. */
  lemma {:induction false} FillTurns(g: Dense, m0: seq<Byte>, row: nat, col: nat, n: nat, a: int, b: int) returns (m: seq<Byte>)
    requires DenseSound(g, |m0|) && OperandsApart(g) && row < g.rows && col < g.cols && n <= g.depth
    requires -128 <= a <= 127 && -128 <= b <= 127
    requires g.actMin < g.actMax && SmallSteps(g) && AlwaysExactProduct(g, m0, row, col)
    ensures FilledFrom(g, m0, m, row, col, n, a, b)
    decreases n
  {
    m := m0;
    if n > 0 {
      var front := FillTurns(g, m0, row, col, n - 1, a, b);
      FilledNext(g, m0, front, row, col, n - 1, a, b);
      m := WithTerm(g, front, row, col, n - 1, a, b);
    }
  }

  lemma FilledAffine(g: Dense, m: seq<Byte>, row: nat, col: nat, a: int, b: int)
    requires DenseSound(g, |m|) && row < g.rows && col < g.cols && Filled(g, m, row, col, g.depth, a, b)
    ensures Affine(g, m, row, col) == Start(g, m, col) + g.outZero + g.depth * Corner8(a, b, g.lhsZero, g.rhsZero)
  {
    AffineIs(g, m, row, col);
    var exact, c := ExactTerms(g, m, row, col), Corner8(a, b, g.lhsZero, g.rhsZero);
    forall k | 0 <= k < |exact| ensures exact[k] == c { TermIsProduct(g, m, row, col, k); }
    SumBetween(exact, g.depth, c, c);
  }

  /**
   The product is exact for all operands if and only if its extremes fit: the clamp hides
   everything, or the least and the greatest value wrap together.
   */
  lemma ProductFitsIff(g: Dense, m0: seq<Byte>, row: nat, col: nat)
    requires DenseSound(g, |m0|) && OperandsApart(g) && SmallSteps(g) && row < g.rows && col < g.cols
    ensures AlwaysExactProduct(g, m0, row, col) <==> ProductFits(g, Start(g, m0, col))
  {
    if ProductFits(g, Start(g, m0, col)) {
      forall m: seq<Byte> | |m| == |m0| && Start(g, m, col) == Start(g, m0, col) ensures ExactOn(g, m, row, col) {
        FittingProductExact(g, m, row, col);
      }
    }
    if AlwaysExactProduct(g, m0, row, col) && g.actMin < g.actMax { ExtremesFit(g, m0, row, col); }
  }

  /** A product exact for all operands is settled with all its terms at a corner, and wraps by the turns it always does. */
  lemma CornerTurns(g: Dense, m0: seq<Byte>, row: nat, col: nat, a: int, b: int)
    requires DenseSound(g, |m0|) && OperandsApart(g) && SmallSteps(g) && row < g.rows && col < g.cols
    requires AlwaysExactProduct(g, m0, row, col) && g.actMin < g.actMax && -128 <= a <= 127 && -128 <= b <= 127
    ensures var x := Start(g, m0, col) + g.outZero + g.depth * Corner8(a, b, g.lhsZero, g.rhsZero);
            OneTurn(x, x, g.actMin, g.actMax) && Turns(x) == Turns(Affine(g, m0, row, col))
  {
    var m := FillTurns(g, m0, row, col, g.depth, a, b);
    FilledAffine(g, m, row, col, a, b);
    assert ExactOn(g, m, row, col);
    ValueIsAffine(g, m, row, col);
    SettledIff(Affine(g, m, row, col), g.actMin, g.actMax);
  }

  lemma ExtremesFit(g: Dense, m0: seq<Byte>, row: nat, col: nat)
    requires DenseSound(g, |m0|) && OperandsApart(g) && SmallSteps(g) && row < g.rows && col < g.cols
    requires AlwaysExactProduct(g, m0, row, col) && g.actMin < g.actMax
    ensures OneTurn(LeastAffine(g, Start(g, m0, col)), GreatestAffine(g, Start(g, m0, col)), g.actMin, g.actMax)
  {
    var a, b := LeastReached(g.lhsZero, g.rhsZero);
    CornerTurns(g, m0, row, col, a, b);
    var c, d := GreatestReached(g.lhsZero, g.rhsZero);
    CornerTurns(g, m0, row, col, c, d);
  }

  // ---------------------------------------------------------------- int8 zero points

  predicate Int8Zeros(za: int, zb: int) { -128 <= za <= 127 && -128 <= zb <= 127 }

  lemma ZeroBetween(za: int, zb: int)
    requires Int8Zeros(za, zb)
    ensures Least(za, zb) <= 0 <= Greatest(za, zb)
  {
    MulNonNegative(128 + za, 127 - zb);
    MulNonNegative(128 + za, 128 + zb);
    assert Corner8(-128, 127, za, zb) == -((128 + za) * (127 - zb));
    assert Corner8(-128, -128, za, zb) == (128 + za) * (128 + zb);
  }

  lemma CentralTurn(least: int, x: int, greatest: int, lo: int, hi: int)
    requires least <= x <= greatest && InInt32(x)
    ensures OneTurn(least, greatest, lo, hi) <==> INT32_MIN <= least && greatest <= INT32_MAX
  {
    TurnsOf(least);
    TurnsOf(greatest);
  }

  /** With int8 zero points and a bias and output zero point that fit together, the extremes must fit an `int32_t`. */
  lemma Int8ProductFitsIff(g: Dense, m0: seq<Byte>, row: nat, col: nat)
    requires DenseSound(g, |m0|) && OperandsApart(g) && row < g.rows && col < g.cols
    requires Int8Zeros(g.lhsZero, g.rhsZero) && InInt32(Start(g, m0, col) + g.outZero)
    ensures AlwaysExactProduct(g, m0, row, col) <==>
              || g.actMin == g.actMax
              || (INT32_MIN <= LeastAffine(g, Start(g, m0, col)) && GreatestAffine(g, Start(g, m0, col)) <= INT32_MAX)
  {
    ProductFitsIff(g, m0, row, col);
    ZeroBetween(g.lhsZero, g.rhsZero);
    var s := Start(g, m0, col);
    MulMonotone(Least(g.lhsZero, g.rhsZero), 0, g.depth);
    MulMonotone(0, Greatest(g.lhsZero, g.rhsZero), g.depth);
    CentralTurn(LeastAffine(g, s), s + g.outZero, GreatestAffine(g, s), g.actMin, g.actMax);
  }

  /** The depths up to which an unbiased product is exact, for the widest and for the symmetric zero points. */
  lemma DepthLimits(g: Dense, m0: seq<Byte>, row: nat, col: nat)
    requires DenseSound(g, |m0|) && OperandsApart(g) && row < g.rows && col < g.cols
    requires g.biasAt.None? && g.outZero == 0 && g.actMin < g.actMax
    ensures g.lhsZero == -128 && g.rhsZero == -128 ==> (AlwaysExactProduct(g, m0, row, col) <==> g.depth <= 33025)
    ensures g.lhsZero == 0 && g.rhsZero == 0 ==> (AlwaysExactProduct(g, m0, row, col) <==> g.depth <= 131071)
  {
    if g.lhsZero == -128 && g.rhsZero == -128 {
      Int8ProductFitsIff(g, m0, row, col);
      assert Least(-128, -128) == 0 && Greatest(-128, -128) == 65025;
    }
    if g.lhsZero == 0 && g.rhsZero == 0 {
      Int8ProductFitsIff(g, m0, row, col);
      assert Least(0, 0) == -16256 && Greatest(0, 0) == 16384;
    }
  }

  /** One term too many, all at the greatest product: the least activation comes out where the greatest is due. */
  lemma LongProductWraps(g: Dense, m: seq<Byte>, row: nat, col: nat)
    requires DenseSound(g, |m|) && row < g.rows && col < g.cols && g.depth == 33026 && g.biasAt.None? && g.outZero == 0
    requires g.lhsZero == -128 && g.rhsZero == -128 && forall i :: 0 <= i < |m| ==> m[i] == 127
    ensures Affine(g, m, row, col) > INT32_MAX && Value(g, m, row, col) == g.actMin
  {
    forall j: nat | j < g.depth ensures Lhs(g, m, row, col, j) == 127 && Rhs(g, m, row, col, j) == 127 {
      DenseCellsInside(g, row, col, j);
    }
    FilledAffine(g, m, row, col, 127, 127);
    assert Corner8(127, 127, -128, -128) == 65025;
    ValueIsAffine(g, m, row, col);
    WrapIs(Affine(g, m, row, col));
  }

  // ---------------------------------------------------------------- sums

  predicate ExactSumOn(g: Sum, m: seq<Byte>, i: nat)
    requires SumSound(g, |m|) && i < g.count
  {
    Element(g, m, i) == Clamp(ExactSum(g, m, i), g.actMin, g.actMax)
  }

  ghost predicate AlwaysExactSum(g: Sum, size: nat, i: nat)
    requires SumSound(g, size) && i < g.count
  {
    forall m: seq<Byte> :: |m| == size ==> ExactSumOn(g, m, i)
  }

  /** The sum of two zero bytes. */
  function Offset(g: Sum): int { g.outZero - g.lhsZero - g.rhsZero }

  predicate SumFits(g: Sum) { g.actMin == g.actMax || OneTurn(Offset(g) - 256, Offset(g) + 254, g.actMin, g.actMax) }

  lemma FittingSumExact(g: Sum, m: seq<Byte>, i: nat)
    requires SumSound(g, |m|) && i < g.count && SumFits(g)
    ensures ExactSumOn(g, m, i)
  {
    ElementIsSum(g, m, i);
    if g.actMin < g.actMax { SettledBetween(ExactSum(g, m, i), Offset(g) - 256, Offset(g) + 254, g.actMin, g.actMax); }
  }

  /** Every value between the extremes is the sum of two bytes. */
  lemma SumReached(g: Sum, size: nat, i: nat, x: int)
    requires SumSound(g, size) && i < g.count && g.lhsAt != g.rhsAt && Offset(g) - 256 <= x <= Offset(g) + 254
    requires AlwaysExactSum(g, size, i)
    ensures Settled(x, g.actMin, g.actMax)
  {
    var d := x - Offset(g);
    var a := Max(-128, Min(127, d));
    var zeros: seq<Byte> := seq(size, _ => 0);
    var m := zeros[g.lhsAt + i := Byte8(a)][g.rhsAt + i := Byte8(d - a)];
    RoundTrip8(a);
    RoundTrip8(d - a);
    assert ExactSumOn(g, m, i) && ExactSum(g, m, i) == x;
    ElementIsSum(g, m, i);
  }

  lemma {:induction false} SumTurns(g: Sum, size: nat, i: nat, n: nat)
    requires SumSound(g, size) && i < g.count && g.lhsAt != g.rhsAt && n <= 510 && g.actMin < g.actMax
    requires AlwaysExactSum(g, size, i)
    ensures Turns(Offset(g) - 256 + n) == Turns(Offset(g) - 256)
    decreases n
  {
    if n > 0 {
      SumTurns(g, size, i, n - 1);
      SumReached(g, size, i, Offset(g) - 256 + n - 1);
      SumReached(g, size, i, Offset(g) - 256 + n);
      SettledNeighbours(Offset(g) - 256 + n, Offset(g) - 256 + n - 1, g.actMin, g.actMax);
    }
  }

  /** The addition of two different tensors is exact for all data if and only if its extremes fit. */
  lemma SumFitsIff(g: Sum, size: nat, i: nat)
    requires SumSound(g, size) && i < g.count && g.lhsAt != g.rhsAt
    ensures AlwaysExactSum(g, size, i) <==> SumFits(g)
  {
    if SumFits(g) {
      forall m: seq<Byte> | |m| == size ensures ExactSumOn(g, m, i) { FittingSumExact(g, m, i); }
    }
    if AlwaysExactSum(g, size, i) && g.actMin < g.actMax { SumExtremesFit(g, size, i); }
  }

  lemma SumExtremesFit(g: Sum, size: nat, i: nat)
    requires SumSound(g, size) && i < g.count && g.lhsAt != g.rhsAt && g.actMin < g.actMax && AlwaysExactSum(g, size, i)
    ensures OneTurn(Offset(g) - 256, Offset(g) + 254, g.actMin, g.actMax)
  {
    SumTurns(g, size, i, 510);
    SumReached(g, size, i, Offset(g) - 256);
    SumReached(g, size, i, Offset(g) + 254);
    SettledIff(Offset(g) - 256, g.actMin, g.actMax);
    SettledIff(Offset(g) + 254, g.actMin, g.actMax);
  }
}
