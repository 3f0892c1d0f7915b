/**
 The firmware side of an operator call: the staging allocator and the descriptor it fills.
 Whatever it stages passes validation, with the output apart from all that is read.
 */
module Staging {
  import opened Arith
  import opened Bits
  import opened FixedPoint
  import opened HybridOperator

  const EXTMEM_BASE: nat := 0x2000_0000
  const EXTMEM_SIZE: nat := 0x80_0000
  const STAGING_OFFSET: nat := 0x50_0000
  const STAGING_SIZE: nat := 0x30_0000
  const DESCRIPTOR_OFFSET: nat := 0x40_0300

  // ---------------------------------------------------------------- powers of two

  predicate PowerOfTwo(a: nat) { a > 0 && (a == 1 || (a % 2 == 0 && PowerOfTwo(a / 2))) }

  /** `a & (a - 1)` is zero exactly for the powers of two. */
  lemma {:induction false} PowerOfTwoTest(a: nat)
    requires a > 0
    ensures And(a, a - 1) == 0 <==> PowerOfTwo(a)
  {
    if a % 2 == 0 {
      PowerOfTwoTest(a / 2);
      assert (a - 1) / 2 == a / 2 - 1;
    } else if a > 1 {
      assert (a - 1) / 2 == a / 2;
      AndSelf(a / 2);
    }
  }

  lemma {:induction false} AndSelf(a: nat)
    ensures And(a, a) == a
  {
    if a > 0 { AndSelf(a / 2); }
  }

  lemma {:induction false} AndOnes(x: nat, w: nat)
    requires x < Pow2(w)
    ensures And(x, Pow2(w) - 1) == x
    decreases w
  {
    if x > 0 {
      assert w > 0;
      assert (Pow2(w) - 1) / 2 == Pow2(w - 1) - 1;
      AndOnes(x / 2, w - 1);
    }
  }

  lemma HalfRemainder(x: nat, a: nat)
    requires a > 0
    ensures x % (2 * a) == 2 * ((x / 2) % a) + x % 2
  {
    var q, r := (x / 2) / a, (x / 2) % a;
    assert x / 2 == q * a + r;
    assert x == q * (2 * a) + (2 * r + x % 2);
    QuotientIs(x, 2 * a, q, 2 * r + x % 2);
  }

  /** Clearing the bits below a power of two rounds down to a multiple of it. */
  lemma {:induction false} ClearLow(x: nat, a: nat, w: nat)
    requires x < Pow2(w) && PowerOfTwo(a) && a <= Pow2(w)
    ensures And(x, Pow2(w) - a) == x - x % a
    decreases a
  {
    if a == 1 {
      AndOnes(x, w);
      assert x % 1 == 0;
    } else {
      assert w > 0;
      assert (Pow2(w) - a) / 2 == Pow2(w - 1) - a / 2 && (Pow2(w) - a) % 2 == 0;
      ClearLow(x / 2, a / 2, w - 1);
      HalfRemainder(x, a / 2);
      assert 2 * (a / 2) == a;
    }
  }

  // ---------------------------------------------------------------- the allocator

  /** The least multiple of `a` that is not below `c`. */
  function AlignUp(c: nat, a: nat): nat
    requires a > 0
  {
    (c + a - 1) - (c + a - 1) % a
  }

  /** Rounding down passes no multiple. */
  lemma FloorAbove(x: nat, a: nat, m: nat)
    requires a > 0 && m % a == 0 && m <= x
    ensures m <= x - x % a
  {
    var p, q := m / a, x / a;
    assert m == p * a && x == q * a + x % a;
    assert (p - q) * a == p * a - q * a;
    MultipleIsFar(p - q, a);
    MulMonotone(p, q, a);
  }

  lemma AlignUpMultiple(c: nat, a: nat)
    requires a > 0
    ensures c <= AlignUp(c, a) && AlignUp(c, a) % a == 0
  {
    var x := c + a - 1;
    assert x == (x / a) * a + x % a;
    QuotientIs((x / a) * a, a, x / a, 0);
  }

  lemma AlignUpIsLeast(c: nat, a: nat, m: nat)
    requires a > 0 && m % a == 0 && m >= c
    ensures AlignUp(c, a) <= m
  {
    var x := c + a - 1;
    var p, q := m / a, x / a;
    assert m == p * a && x == q * a + x % a;
    assert (q - p) * a == q * a - p * a;
    MultipleIsFar(q - p, a);
    MulMonotone(q, p, a);
  }

  datatype Block = Block(offset: nat, size: nat)

  /** Blocks in the order of allocation: non-empty, one after another, below the cursor. */
  predicate Layout(blocks: seq<Block>, cursor: nat) {
    && (forall i :: 0 <= i < |blocks| ==> blocks[i].size > 0 && blocks[i].offset + blocks[i].size <= cursor)
    && forall i, j :: 0 <= i < j < |blocks| ==> blocks[i].offset + blocks[i].size <= blocks[j].offset
  }

  predicate Fits(cursor: nat, size: nat, bytes: nat, alignment: nat) {
    bytes != 0 && PowerOfTwo(alignment) && AlignUp(cursor, alignment) + bytes <= size
  }

  /** The cursor after a block. */
  function EndOf(cursor: nat, bytes: nat, alignment: nat): (e: nat)
    requires alignment > 0
    ensures e >= cursor + bytes
  {
    AlignUpMultiple(cursor, alignment);
    AlignUp(cursor, alignment) + bytes
  }

  class Allocator {
    const base: Word
    const size: Word
    var cursor: Word
    ghost var blocks: seq<Block>

    ghost predicate Valid()
      reads this
    {
      0 < base && base + size < TWO32 && cursor <= size && Layout(blocks, cursor)
    }

    constructor ()
      ensures Valid() && base == EXTMEM_BASE + STAGING_OFFSET && size == STAGING_SIZE && cursor == 0 && blocks == []
    {
      base, size, cursor, blocks := EXTMEM_BASE + STAGING_OFFSET, STAGING_SIZE, 0, [];
    }

    /**
     A block at the next multiple of the alignment, or 0.  It succeeds exactly when the request
     is sensible and room is left; failure changes nothing.  The blocks handed out stay in the
     arena and apart in every sequence of calls.
     */
    method Allocate(bytes: Word, alignment: Word) returns (address: Word)
      requires Valid()
      modifies this
      ensures Valid()
      ensures address != 0 <==> Fits(old(cursor), size, bytes, alignment)
      ensures address == 0 ==> cursor == old(cursor) && blocks == old(blocks)
      ensures address != 0 ==>
                && address - base == AlignUp(old(cursor), alignment) && (address - base) % alignment == 0
                && blocks == old(blocks) + [Block(address - base, bytes)] && cursor == EndOf(old(cursor), bytes, alignment)
    {
      if bytes == 0 || alignment == 0 { return 0; }
      PowerOfTwoTest(alignment);
      if And(alignment, alignment - 1) != 0 { return 0; }
      var sum := (cursor + alignment - 1) % TWO32;
      RoundedSum(cursor, alignment);
      var aligned := And(sum, TWO32 - alignment);
      if aligned < cursor || bytes > size || aligned > size - bytes { return 0; }
      LayoutGrows(blocks, cursor, Block(aligned, bytes));
      cursor := aligned + bytes;
      blocks := blocks + [Block(aligned, bytes)];
      address := base + aligned;
    }
  }

  lemma LayoutGrows(blocks: seq<Block>, cursor: nat, b: Block)
    requires Layout(blocks, cursor) && cursor <= b.offset && b.size > 0
    ensures Layout(blocks + [b], b.offset + b.size)
  {}

  /** The masked 32-bit sum is the rounded cursor, or falls below the cursor when rounding leaves the address space. */
  lemma RoundedSum(c: Word, a: Word)
    requires PowerOfTwo(a)
    ensures var aligned := And((c + a - 1) % TWO32, TWO32 - a);
            && aligned < TWO32
            && (if AlignUp(c, a) < TWO32 then aligned == AlignUp(c, a) else aligned < c)
    ensures AlignUp(c, a) % a == 0 && AlignUp(c, a) >= c
  {
    AlignUpMultiple(c, a);
    if c + a - 1 < TWO32 { RoundedInside(c, a); } else { RoundedOutside(c, a); }
  }

  lemma RoundedInside(c: Word, a: Word)
    requires PowerOfTwo(a) && c + a - 1 < TWO32
    ensures And((c + a - 1) % TWO32, TWO32 - a) == AlignUp(c, a) < TWO32
  {
    var x: Word := c + a - 1;
    assert x % TWO32 == x;
    ClearLowWord(x, a);
  }

  lemma RoundedOutside(c: Word, a: Word)
    requires PowerOfTwo(a) && c + a - 1 >= TWO32
    ensures And((c + a - 1) % TWO32, TWO32 - a) < c && AlignUp(c, a) >= TWO32
  {
    var y := c + a - 1 - TWO32;
    assert (c + a - 1) % TWO32 == y;
    AndBound(TWO32 - a, y);
    AndCommutes(y, TWO32 - a);
    DividesTwo32(a);
    FloorAbove(c + a - 1, a, TWO32);
  }

  lemma {:induction false} AndCommutes(a: nat, b: nat)
    ensures And(a, b) == And(b, a)
  {
    if a > 0 && b > 0 { AndCommutes(a / 2, b / 2); }
  }

  lemma ClearLowWord(x: Word, a: Word)
    requires PowerOfTwo(a)
    ensures And(x, TWO32 - a) == x - x % a
  {
    var w := 32;
    assert Pow2(w) == TWO32 by { Pow2At31(); }
    ClearLow(x, a, w);
  }

  lemma DividesTwo32(a: nat)
    requires PowerOfTwo(a) && a < TWO32
    ensures TWO32 % a == 0
  {
    Pow2At31();
    DividesPower(a, 32);
  }

  lemma {:induction false} DividesPower(a: nat, w: nat)
    requires PowerOfTwo(a) && a <= Pow2(w)
    ensures Pow2(w) % a == 0
    decreases a
  {
    if a > 1 {
      assert w > 0;
      DividesPower(a / 2, w - 1);
      HalfRemainder(Pow2(w), a / 2);
      assert 2 * (a / 2) == a;
    }
  }

  // ---------------------------------------------------------------- sizes of client tensors

  function ProductOf(dims: seq<Int32>, n: nat): int
    requires n <= |dims|
  {
    if n == 0 then 1 else ProductOf(dims, n - 1) * dims[n - 1]
  }

  predicate AllAbove(dims: seq<Int32>, n: nat)
    requires n <= |dims|
  {
    forall i :: 0 <= i < n ==> dims[i] > 0
  }

  /** The dimensions count something and the bytes fit 32 bits. */
  predicate Sized(dims: seq<Int32>, elementSize: nat) {
    0 < |dims| <= MAX_DIMS && AllAbove(dims, |dims|) && elementSize * ProductOf(dims, |dims|) < TWO32
  }

  lemma {:induction false} ProductOfGrows(dims: seq<Int32>, i: nat, n: nat)
    requires i <= n <= |dims| && AllAbove(dims, n)
    ensures 1 <= ProductOf(dims, i) <= ProductOf(dims, n)
    decreases n
  {
    if n > 0 {
      ProductOfGrows(dims, if i < n then i else n - 1, n - 1);
      AtLeast(ProductOf(dims, n - 1), dims[n - 1]);
    }
  }

  lemma ScaledProduct(dims: seq<Int32>, elementSize: nat, i: nat)
    requires i < |dims| && AllAbove(dims, i + 1)
    ensures ProductOf(dims, i) >= 1 && elementSize * ProductOf(dims, i + 1) == (elementSize * ProductOf(dims, i)) * dims[i]
  {
    ProductOfGrows(dims, i, i);
  }

  method TensorBytes(dims: seq<Int32>, elementSize: Word) returns (bytes: Word)
    requires elementSize > 0
    ensures bytes == if Sized(dims, elementSize) then elementSize * ProductOf(dims, |dims|) else 0
    ensures bytes != 0 <==> Sized(dims, elementSize)
  {
    if |dims| <= 0 || |dims| > MAX_DIMS { return 0; }
    bytes := elementSize;
    for i := 0 to |dims|
      invariant AllAbove(dims, i) && bytes == elementSize * ProductOf(dims, i) && bytes > 0
    {
      if dims[i] <= 0 { return 0; }
      Guard(TWO32, bytes, dims[i]);
      ScaledProduct(dims, elementSize, i);
      if bytes > (TWO32 - 1) / dims[i] {
        if AllAbove(dims, |dims|) {
          ProductOfGrows(dims, i + 1, |dims|);
          Scales(ProductOf(dims, i + 1), ProductOf(dims, |dims|), elementSize);
        }
        return 0;
      }
      AtLeast(bytes, dims[i]);
      bytes := bytes * dims[i];
    }
  }
}
