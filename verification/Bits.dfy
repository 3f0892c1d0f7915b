/**
 Unsigned machine words as natural numbers.  Every bit operation the address
 ranges and the staging allocator use is defined by halving, so that each fact
 about it is a short induction over the word with division by two only.
 */
module Bits {

  /** The number of bits of an address. */
  const WIDTH: nat := 64

  const TWO31: nat := 0x8000_0000
  const TWO32: nat := 0x1_0000_0000
  const TWO64: nat := 0x1_0000_0000_0000_0000

  /** A 64-bit address. */
  type Addr = x: nat | x < TWO64

  /** A 32-bit unsigned word. */
  type Word = x: nat | x < TWO32

  type Byte = x: nat | x < 256

  function Pow2(n: nat): (r: nat)
    ensures r > 0
  {
    if n == 0 then 1 else 2 * Pow2(n - 1)
  }

  /** Bit `k` of `a`, counted from the least significant one. */
  predicate Bit(a: nat, k: nat)
    decreases k
  {
    if k == 0 then a % 2 == 1 else Bit(a / 2, k - 1)
  }

  function BoolBit(b: bool): (r: nat)
    ensures r < 2
    ensures (r % 2 == 1) == b
  {
    if b then 1 else 0
  }

  function And(a: nat, b: nat): nat {
    if a == 0 || b == 0 then 0
    else BoolBit(a % 2 == 1 && b % 2 == 1) + 2 * And(a / 2, b / 2)
  }

  function Or(a: nat, b: nat): nat
    decreases a + b
  {
    if a == 0 then b else if b == 0 then a
    else BoolBit(a % 2 == 1 || b % 2 == 1) + 2 * Or(a / 2, b / 2)
  }

  function Xor(a: nat, b: nat): nat
    decreases a + b
  {
    if a == 0 then b else if b == 0 then a
    else BoolBit((a % 2 == 1) != (b % 2 == 1)) + 2 * Xor(a / 2, b / 2)
  }

  function PopCount(a: nat): nat {
    if a == 0 then 0 else a % 2 + PopCount(a / 2)
  }

  /** Count of trailing zeros of a 64-bit word; the word zero has 64 of them. */
  function Ctz64(a: nat): (r: nat)
    requires a < TWO64
    ensures a == 0 ==> r == WIDTH
    ensures a != 0 ==> r < WIDTH && Bit(a, r)
  {
    Pow2AtWidth();
    if a == 0 then WIDTH else LowestBit(a, WIDTH)
  }

  /** The position of the lowest set bit of a non-zero `width`-bit word. */
  function LowestBit(a: nat, width: nat): (r: nat)
    requires 0 < a < Pow2(width)
    ensures r < width && Bit(a, r)
  {
    if a % 2 == 1 then 0 else 1 + LowestBit(a / 2, width - 1)
  }

  /** `val` with its bits `last..first` replaced by the low bits of `x`. */
  function InsertBits(val: nat, first: nat, last: nat, x: nat): nat
    requires last <= first
    decreases first
  {
    if last > 0 then val % 2 + 2 * InsertBits(val / 2, first - 1, last - 1, x)
    else x % 2 + 2 * (if first == 0 then val / 2 else InsertBits(val / 2, first - 1, 0, x / 2))
  }

  /** `a >> n`, without a power of two in sight. */
  function Shr(a: nat, n: nat): nat
    decreases n
  {
    if n == 0 then a else Shr(a / 2, n - 1)
  }

  /** The low `n` bits of `a`. */
  function LowBits(a: nat, n: nat): nat
    decreases n
  {
    if n == 0 then 0 else a % 2 + 2 * LowBits(a / 2, n - 1)
  }

  /** The bits `first..last` of `a`, shifted down to position zero. */
  function Field(a: nat, first: nat, last: nat): nat
    requires last <= first + 1
  {
    LowBits(Shr(a, last), first + 1 - last)
  }

  /** The parity of the bits of `a` selected by `mask`. */
  predicate Parity(a: nat, mask: nat) {
    PopCount(And(a, mask)) % 2 == 1
  }

  // ---------------------------------------------------------------- words as bit strings

  lemma {:induction false} LowestBitIsLowest(a: nat, width: nat, k: nat)
    requires 0 < a < Pow2(width) && k < LowestBit(a, width)
    ensures !Bit(a, k)
    decreases width
  {
    if k > 0 { LowestBitIsLowest(a / 2, width - 1, k - 1); }
  }

  lemma Ctz64IsLowest(a: nat, k: nat)
    requires 0 < a < TWO64 && k < Ctz64(a)
    ensures !Bit(a, k)
  {
    Pow2AtWidth();
    LowestBitIsLowest(a, WIDTH, k);
  }

  lemma {:induction false} BitOfZero(k: nat)
    ensures !Bit(0, k)
  {
    if k > 0 { BitOfZero(k - 1); }
  }

  lemma {:induction false} Pow2Sum(m: nat, n: nat)
    ensures Pow2(m + n) == Pow2(m) * Pow2(n)
    decreases m
  {
    if m > 0 { Pow2Sum(m - 1, n); }
  }

  lemma Pow2AtWidth()
    ensures Pow2(WIDTH) == TWO64
  {
    Pow2At31();
    Pow2Square(32, TWO32);
  }

  lemma Pow2At31()
    ensures Pow2(31) == TWO31 && Pow2(32) == TWO32
  {
    Pow2Square(8, 0x100);
    Pow2Square(16, 0x1_0000);
  }

  lemma Pow2Fits(n: nat)
    requires n <= WIDTH
    ensures Pow2(n) <= TWO64 && (n < WIDTH ==> Pow2(n) < TWO64)
  {
    Pow2AtWidth();
    Pow2Monotone(n, WIDTH);
    if n < WIDTH { Pow2Monotone(n + 1, WIDTH); }
  }

  lemma Pow2Square(n: nat, v: nat)
    requires Pow2(n) == v
    ensures Pow2(n + n) == v * v
  {
    Pow2Sum(n, n);
  }

  lemma {:induction false} Pow2Monotone(m: nat, n: nat)
    requires m <= n
    ensures Pow2(m) <= Pow2(n)
    decreases n
  {
    if m < n { Pow2Monotone(m, n - 1); }
  }

  /** Words below `2^n` are equal as soon as their low `n` bits are. */
  lemma {:induction false} SameBitsSameWord(a: nat, b: nat, n: nat)
    requires a < Pow2(n) && b < Pow2(n)
    requires forall k :: 0 <= k < n ==> Bit(a, k) == Bit(b, k)
    ensures a == b
    decreases n
  {
    if n > 0 {
      assert Bit(a, 0) == Bit(b, 0);
      forall k | 0 <= k < n - 1 ensures Bit(a / 2, k) == Bit(b / 2, k) {
        assert Bit(a, k + 1) == Bit(b, k + 1);
      }
      SameBitsSameWord(a / 2, b / 2, n - 1);
    }
  }

  lemma {:induction false} BitOfAnd(a: nat, b: nat, k: nat)
    ensures Bit(And(a, b), k) == (Bit(a, k) && Bit(b, k))
    decreases k
  {
    if a == 0 || b == 0 { BitOfZero(k); }
    else if k > 0 { BitOfAnd(a / 2, b / 2, k - 1); }
  }

  lemma {:induction false} BitOfOr(a: nat, b: nat, k: nat)
    ensures Bit(Or(a, b), k) == (Bit(a, k) || Bit(b, k))
    decreases k
  {
    if a == 0 || b == 0 { BitOfZero(k); }
    else if k > 0 { BitOfOr(a / 2, b / 2, k - 1); }
  }

  lemma {:induction false} BitOfLowBits(a: nat, n: nat, k: nat)
    ensures Bit(LowBits(a, n), k) == (k < n && Bit(a, k))
    ensures LowBits(a, n) < Pow2(n)
    decreases n
  {
    if n == 0 { BitOfZero(k); }
    else { BitOfLowBits(a / 2, n - 1, if k > 0 then k - 1 else 0); }
  }

  lemma {:induction false} BitOfXor(a: nat, b: nat, k: nat)
    ensures Bit(Xor(a, b), k) == (Bit(a, k) != Bit(b, k))
    decreases k
  {
    if a == 0 || b == 0 { BitOfZero(k); }
    else if k > 0 { BitOfXor(a / 2, b / 2, k - 1); }
  }

  lemma {:induction false} BitOfInsert(val: nat, first: nat, last: nat, x: nat, k: nat)
    requires last <= first
    ensures Bit(InsertBits(val, first, last, x), k)
         == if last <= k <= first then Bit(x, k - last) else Bit(val, k)
    decreases first
  {
    if k > 0 {
      if last > 0 { BitOfInsert(val / 2, first - 1, last - 1, x, k - 1); }
      else if first > 0 { BitOfInsert(val / 2, first - 1, 0, x / 2, k - 1); }
    }
  }

  lemma {:induction false} InsertBound(val: nat, first: nat, last: nat, x: nat, n: nat)
    requires last <= first < n && val < Pow2(n)
    ensures InsertBits(val, first, last, x) < Pow2(n)
    decreases first
  {
    assert Pow2(n) == 2 * Pow2(n - 1);
    assert val / 2 < Pow2(n - 1);
    if last > 0 { InsertBound(val / 2, first - 1, last - 1, x, n - 1); }
    else if first > 0 { InsertBound(val / 2, first - 1, 0, x / 2, n - 1); }
  }

  lemma InsertFits(val: nat, first: nat, last: nat, x: nat)
    requires last <= first < WIDTH && val < TWO64
    ensures InsertBits(val, first, last, x) < TWO64
  {
    Pow2AtWidth();
    InsertBound(val, first, last, x, WIDTH);
  }

  lemma {:induction false} AndBound(a: nat, b: nat)
    ensures And(a, b) <= b
    decreases b
  {
    if a != 0 && b != 0 { AndBound(a / 2, b / 2); }
  }

  lemma SameBitsSameAddr(a: nat, b: nat)
    requires a < TWO64 && b < TWO64
    requires forall k :: 0 <= k < WIDTH ==> Bit(a, k) == Bit(b, k)
    ensures a == b
  {
    Pow2AtWidth();
    SameBitsSameWord(a, b, WIDTH);
  }

  lemma {:induction false} BitOfShr(a: nat, n: nat, k: nat)
    ensures Bit(Shr(a, n), k) == Bit(a, n + k)
    decreases n
  {
    if n > 0 { BitOfShr(a / 2, n - 1, k); }
  }

  lemma {:induction false} ShrStep(a: nat, n: nat)
    ensures Shr(a, n + 1) == Shr(a, n) / 2
    decreases n
  {
    if n > 0 { ShrStep(a / 2, n - 1); }
  }

  // ---------------------------------------------------------------- parity

  lemma ParityStep(a: nat, m: nat)
    ensures Parity(a, m) == ((a % 2 == 1 && m % 2 == 1) != Parity(a / 2, m / 2))
  {
    if a != 0 && m != 0 {
      var low := BoolBit(a % 2 == 1 && m % 2 == 1);
      assert And(a, m) == low + 2 * And(a / 2, m / 2);
      assert And(a, m) / 2 == And(a / 2, m / 2) && And(a, m) % 2 == low;
      assert PopCount(And(a, m)) == low + PopCount(And(a / 2, m / 2));
    }
  }

  /** Parity looks at the bits under the mask and at nothing else. */
  lemma {:induction false} ParityFrame(a: nat, b: nat, m: nat)
    requires forall k: nat :: Bit(m, k) ==> Bit(a, k) == Bit(b, k)
    ensures Parity(a, m) == Parity(b, m)
    decreases m
  {
    if m > 0 {
      assert m % 2 == 1 ==> Bit(m, 0);
      assert Bit(a, 0) == (a % 2 == 1) && Bit(b, 0) == (b % 2 == 1);
      forall k: nat | Bit(m / 2, k) ensures Bit(a / 2, k) == Bit(b / 2, k) {
        assert Bit(m, k + 1);
        assert Bit(a, k + 1) == Bit(b, k + 1);
      }
      ParityFrame(a / 2, b / 2, m / 2);
      ParityStep(a, m);
      ParityStep(b, m);
    }
  }

  /** Two words that differ, under the mask, in exactly one bit have opposite parities. */
  lemma {:induction false} ParityFlip(a: nat, b: nat, m: nat, p: nat)
    requires Bit(m, p) && Bit(a, p) != Bit(b, p)
    requires forall k: nat :: k != p && Bit(m, k) ==> Bit(a, k) == Bit(b, k)
    ensures Parity(a, m) != Parity(b, m)
    decreases p
  {
    ParityStep(a, m);
    ParityStep(b, m);
    assert Bit(a, 0) == (a % 2 == 1) && Bit(b, 0) == (b % 2 == 1) && Bit(m, 0) == (m % 2 == 1);
    forall k: nat | k + 1 != p && Bit(m / 2, k) ensures Bit(a / 2, k) == Bit(b / 2, k) {
      assert Bit(m, k + 1);
      assert Bit(a, k + 1) == Bit(b, k + 1);
    }
    if p == 0 {
      ParityFrame(a / 2, b / 2, m / 2);
    } else {
      ParityFlip(a / 2, b / 2, m / 2, p - 1);
    }
  }

  lemma ParityOfZero(m: nat)
    ensures !Parity(0, m)
  {}

  /** Under a mask of at most two bits, parity is their exclusive or. */
  lemma ParityOfPair(a: nat, m: nat, p: nat, q: nat)
    requires forall k: nat :: Bit(m, k) <==> k == p || k == q
    ensures Parity(a, m) == if p == q then Bit(a, p) else Bit(a, p) != Bit(a, q)
  {
    forall k: nat ensures !Bit(0, k) { BitOfZero(k); }
    ParityOfZero(m);
    var z := InsertBits(a, q, q, 0);
    forall k: nat ensures Bit(z, k) == (k != q && Bit(a, k)) { BitOfInsert(a, q, q, 0, k); }
    if Bit(z, p) { ParityFlip(z, 0, m, p); } else { ParityFrame(z, 0, m); }
    if Bit(a, q) { ParityFlip(a, z, m, q); } else { ParityFrame(a, z, m); }
  }

  // ---------------------------------------------------------------- alignment

  /** The low `w` bits are clear. */
  predicate Aligned(x: nat, w: nat)
    decreases w
  {
    w == 0 || (x % 2 == 0 && Aligned(x / 2, w - 1))
  }

  lemma {:induction false} AlignedLess(x: nat, w: nat, v: nat)
    requires Aligned(x, w) && v <= w
    ensures Aligned(x, v)
    decreases v
  {
    if v > 0 { AlignedLess(x / 2, w - 1, v - 1); }
  }

  /** Between aligned bounds only the block number decides. */
  lemma {:induction false} BlockOrder(s: nat, a: nat, e: nat, w: nat)
    requires Aligned(s, w) && Aligned(e, w)
    ensures s <= a < e <==> Shr(s, w) <= Shr(a, w) < Shr(e, w)
    decreases w
  {
    if w > 0 { BlockOrder(s / 2, a / 2, e / 2, w - 1); }
  }

  lemma {:induction false} ShrOfDifference(s: nat, e: nat, n: nat)
    requires s <= e && Aligned(s, n) && Aligned(e, n)
    ensures Shr(s, n) <= Shr(e, n) && Shr(e - s, n) == Shr(e, n) - Shr(s, n)
    decreases n
  {
    if n > 0 { ShrOfDifference(s / 2, e / 2, n - 1); }
  }

  lemma {:induction false} ShrOfHalf(x: nat, n: nat)
    requires Aligned(x, n + 1)
    ensures Shr(x, n) == 2 * Shr(x / 2, n)
    decreases n
  {
    if n > 0 { ShrOfHalf(x / 2, n - 1); }
  }

  // ---------------------------------------------------------------- sums of distinct bits

  lemma {:induction false} BitOfPow2(n: nat, k: nat)
    ensures Bit(Pow2(n), k) == (k == n)
    decreases k
  {
    if n == 0 { if k > 0 { BitOfZero(k - 1); } }
    else if k > 0 { BitOfPow2(n - 1, k - 1); }
  }

  /** Or-ing a single bit into a word that lies below it adds it. */
  lemma {:induction false} OrAbove(a: nat, b: nat, n: nat)
    requires a < Pow2(n) && b < 2
    ensures Or(a, b * Pow2(n)) == a + b * Pow2(n) < Pow2(n + 1)
    decreases n
  {
    if b == 1 {
      assert b * Pow2(n) == Pow2(n);
      if n > 0 && a != 0 {
        OrAbove(a / 2, b, n - 1);
        assert b * Pow2(n - 1) == Pow2(n - 1);
        assert Pow2(n) / 2 == Pow2(n - 1) && Pow2(n) % 2 == 0;
      }
    }
  }

  lemma {:induction false} BitAbove(a: nat, b: nat, n: nat, k: nat)
    requires a < Pow2(n) && b < 2
    ensures Bit(a + b * Pow2(n), k) == if k == n then b == 1 else Bit(a, k)
    decreases n
  {
    if n == 0 {
      if k > 0 { BitOfZero(k - 1); }
    } else {
      assert (a + b * Pow2(n)) / 2 == a / 2 + b * Pow2(n - 1);
      if k > 0 { BitAbove(a / 2, b, n - 1, k - 1); }
    }
  }
}
