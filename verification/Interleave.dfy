/**
 Removing the interleave bits from an address and putting them back.

 The range loops work on the sorted positions of the lowest set bit of every
 mask.  `Compress` is the simple form of removal: walk the address once and leave
 out the listed positions.
 */
module Interleave {
  import opened Bits
  import opened Sorting

  // ---------------------------------------------------------------- masks

  function Identity(x: nat): int { x }

  function Lsbs(masks: seq<Addr>): (r: seq<nat>)
    ensures |r| == |masks|
    ensures forall i :: 0 <= i < |r| ==> r[i] == Ctz64(masks[i])
  {
    seq(|masks|, i requires 0 <= i < |masks| => Ctz64(masks[i]))
  }

  function SortedLsbs(masks: seq<Addr>): seq<nat> {
    SortBy(Lsbs(masks), Identity)
  }

  predicate NonZero(masks: seq<Addr>) {
    forall i :: 0 <= i < |masks| ==> masks[i] != 0
  }

  /** The masks have pairwise different lowest bits. */
  predicate DistinctLsbs(masks: seq<Addr>) {
    NonZero(masks) && forall i, j :: 0 <= i < j < |masks| ==> Ctz64(masks[i]) != Ctz64(masks[j])
  }

  /** No mask contains the lowest bit of a later mask. */
  predicate Triangular(masks: seq<Addr>) {
    forall i, j :: 0 <= i < j < |masks| ==> !Bit(masks[i], Ctz64(masks[j]))
  }

  ghost predicate Disjoint(masks: seq<Addr>) {
    forall i, j, k: nat :: 0 <= i < j < |masks| ==> !(Bit(masks[i], k) && Bit(masks[j], k))
  }

  /** `1 << lsb` is a shift of a 32-bit signed one, so positions up to 31 are defined. */
  predicate ShiftDefined(masks: seq<Addr>) {
    forall i :: 0 <= i < |masks| ==> Ctz64(masks[i]) <= 31
  }

  /** The masks whose lowest bit can be cleared by `~(1 << lsb)` without losing another bit. */
  predicate SafeMask(mask: Addr) {
    Ctz64(mask) < 31 || mask == TWO31
  }

  predicate Safe(masks: seq<Addr>) {
    forall i :: 0 <= i < |masks| ==> SafeMask(masks[i])
  }

  /** The selector: bit `i` of the match value is the parity under mask `i`. */
  predicate Matches(a: nat, masks: seq<Addr>, match_: nat) {
    forall i :: 0 <= i < |masks| ==> Parity(a, masks[i]) == Bit(match_, i)
  }

  lemma DisjointIsTriangular(masks: seq<Addr>)
    requires NonZero(masks) && Disjoint(masks)
    ensures Triangular(masks) && DistinctLsbs(masks)
  {
    forall i, j | 0 <= i < j < |masks|
      ensures !Bit(masks[i], Ctz64(masks[j])) && Ctz64(masks[i]) != Ctz64(masks[j])
    {
      assert Bit(masks[j], Ctz64(masks[j])) && Bit(masks[i], Ctz64(masks[i]));
    }
  }

  lemma TriangularIsDistinct(masks: seq<Addr>)
    requires NonZero(masks) && Triangular(masks)
    ensures DistinctLsbs(masks)
  {
    forall i, j | 0 <= i < j < |masks| ensures Ctz64(masks[i]) != Ctz64(masks[j]) {
      assert Bit(masks[i], Ctz64(masks[i]));
    }
  }

  // ---------------------------------------------------------------- removal

  /** `v` with its low `w` bits replaced; a field of width zero replaces nothing. */
  function InsertLow(v: nat, w: nat, x: nat): nat {
    if w == 0 then v else InsertBits(v, w - 1, 0, x)
  }

  /** `a` without the bit at position `p`. */
  function RemoveBit(a: nat, p: nat): nat
    decreases p
  {
    if p == 0 then a / 2 else a % 2 + 2 * RemoveBit(a / 2, p - 1)
  }

  /** Strictly increasing positions, none below `k`. */
  predicate Increasing(bs: seq<nat>, k: nat) {
    (forall i :: 0 <= i < |bs| ==> k <= bs[i]) && forall i, j :: 0 <= i < j < |bs| ==> bs[i] < bs[j]
  }

  /** Drop from `a`, whose lowest bit has position `k`, the bits at the positions `bs`. */
  function Compress(a: nat, bs: seq<nat>, k: nat): nat {
    if a == 0 then 0
    else if bs != [] && bs[0] == k then Compress(a / 2, bs[1..], k + 1)
    else a % 2 + 2 * Compress(a / 2, bs, k + 1)
  }

  lemma {:induction false} SortedLsbsIncrease(masks: seq<Addr>)
    requires DistinctLsbs(masks)
    ensures |SortedLsbs(masks)| == |masks| && Increasing(SortedLsbs(masks), 0)
    ensures forall i :: 0 <= i < |masks| ==> Ctz64(masks[i]) in SortedLsbs(masks)
    ensures forall p :: p in SortedLsbs(masks) ==>
              p < WIDTH && exists i :: 0 <= i < |masks| && Ctz64(masks[i]) == p
  {
    SortedLsbsMembers(masks);
    var s := SortedLsbs(masks);
    assert Distinct(Lsbs(masks));
    assert Distinct(s) by { SortPermutes(Lsbs(masks), Identity); }
    forall i, j | 0 <= i < j < |s| ensures s[i] < s[j] {
      assert Identity(s[i]) <= Identity(s[j]);
    }
  }

  lemma SortedLsbsMembers(masks: seq<Addr>)
    requires NonZero(masks)
    ensures |SortedLsbs(masks)| == |masks|
    ensures forall i :: 0 <= i < |masks| ==> Ctz64(masks[i]) in SortedLsbs(masks)
    ensures forall p :: p in SortedLsbs(masks) ==>
              p < WIDTH && exists i :: 0 <= i < |masks| && Ctz64(masks[i]) == p
  {
    var l, s := Lsbs(masks), SortedLsbs(masks);
    forall i | 0 <= i < |masks| ensures Ctz64(masks[i]) in s {
      assert l[i] in l;
    }
    forall p | p in s ensures p < WIDTH && exists i :: 0 <= i < |masks| && Ctz64(masks[i]) == p {
      var i :| 0 <= i < |l| && l[i] == p;
      assert Ctz64(masks[i]) == p;
    }
  }

  lemma {:induction false} IncreasingGap(bs: seq<nat>, k: nat, i: nat)
    requires Increasing(bs, k) && i < |bs|
    ensures bs[i] >= k + i
    decreases i
  {
    if i > 0 { IncreasingGap(bs, k, i - 1); }
  }

  lemma {:induction false} InsertLowRemoves(a: nat, p: nat)
    ensures InsertLow(a / 2, p, a) == RemoveBit(a, p)
    decreases p
  {
    if p > 0 { InsertLowRemoves(a / 2, p - 1); }
  }

  lemma {:induction false} CompressNothing(a: nat, k: nat)
    ensures Compress(a, [], k) == a
    decreases a
  {
    if a > 0 { CompressNothing(a / 2, k + 1); }
  }

  lemma {:induction false} RemoveBitOfZero(p: nat)
    ensures RemoveBit(0, p) == 0
  {
    if p > 0 { RemoveBitOfZero(p - 1); }
  }

  lemma IncreasingTail(bs: seq<nat>, p: nat, k: nat)
    requires Increasing(bs + [p], k)
    ensures Increasing(bs, k) && p >= k + |bs|
    ensures bs != [] && bs[0] == k ==> Increasing(bs[1..] + [p], k + 1)
    ensures bs != [] && bs[0] != k ==> Increasing(bs + [p], k + 1)
    ensures bs == [] && p != k ==> Increasing(bs + [p], k + 1)
    ensures bs != [] ==> p > k && (bs + [p])[1..] == bs[1..] + [p]
  {
    var cs := bs + [p];
    IncreasingGap(cs, k, |bs|);
    assert forall i :: 0 <= i < |bs| ==> cs[i] == bs[i];
    assert bs != [] ==> cs[0] == bs[0];
    assert bs != [] ==> cs[1..] == bs[1..] + [p];
  }

  lemma RemoveBitCons(b: nat, c: nat, p: nat)
    requires b < 2 && p > 0
    ensures RemoveBit(b + 2 * c, p) == b + 2 * RemoveBit(c, p - 1)
  {
    assert (b + 2 * c) / 2 == c && (b + 2 * c) % 2 == b;
  }

  /** One turn of the removal loop drops the next position. */
  lemma {:induction false} CompressNext(a: nat, bs: seq<nat>, p: nat, k: nat)
    requires Increasing(bs + [p], k)
    ensures p >= k + |bs|
    ensures RemoveBit(Compress(a, bs, k), p - k - |bs|) == Compress(a, bs + [p], k)
    decreases a
  {
    IncreasingTail(bs, p, k);
    if a == 0 {
      RemoveBitOfZero(p - k - |bs|);
    } else {
      CompressUnfold(a, bs, k);
      CompressUnfold(a, bs + [p], k);
      if bs != [] && bs[0] == k {
        CompressNext(a / 2, bs[1..], p, k + 1);
      } else if bs == [] && p == k {
        CompressNothing(a / 2, k + 1);
        CompressNothing(a, k);
      } else {
        CompressNext(a / 2, bs, p, k + 1);
        RemoveBitCons(a % 2, Compress(a / 2, bs, k + 1), p - k - |bs|);
      }
    }
  }

  /** Dropping the highest position first gives the same word. */
  lemma {:induction false} CompressLast(a: nat, bs: seq<nat>, p: nat, k: nat)
    requires Increasing(bs + [p], k)
    ensures p >= k
    ensures Compress(RemoveBit(a, p - k), bs, k) == Compress(a, bs + [p], k)
    decreases a
  {
    IncreasingTail(bs, p, k);
    if a == 0 {
      RemoveBitOfZero(p - k);
    } else {
      CompressUnfold(a, bs + [p], k);
      CompressUnfold(RemoveBit(a, p - k), bs, k);
      if bs != [] && bs[0] == k {
        CompressLast(a / 2, bs[1..], p, k + 1);
      } else if bs == [] && p == k {
        CompressNothing(a / 2, k + 1);
        CompressNothing(a / 2, k);
      } else {
        CompressLast(a / 2, bs, p, k + 1);
      }
    }
  }

  /** Only the positions that stay decide the compressed word. */
  lemma {:induction false} CompressFrame(a: nat, b: nat, bs: seq<nat>, k: nat)
    requires Increasing(bs, k)
    requires forall j: nat :: k + j !in bs ==> Bit(a, j) == Bit(b, j)
    ensures Compress(a, bs, k) == Compress(b, bs, k)
    decreases a + b
  {
    if a + b > 0 {
      assert k !in bs ==> Bit(a, 0) == Bit(b, 0);
      var cs := if bs != [] && bs[0] == k then bs[1..] else bs;
      forall j: nat | k + 1 + j !in cs ensures Bit(a / 2, j) == Bit(b / 2, j) {
        assert k + (j + 1) !in bs;
        assert Bit(a, j + 1) == Bit(b, j + 1);
      }
      assert bs != [] && bs[0] != k ==> k !in bs;
      CompressFrame(a / 2, b / 2, cs, k + 1);
      CompressUnfold(a, bs, k);
      CompressUnfold(b, bs, k);
    }
  }

  lemma CompressUnfold(a: nat, bs: seq<nat>, k: nat)
    ensures Compress(a, bs, k) == if bs != [] && bs[0] == k then Compress(a / 2, bs[1..], k + 1)
                                  else a % 2 + 2 * Compress(a / 2, bs, k + 1)
  {}

  lemma {:induction false} CompressBound(a: nat, bs: seq<nat>, k: nat, w: nat)
    requires Increasing(bs, k) && a < Pow2(w)
    requires forall i :: 0 <= i < |bs| ==> bs[i] < k + w
    ensures |bs| <= w && Compress(a, bs, k) < Pow2(w - |bs|)
    decreases w
  {
    if bs != [] { IncreasingGap(bs, k, |bs| - 1); }
    if a > 0 {
      if bs != [] && bs[0] == k { CompressBound(a / 2, bs[1..], k + 1, w - 1); }
      else { CompressBound(a / 2, bs, k + 1, w - 1); }
    }
  }

  /** Above every removed position the compressed word is the address, shifted. */
  lemma {:induction false} CompressHigh(a: nat, bs: seq<nat>, k: nat, w: nat)
    requires Increasing(bs, k)
    requires forall i :: 0 <= i < |bs| ==> bs[i] < k + w
    ensures |bs| <= w && Shr(Compress(a, bs, k), w - |bs|) == Shr(a, w)
    decreases w
  {
    if bs != [] { IncreasingGap(bs, k, |bs| - 1); }
    if w == 0 {
      assert bs == [];
      CompressNothing(a, k);
    } else {
      CompressUnfold(a, bs, k);
      if bs != [] && bs[0] == k {
        CompressHigh(a / 2, bs[1..], k + 1, w - 1);
      } else {
        CompressHigh(a / 2, bs, k + 1, w - 1);
        assert Compress(a, bs, k) / 2 == Compress(a / 2, bs, k + 1);
      }
    }
  }

  lemma {:induction false} CompressAligned(x: nat, bs: seq<nat>, k: nat, w: nat)
    requires Increasing(bs, k) && Aligned(x, w)
    requires forall i :: 0 <= i < |bs| ==> bs[i] < k + w
    ensures |bs| <= w && Compress(x, bs, k) == Shr(x, |bs|)
    decreases w
  {
    if bs != [] { IncreasingGap(bs, k, |bs| - 1); }
    if bs == [] {
      CompressNothing(x, k);
    } else {
      CompressUnfold(x, bs, k);
      if bs[0] == k {
        CompressAligned(x / 2, bs[1..], k + 1, w - 1);
      } else {
        CompressAligned(x / 2, bs, k + 1, w - 1);
        AlignedLess(x, w, |bs| + 1);
        ShrOfHalf(x, |bs|);
      }
    }
  }

  // ---------------------------------------------------------------- order

  /** The highest bit in which a smaller word differs from a larger one. */
  lemma {:induction false} TopDifference(a: nat, b: nat) returns (h: nat)
    requires a < b
    ensures !Bit(a, h) && Bit(b, h) && Shr(a, h + 1) == Shr(b, h + 1)
    decreases b
  {
    if a / 2 == b / 2 {
      h := 0;
      assert Shr(a, 1) == Shr(a / 2, 0) && Shr(b, 1) == Shr(b / 2, 0);
    } else {
      var g := TopDifference(a / 2, b / 2);
      h := g + 1;
    }
  }

  lemma {:induction false} CompressOrder(a: nat, b: nat, bs: seq<nat>, k: nat, h: nat)
    requires Increasing(bs, k) && k + h !in bs
    requires !Bit(a, h) && Bit(b, h) && Shr(a, h + 1) == Shr(b, h + 1)
    ensures Compress(a, bs, k) < Compress(b, bs, k)
    decreases h
  {
    CompressUnfold(a, bs, k);
    CompressUnfold(b, bs, k);
    if h == 0 {
      assert Shr(a, 1) == Shr(a / 2, 0) && Shr(b, 1) == Shr(b / 2, 0);
    } else {
      if bs != [] && bs[0] == k { CompressOrder(a / 2, b / 2, bs[1..], k + 1, h - 1); }
      else { CompressOrder(a / 2, b / 2, bs, k + 1, h - 1); }
    }
  }

  /** The word `removeIntlvBits` computes. */
  function Removed(a: nat, masks: seq<Addr>): nat {
    Compress(a, SortedLsbs(masks), 0)
  }

  lemma TopDifferenceFlips(a: nat, b: nat, m: Addr, h: nat)
    requires m != 0 && Ctz64(m) == h
    requires !Bit(a, h) && Bit(b, h) && Shr(a, h + 1) == Shr(b, h + 1)
    ensures Parity(a, m) != Parity(b, m)
  {
    forall k: nat | k != h && Bit(m, k) ensures Bit(a, k) == Bit(b, k) {
      if k < h { Ctz64IsLowest(m, k); }
      BitOfShr(a, h + 1, k - h - 1);
      BitOfShr(b, h + 1, k - h - 1);
    }
    ParityFlip(a, b, m, h);
  }

  /**
   Removal is strictly increasing on the addresses of one stripe, although it
   forgets bits that differ between them.
   */
  lemma {:induction false} RemovedIncreases(a: nat, b: nat, masks: seq<Addr>, match_: nat)
    requires DistinctLsbs(masks)
    requires Matches(a, masks, match_) && Matches(b, masks, match_)
    requires a < b
    ensures Removed(a, masks) < Removed(b, masks)
  {
    SortedLsbsIncrease(masks);
    var h := TopDifference(a, b);
    forall i | 0 <= i < |masks| ensures Ctz64(masks[i]) != h {
      if Ctz64(masks[i]) == h { TopDifferenceFlips(a, b, masks[i], h); }
    }
    CompressOrder(a, b, SortedLsbs(masks), 0, h);
  }

  /** What the first `n` turns of the loop leave: each drops one bit, as many places lower as turns went before. */
  function Discard(a: nat, lsbs: seq<nat>, n: nat): nat
    requires n <= |lsbs|
    decreases n
  {
    if n == 0 then a
    else RemoveBit(Discard(a, lsbs, n - 1), if lsbs[n - 1] < n then 0 else lsbs[n - 1] - (n - 1))
  }

  /** No turn counts a bit position below zero. */
  predicate Discardable(lsbs: seq<nat>) { forall i :: 0 <= i < |lsbs| ==> lsbs[i] == 0 || lsbs[i] >= i }

  lemma {:induction false} DiscardIsCompress(a: nat, lsbs: seq<nat>, n: nat)
    requires Increasing(lsbs, 0) && n <= |lsbs|
    ensures Discard(a, lsbs, n) == Compress(a, lsbs[..n], 0)
    decreases n
  {
    if n == 0 {
      CompressNothing(a, 0);
      assert lsbs[..0] == [];
    } else {
      DiscardIsCompress(a, lsbs, n - 1);
      assert lsbs[..n] == lsbs[..n - 1] + [lsbs[n - 1]];
      CompressNext(a, lsbs[..n - 1], lsbs[n - 1], 0);
    }
  }

  lemma {:induction false} RemoveBitShrinks(a: nat, p: nat)
    ensures RemoveBit(a, p) <= a
    decreases p
  {
    if p > 0 { RemoveBitShrinks(a / 2, p - 1); }
  }

  /** The bits the turns of the loop discard; for masks with distinct lowest bits, exactly those bits. */
  method RemoveIntlvBits(masks: seq<Addr>, a: Addr) returns (x: Addr)
    requires Discardable(SortedLsbs(masks))
    ensures x == Discard(a, SortedLsbs(masks), |SortedLsbs(masks)|)
    ensures DistinctLsbs(masks) ==> x == Removed(a, masks)
  {
    var lsbs := SortedLsbs(masks);
    if DistinctLsbs(masks) {
      SortedLsbsIncrease(masks);
      DiscardIsCompress(a, lsbs, |lsbs|);
      assert lsbs[..|lsbs|] == lsbs;
    }
    x := a;
    for i := 0 to |lsbs|
      invariant x == Discard(a, lsbs, i)
    {
      if lsbs[i] > 0 {
        InsertLowRemoves(x, lsbs[i] - i);
        RemoveBitShrinks(x, lsbs[i] - i);
        x := InsertLow(x / 2, lsbs[i] - i, x);
      } else {
        x := x / 2;
      }
    }
  }
}
