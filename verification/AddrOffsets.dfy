/** Flat offsets within a stripe, and the subset test on interleaved ranges. */
module AddrOffsets {
  import opened Bits
  import opened Interleave
  import opened InterleaveAdd
  import opened AddrRanges
  import opened Wrappers

  // ---------------------------------------------------------------- getOffset

  const MAX_ADDR: Addr := TWO64 - 1

  /** `(end - start) >> masks`, on 64-bit words. */
  function Size(r: AddrRange): nat {
    Shr((r.end - r.start) % TWO64, |r.masks|)
  }

  /** The offset of an address that lies within the bounds. */
  function Offset(r: AddrRange, a: nat): Addr {
    (Removed(a, r.masks) - Removed(r.start, r.masks)) % TWO64
  }

  /** The distance of what the removal loop leaves of the two addresses. */
  function RawOffset(r: AddrRange, a: nat): nat {
    var lsbs := SortedLsbs(r.masks);
    (Discard(a, lsbs, |lsbs|) - Discard(r.start, lsbs, |lsbs|)) % TWO64
  }

  method GetOffset(r: AddrRange, a: Addr) returns (offset: Addr)
    requires Discardable(SortedLsbs(r.masks))
    ensures offset == if r.start <= a < r.end then RawOffset(r, a) else MAX_ADDR
    ensures DistinctLsbs(r.masks) && r.start <= a < r.end ==> offset == Offset(r, a)
  {
    if !(a >= r.start && a < r.end) { return MAX_ADDR; }
    if Interleaved(r) {
      var x := RemoveIntlvBits(r.masks, a);
      var s := RemoveIntlvBits(r.masks, r.start);
      offset := (x - s) % TWO64;
    } else {
      assert SortedLsbs(r.masks) == [];
      CompressNothing(a, 0);
      CompressNothing(r.start, 0);
      offset := a - r.start;
    }
  }

  lemma RemovedIsAddr(a: Addr, masks: seq<Addr>)
    requires DistinctLsbs(masks)
    ensures Removed(a, masks) < TWO64
  {
    RemovedBound(a, masks);
    Pow2Fits(WIDTH - |masks|);
  }

  /** No two addresses of a stripe share an offset. */
  lemma OffsetInjective(r: AddrRange, a: Addr, b: Addr)
    requires DistinctLsbs(r.masks) && In(r, a) && In(r, b)
    ensures Offset(r, a) == Offset(r, b) ==> a == b
  {
    RemovedIsAddr(a, r.masks);
    RemovedIsAddr(b, r.masks);
    RemovedIsAddr(r.start, r.masks);
    if a < b { RemovedIncreases(a, b, r.masks, r.intlvMatch); }
    if b < a { RemovedIncreases(b, a, r.masks, r.intlvMatch); }
    if Offset(r, a) == Offset(r, b) {
      SameResidue(Removed(a, r.masks), Removed(b, r.masks), Removed(r.start, r.masks));
    }
  }

  lemma SameResidue(x: Addr, y: Addr, s: Addr)
    requires (x - s) % TWO64 == (y - s) % TWO64
    ensures x == y
  {}

  /** Every bit of every mask lies below position `w`. */
  ghost predicate MasksBelow(masks: seq<Addr>, w: nat) {
    forall i, k: nat :: 0 <= i < |masks| && Bit(masks[i], k) ==> k < w
  }

  lemma LsbsBelow(masks: seq<Addr>, w: nat)
    requires DistinctLsbs(masks) && MasksBelow(masks, w)
    ensures Increasing(SortedLsbs(masks), 0) && |SortedLsbs(masks)| == |masks|
    ensures forall i :: 0 <= i < |SortedLsbs(masks)| ==> SortedLsbs(masks)[i] < 0 + w
  {
    SortedLsbsIncrease(masks);
    var s := SortedLsbs(masks);
    forall i | 0 <= i < |s| ensures s[i] < 0 + w {
      assert s[i] in s;
      var j :| 0 <= j < |masks| && Ctz64(masks[j]) == s[i];
      assert Bit(masks[j], s[i]);
    }
  }

  /** With aligned bounds, the removed words of the range are those between its removed bounds. */
  lemma RemovedWithin(r: AddrRange, a: nat, w: nat)
    requires DistinctLsbs(r.masks) && MasksBelow(r.masks, w)
    requires Aligned(r.start, w) && Aligned(r.end, w)
    ensures |r.masks| <= w
    ensures r.start <= a < r.end <==>
              Shr(r.start, |r.masks|) <= Removed(a, r.masks) < Shr(r.end, |r.masks|)
  {
    var n, lsbs := |r.masks|, SortedLsbs(r.masks);
    LsbsBelow(r.masks, w);
    CompressHigh(a, lsbs, 0, w);
    BlockOrder(r.start, a, r.end, w);
    ShrCompose(r.start, n, w);
    ShrCompose(r.end, n, w);
    BlockOrder(Shr(r.start, n), Removed(a, r.masks), Shr(r.end, n), w - n);
  }

  lemma {:induction false} ShrCompose(x: nat, n: nat, w: nat)
    requires n <= w && Aligned(x, w)
    ensures Aligned(Shr(x, n), w - n) && Shr(Shr(x, n), w - n) == Shr(x, w)
    decreases n
  {
    if n > 0 { ShrCompose(x / 2, n - 1, w - 1); }
  }

  lemma SizeIsDifference(r: AddrRange, w: nat)
    requires DistinctLsbs(r.masks) && MasksBelow(r.masks, w) && r.start <= r.end
    requires Aligned(r.start, w) && Aligned(r.end, w)
    ensures Removed(r.start, r.masks) == Shr(r.start, |r.masks|)
    ensures Removed(r.end, r.masks) == Shr(r.end, |r.masks|)
    ensures Size(r) == Removed(r.end, r.masks) - Removed(r.start, r.masks)
  {
    LsbsBelow(r.masks, w);
    CompressAligned(r.start, SortedLsbs(r.masks), 0, w);
    CompressAligned(r.end, SortedLsbs(r.masks), 0, w);
    AlignedLess(r.start, w, |r.masks|);
    AlignedLess(r.end, w, |r.masks|);
    assert (r.end - r.start) % TWO64 == r.end - r.start;
    ShrOfDifference(r.start, r.end, |r.masks|);
  }

  /** Between bounds aligned above the highest mask bit, offsets grow with the address, so that the offset is the rank in the stripe. */
  lemma OffsetIncreases(r: AddrRange, a: Addr, b: Addr, w: nat)
    requires DistinctLsbs(r.masks) && MasksBelow(r.masks, w) && r.start <= r.end
    requires Aligned(r.start, w) && Aligned(r.end, w) && In(r, a) && In(r, b) && a < b
    ensures Offset(r, a) < Offset(r, b)
  {
    SizeIsDifference(r, w);
    RemovedWithin(r, a, w);
    RemovedIsAddr(b, r.masks);
    RemovedIncreases(a, b, r.masks, r.intlvMatch);
    Ordered(Removed(a, r.masks), Removed(b, r.masks), Removed(r.start, r.masks));
  }

  lemma Ordered(x: nat, y: nat, s: nat)
    requires s <= x < y < TWO64
    ensures (x - s) % TWO64 < (y - s) % TWO64
  {}

  /** Between bounds aligned above the highest mask bit, offsets stay below the size ... */
  lemma OffsetBelowSize(r: AddrRange, a: Addr, w: nat)
    requires DistinctLsbs(r.masks) && MasksBelow(r.masks, w) && r.start <= r.end
    requires Aligned(r.start, w) && Aligned(r.end, w) && In(r, a)
    ensures Offset(r, a) < Size(r)
  {
    SizeIsDifference(r, w);
    RemovedWithin(r, a, w);
    RemovedIsAddr(a, r.masks);
  }

  /** The positions `lsbs` are the lowest bits, from `k` up, of the masks. */
  predicate LsbsFrom(lsbs: seq<nat>, k: nat, masks: seq<Addr>) {
    Increasing(lsbs, k) &&
    (forall i :: 0 <= i < |masks| && Ctz64(masks[i]) >= k ==> Ctz64(masks[i]) in lsbs) &&
    forall p :: p in lsbs ==> IsLsb(p, masks)
  }

  predicate IsLsb(p: nat, masks: seq<Addr>) {
    exists i :: 0 <= i < |masks| && Ctz64(masks[i]) == p
  }

  lemma LsbsFromNext(lsbs: seq<nat>, k: nat, masks: seq<Addr>)
    requires LsbsFrom(lsbs, k, masks) && lsbs != []
    ensures lsbs[0] == k ==> LsbsFrom(lsbs[1..], k + 1, masks)
    ensures lsbs[0] != k ==> k !in lsbs && LsbsFrom(lsbs, k + 1, masks)
  {
    if lsbs[0] == k {
      var t := lsbs[1..];
      assert lsbs == [k] + t;
      forall p | p in t ensures IsLsb(p, masks) { assert p in lsbs; }
    }
  }

  /** The part of the selector that addresses shifted down by `k` can still decide. */
  predicate MatchesFrom(a: nat, k: nat, masks: seq<Addr>, m: nat) {
    forall i :: 0 <= i < |masks| && Ctz64(masks[i]) >= k ==> Parity(a, Shr(masks[i], k)) == Bit(m, i)
  }

  lemma LowBitOfShr(mask: Addr, k: nat)
    requires mask != 0 && Ctz64(mask) >= k
    ensures Shr(mask, k) / 2 == Shr(mask, k + 1)
    ensures (Shr(mask, k) % 2 == 1) == (Ctz64(mask) == k)
  {
    ShrStep(mask, k);
    BitOfShr(mask, k, 0);
    if k < Ctz64(mask) { Ctz64IsLowest(mask, k); }
  }

  lemma MatchesBelow(c: nat, b: nat, k: nat, masks: seq<Addr>, m: nat)
    requires DistinctLsbs(masks) && b < 2 && MatchesFrom(c, k + 1, masks, m)
    requires forall i :: 0 <= i < |masks| && Ctz64(masks[i]) == k ==>
               Bit(m, i) == ((b == 1) != Parity(c, Shr(masks[i], k + 1)))
    ensures MatchesFrom(b + 2 * c, k, masks, m)
  {
    var a := b + 2 * c;
    forall i | 0 <= i < |masks| && Ctz64(masks[i]) >= k ensures Parity(a, Shr(masks[i], k)) == Bit(m, i) {
      LowBitOfShr(masks[i], k);
      ParityStep(a, Shr(masks[i], k));
    }
  }

  /** The lowest bit of a mask can always be chosen to satisfy its selector bit. */
  lemma SolveRemoved(c: nat, lsbs: seq<nat>, k: nat, w: nat, masks: seq<Addr>, m: nat) returns (a: nat)
    requires DistinctLsbs(masks) && lsbs != [] && lsbs[0] == k && IsLsb(k, masks)
    requires w > 0 && c < Pow2(w - 1) && MatchesFrom(c, k + 1, masks, m)
    ensures a < Pow2(w) && Compress(a, lsbs, k) == Compress(c, lsbs[1..], k + 1) && MatchesFrom(a, k, masks, m)
  {
    var j :| 0 <= j < |masks| && Ctz64(masks[j]) == k;
    var b := BoolBit(Bit(m, j) != Parity(c, Shr(masks[j], k + 1)));
    a := b + 2 * c;
    MatchesBelow(c, b, k, masks, m);
    CompressUnfold(a, lsbs, k);
    assert a / 2 == c;
  }

  lemma SolveKept(c: nat, b: nat, lsbs: seq<nat>, k: nat, w: nat, masks: seq<Addr>, m: nat) returns (a: nat)
    requires DistinctLsbs(masks) && lsbs != [] && lsbs[0] != k && b < 2 && w > 0 && c < Pow2(w - 1)
    requires k !in lsbs && LsbsFrom(lsbs, k, masks) && MatchesFrom(c, k + 1, masks, m)
    ensures a < Pow2(w) && Compress(a, lsbs, k) == b + 2 * Compress(c, lsbs, k + 1) && MatchesFrom(a, k, masks, m)
  {
    a := b + 2 * c;
    MatchesBelow(c, b, k, masks, m);
    CompressUnfold(a, lsbs, k);
    assert a / 2 == c && a % 2 == b;
  }

  lemma HalfBelow(x: nat, n: nat)
    requires n > 0 && x < Pow2(n)
    ensures x / 2 < Pow2(n - 1) && x == x % 2 + 2 * (x / 2)
  {}

  /** Choosing the free bits and then, from the top down, the lowest bit of every mask. */
  lemma {:induction false} Solve(x: nat, lsbs: seq<nat>, k: nat, w: nat, masks: seq<Addr>, m: nat) returns (a: nat)
    requires DistinctLsbs(masks) && LsbsFrom(lsbs, k, masks)
    requires forall i :: 0 <= i < |lsbs| ==> lsbs[i] < k + w
    requires |lsbs| <= w && x < Pow2(w - |lsbs|)
    ensures a < Pow2(w) && Compress(a, lsbs, k) == x && MatchesFrom(a, k, masks, m)
    decreases w
  {
    if lsbs == [] {
      CompressNothing(x, k);
      a := x;
    } else {
      LsbsFromNext(lsbs, k, masks);
      assert IsLsb(lsbs[0], masks);
      if lsbs[0] == k {
        var c := Solve(x, lsbs[1..], k + 1, w - 1, masks, m);
        a := SolveRemoved(c, lsbs, k, w, masks, m);
      } else {
        IncreasingGap(lsbs, k + 1, |lsbs| - 1);
        HalfBelow(x, w - |lsbs|);
        var c := Solve(x / 2, lsbs, k + 1, w - 1, masks, m);
        a := SolveKept(c, x % 2, lsbs, k, w, masks, m);
      }
    }
  }

  /** Every word that fits is the removed form of an address of the stripe. */
  lemma RemovedOnto(x: nat, masks: seq<Addr>, m: nat) returns (a: Addr)
    requires DistinctLsbs(masks) && |masks| <= WIDTH && x < Pow2(WIDTH - |masks|)
    ensures Removed(a, masks) == x && Matches(a, masks, m)
  {
    SortedLsbsIncrease(masks);
    var lsbs := SortedLsbs(masks);
    forall i | 0 <= i < |lsbs| ensures lsbs[i] < WIDTH { assert lsbs[i] in lsbs; }
    var b := Solve(x, lsbs, 0, WIDTH, masks, m);
    Pow2AtWidth();
    a := b;
    forall i | 0 <= i < |masks| ensures Parity(a, masks[i]) == Bit(m, i) {
      assert Shr(masks[i], 0) == masks[i];
    }
  }

  /** ... and every number below the size is the offset of an address of the stripe. */
  lemma OffsetReached(r: AddrRange, y: nat, w: nat) returns (a: Addr)
    requires DistinctLsbs(r.masks) && MasksBelow(r.masks, w) && r.start <= r.end
    requires Aligned(r.start, w) && Aligned(r.end, w)
    requires r.intlvMatch < Pow2(|r.masks|) && y < Size(r)
    ensures In(r, a) && Offset(r, a) == y
  {
    SizeIsDifference(r, w);
    RemovedBound(r.end, r.masks);
    RemovedIsAddr(r.end, r.masks);
    var x := y + Removed(r.start, r.masks);
    a := RemovedOnto(x, r.masks, r.intlvMatch);
    RemovedWithin(r, a, w);
  }

  // ---------------------------------------------------------------- granularity and isSubset

  /** A 32-bit signed integer, held as its unsigned pattern, widened to an address. */
  function SignExtend(c: Word): Addr {
    if c >= TWO31 then c + (TWO64 - TWO32) else c
  }

  lemma {:induction false} BitOfMultiple(c: nat, m: nat, n: nat, k: nat)
    requires k < n
    ensures Bit(c + m * Pow2(n), k) == Bit(c, k)
    decreases n
  {
    assert m * Pow2(n) == 2 * (m * Pow2(n - 1));
    assert (c + m * Pow2(n)) / 2 == c / 2 + m * Pow2(n - 1);
    if k > 0 { BitOfMultiple(c / 2, m, n - 1, k - 1); }
  }

  lemma BitOfSignExtend(c: Word, k: nat)
    requires k < 32
    ensures Bit(SignExtend(c), k) == Bit(c, k)
  {
    Pow2At31();
    BitOfMultiple(c, TWO32 - 1, 32, k);
  }

  /** One of the masks uses bit `k`. */
  predicate UsedBit(masks: seq<Addr>, k: nat) {
    exists i :: 0 <= i < |masks| && Bit(masks[i], k)
  }

  /** Bit `k` is the lowest bit used by any mask. */
  predicate LowestMaskBit(masks: seq<Addr>, k: nat) {
    UsedBit(masks, k) && forall j :: 0 <= j < k ==> !UsedBit(masks, j)
  }

  /**
   The combined mask is a 32-bit integer, so the answer exists exactly when some mask
   has one of its low 32 bits set; the shift by 64 that remains is undefined.
   */
  method Granularity(masks: seq<Addr>) returns (g: Option<nat>)
    requires |masks| > 0
    ensures g.Some? <==> exists k :: 0 <= k < 32 && UsedBit(masks, k)
    ensures g.Some? ==> exists k: nat :: LowestMaskBit(masks, k) && g.value == Pow2(k)
  {
    var combined: Word := 0;
    forall k: nat ensures !Bit(0, k) { BitOfZero(k); }
    for i := 0 to |masks|
      invariant forall k: nat :: Bit(combined, k) <==> k < 32 && UsedBit(masks[..i], k)
    {
      var merged := Or(combined, masks[i]);
      forall k: nat
        ensures Bit(LowBits(merged, 32), k) <==> k < 32 && UsedBit(masks[..i + 1], k)
      {
        BitOfLowBits(merged, 32, k);
        BitOfOr(combined, masks[i], k);
        UsedBitNext(masks, i, k);
      }
      assert LowBits(merged, 32) < TWO32 by { Pow2At31(); BitOfLowBits(merged, 32, 0); }
      combined := LowBits(merged, 32);
    }
    assert masks[..|masks|] == masks;
    if combined == 0 { return None; }
    var lowest := Ctz64(SignExtend(combined));
    assert lowest < 32 && Bit(combined, lowest) && forall k: nat :: k < lowest ==> !Bit(combined, k) by {
      LowestOfSignExtend(combined);
    }
    assert LowestMaskBit(masks, lowest);
    g := Some(Pow2(lowest));
  }

  lemma UsedBitNext(masks: seq<Addr>, i: nat, k: nat)
    requires i < |masks|
    ensures UsedBit(masks[..i + 1], k) == (UsedBit(masks[..i], k) || Bit(masks[i], k))
  {
    var s, t := masks[..i], masks[..i + 1];
    if Bit(masks[i], k) { assert Bit(t[i], k); }
    if UsedBit(s, k) {
      var j :| 0 <= j < |s| && Bit(s[j], k);
      assert Bit(t[j], k);
    }
    if UsedBit(t, k) && !Bit(masks[i], k) {
      var j :| 0 <= j < |t| && Bit(t[j], k);
      assert Bit(s[j], k);
    }
  }

  lemma LowestOfSignExtend(c: Word)
    requires c != 0
    ensures Ctz64(SignExtend(c)) < 32 && Bit(c, Ctz64(SignExtend(c)))
    ensures forall k: nat :: k < Ctz64(SignExtend(c)) ==> !Bit(c, k)
  {
    Pow2At31();
    var s := SignExtend(c);
    var low := LowestBit(c, 32);
    BitOfSignExtend(c, low);
    if Ctz64(s) > low { Ctz64IsLowest(s, low); }
    BitOfSignExtend(c, Ctz64(s));
    forall k: nat | k < Ctz64(s) ensures !Bit(c, k) {
      Ctz64IsLowest(s, k);
      BitOfSignExtend(c, k);
    }
  }

  /** The selector is constant on blocks of the granularity. */
  lemma SameBlockSameStripe(masks: seq<Addr>, m: nat, g: nat, a: nat, b: nat)
    requires LowestMaskBit(masks, g) && Shr(a, g) == Shr(b, g)
    ensures Matches(a, masks, m) == Matches(b, masks, m)
  {
    forall i | 0 <= i < |masks| ensures Parity(a, masks[i]) == Parity(b, masks[i]) {
      forall k: nat | Bit(masks[i], k) ensures Bit(a, k) == Bit(b, k) {
        assert UsedBit(masks, k);
        BitOfShr(a, g, k - g);
        BitOfShr(b, g, k - g);
      }
      ParityFrame(a, b, masks[i]);
    }
  }

  /** An address between two others less than a block apart shares the block of one of them. */
  lemma {:induction false} BlockOfEither(s: nat, a: nat, t: nat, g: nat)
    requires s <= a <= t && t - s < Pow2(g)
    ensures Shr(a, g) == Shr(s, g) || Shr(a, g) == Shr(t, g)
    decreases g
  {
    ShrDistance(s, t, g);
    ShrOrder(s, a, g);
    ShrOrder(a, t, g);
  }

  lemma {:induction false} ShrOrder(a: nat, b: nat, g: nat)
    requires a <= b
    ensures Shr(a, g) <= Shr(b, g)
    decreases g
  {
    if g > 0 { ShrOrder(a / 2, b / 2, g - 1); }
  }

  lemma {:induction false} ShrDistance(s: nat, t: nat, g: nat)
    requires s <= t && t - s <= Pow2(g)
    ensures Shr(t, g) <= Shr(s, g) + 1
    decreases g
  {
    if g > 0 { ShrDistance(s / 2, t / 2, g - 1); }
  }

  /** Both end points in the stripe, and a size of at most one block, put the whole range in. */
  lemma EndPointsSuffice(r: AddrRange, g: nat, start: nat, end: nat)
    requires LowestMaskBit(r.masks, g)
    requires start < end && end - start <= Pow2(g) && In(r, start) && In(r, end - 1)
    ensures forall a :: start <= a < end ==> In(r, a)
  {
    forall a | start <= a < end ensures In(r, a) {
      BlockOfEither(start, a, end - 1, g);
      if Shr(a, g) == Shr(start, g) { SameBlockSameStripe(r.masks, r.intlvMatch, g, a, start); }
      else { SameBlockSameStripe(r.masks, r.intlvMatch, g, a, end - 1); }
    }
  }

  /** One past the last address, where an end of zero stands for the top of the address space. */
  function Top(r: AddrRange): nat {
    if r.end == 0 then TWO64 else r.end
  }

  /** `None` stands for the undefined shift in `granularity`. */
  method IsSubset(s: AddrRange, r: AddrRange) returns (b: Option<bool>)
    requires !Interleaved(s)
    ensures !Interleaved(r) && s.start < Top(s) && r.start < Top(r) ==>
              b == Some(r.start <= s.start && Top(s) <= Top(r))
    ensures Interleaved(r) && s.start < s.end && b == Some(true) ==> forall a :: s.start <= a < s.end ==> In(r, a)
    ensures Interleaved(r) && s.start < s.end && b == Some(false) ==>
              (exists a :: s.start <= a < s.end && !In(r, a)) ||
              exists g: nat :: LowestMaskBit(r.masks, g) && s.end - s.start > Pow2(g)
    ensures b.None? ==> Interleaved(r) && forall k :: 0 <= k < 32 ==> !UsedBit(r.masks, k)
  {
    if Interleaved(r) {
      var low := Contains(r, s.start);
      if !low { return Some(false); }
      var high := Contains(r, (s.end - 1) % TWO64);
      if !high { return Some(false); }
      var g := Granularity(r.masks);
      if g.None? { return None; }
      ghost var k: nat :| LowestMaskBit(r.masks, k) && g.value == Pow2(k);
      b := Some(Size(s) <= g.value);
      assert Size(s) == (s.end - s.start) % TWO64;
      assert s.start < s.end ==> Size(s) == s.end - s.start && (s.end - 1) % TWO64 == s.end - 1;
      if s.start < s.end && s.end - s.start <= Pow2(k) {
        EndPointsSuffice(r, k, s.start, s.end);
      }
    } else if s.end <= s.start {
      b := Some(s.start >= r.start && r.end == 0);
    } else if r.end <= r.start {
      b := Some(s.start >= r.start);
    } else {
      b := Some(s.start >= r.start && s.end <= r.end);
    }
  }
}
