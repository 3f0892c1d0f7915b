/**
 Putting the interleave bits back, and when that undoes their removal.

 The loop spreads the address with `insertBits(a << 1, lsb - 1, 0, a)`, which
 duplicates the bit below the gap; a second loop then overwrites the gap with
 whatever makes the parity of the mask agree with the match value.
 */
module InterleaveAdd {
  import opened Bits
  import opened Interleave

  // ---------------------------------------------------------------- the first loop

  /** Make room for a bit at position `p` of a 64-bit word. */
  function AddBit(a: Addr, p: nat): (r: Addr)
    requires p < WIDTH
  {
    var doubled := (2 * a) % TWO64;
    if p > 0 then InsertFits(doubled, p - 1, 0, a); InsertBits(doubled, p - 1, 0, a) else doubled
  }

  predicate BelowWidth(bs: seq<nat>) {
    forall i :: 0 <= i < |bs| ==> bs[i] < WIDTH
  }

  /** The address after `i` turns of the first loop. */
  function Spread(a: Addr, lsbs: seq<nat>, i: nat): Addr
    requires i <= |lsbs| && BelowWidth(lsbs)
  {
    if i == 0 then a else AddBit(Spread(a, lsbs, i - 1), lsbs[i - 1])
  }

  lemma {:induction false} InsertDoubled(a: nat, p: nat)
    requires p > 0
    ensures RemoveBit(InsertBits(2 * a, p - 1, 0, a), p) == a
    decreases p
  {
    var y := InsertBits(2 * a, p - 1, 0, a);
    if p == 1 {
      assert y == a % 2 + 2 * a;
    } else {
      InsertSpread(a, p - 1);
      RemoveBitCons(a % 2, InsertBits(a, p - 2, 0, a / 2), p);
    }
  }

  /** The rest of a spread word, below its lowest bit. */
  lemma {:induction false} InsertSpread(a: nat, p: nat)
    requires p > 0
    ensures RemoveBit(InsertBits(a, p - 1, 0, a / 2), p) == a / 2
    decreases p
  {
    if p == 1 {
      assert InsertBits(a, 0, 0, a / 2) == (a / 2) % 2 + 2 * (a / 2);
    } else {
      InsertSpread(a / 2, p - 1);
    }
  }

  lemma {:induction false} InsertDoubledBound(a: nat, p: nat, w: nat)
    requires p > 0 && a < Pow2(w)
    ensures InsertBits(2 * a, p - 1, 0, a) < Pow2(w + 1)
    decreases p
  {
    if p > 1 { InsertSpreadBound(a, p - 1, w); }
  }

  lemma {:induction false} InsertSpreadBound(a: nat, p: nat, w: nat)
    requires p > 0 && a < Pow2(w)
    ensures InsertBits(a, p - 1, 0, a / 2) < Pow2(w)
    decreases p
  {
    if w == 0 {
      InsertOfZero(p - 1);
    } else if p > 1 {
      InsertSpreadBound(a / 2, p - 1, w - 1);
    }
  }

  lemma {:induction false} InsertOfZero(first: nat)
    ensures InsertBits(0, first, 0, 0) == 0
  {
    if first > 0 { InsertOfZero(first - 1); }
  }

  /** While nothing is shifted out, the added bit is the one removal drops again. */
  lemma AddBitRemoved(a: Addr, p: nat, w: nat)
    requires p < WIDTH && w < WIDTH && a < Pow2(w)
    ensures AddBit(a, p) < Pow2(w + 1) && RemoveBit(AddBit(a, p), p) == a
  {
    Pow2Fits(w + 1);
    assert (2 * a) % TWO64 == 2 * a;
    if p > 0 { InsertDoubled(a, p); InsertDoubledBound(a, p, w); }
  }

  lemma {:induction false} SpreadRemoved(a: Addr, lsbs: seq<nat>, i: nat, w: nat)
    requires i <= |lsbs| && BelowWidth(lsbs) && Increasing(lsbs, 0)
    requires w + i <= WIDTH && a < Pow2(w)
    ensures Spread(a, lsbs, i) < Pow2(w + i)
    ensures Compress(Spread(a, lsbs, i), lsbs[..i], 0) == a
    decreases i
  {
    if i == 0 {
      CompressNothing(a, 0);
    } else {
      SpreadRemoved(a, lsbs, i - 1, w);
      var s := Spread(a, lsbs, i - 1);
      AddBitRemoved(s, lsbs[i - 1], w + i - 1);
      assert lsbs[..i] == lsbs[..i - 1] + [lsbs[i - 1]];
      CompressLast(AddBit(s, lsbs[i - 1]), lsbs[..i - 1], lsbs[i - 1], 0);
    }
  }

  // ---------------------------------------------------------------- the second loop

  /** `~(1 << lsb)` converted from a 32-bit signed integer to an address. */
  function NotIntBit(lsb: nat): (r: Addr)
    requires lsb <= 31
  {
    Pow2Fits(lsb);
    if lsb < 31 then TWO64 - 1 - Pow2(lsb) else TWO31 - 1
  }

  /** One turn: give the lowest bit of the mask the value that satisfies the selector bit. */
  function FixStep(x: Addr, mask: Addr, want: bool): (r: Addr)
    requires mask != 0 && Ctz64(mask) <= 31
  {
    var lsb := Ctz64(mask);
    var value := Xor(BoolBit(want), PopCount(And(And(x, mask), NotIntBit(lsb))));
    InsertFits(x, lsb, lsb, value);
    InsertBits(x, lsb, lsb, value)
  }

  /** The address after `i` turns of the second loop. */
  function FixUp(x: Addr, masks: seq<Addr>, match_: nat, i: nat): Addr
    requires NonZero(masks) && ShiftDefined(masks) && i <= |masks|
  {
    if i == 0 then x else FixStep(FixUp(x, masks, match_, i - 1), masks[i - 1], Bit(match_, i - 1))
  }

  lemma {:induction false} BitOfOnes(n: nat, k: nat)
    ensures Bit(Pow2(n) - 1, k) == (k < n)
    decreases k
  {
    if n == 0 { BitOfZero(k); }
    else if k > 0 { assert (Pow2(n) - 1) / 2 == Pow2(n - 1) - 1; BitOfOnes(n - 1, k - 1); }
  }

  lemma {:induction false} BitOfComplement(n: nat, p: nat, k: nat)
    requires p < n
    ensures Pow2(p) < Pow2(n)
    ensures Bit(Pow2(n) - 1 - Pow2(p), k) == (k < n && k != p)
    decreases p
  {
    Pow2Monotone(p, n - 1);
    if p == 0 {
      assert Pow2(n) - 2 == 2 * (Pow2(n - 1) - 1);
      if k > 0 { BitOfOnes(n - 1, k - 1); }
    } else {
      BitOfComplement(n - 1, p - 1, if k > 0 then k - 1 else 0);
      assert (Pow2(n) - 1 - Pow2(p)) / 2 == Pow2(n - 1) - 1 - Pow2(p - 1);
    }
  }

  /** `~(1 << lsb)` keeps the bits it should, except that position 31 also loses the high half. */
  lemma BitOfNotIntBit(lsb: nat, k: nat)
    requires lsb <= 31
    ensures Bit(NotIntBit(lsb), k) == if lsb < 31 then k < WIDTH && k != lsb else k < 31
  {
    if lsb < 31 { Pow2AtWidth(); BitOfComplement(WIDTH, lsb, k); } else { Pow2At31(); BitOfOnes(31, k); }
  }

  lemma FixStepBits(x: Addr, mask: Addr, want: bool, k: nat)
    requires mask != 0 && Ctz64(mask) <= 31
    ensures Bit(FixStep(x, mask, want), k)
         == if k == Ctz64(mask)
            then want != (PopCount(And(And(x, mask), NotIntBit(Ctz64(mask)))) % 2 == 1)
            else Bit(x, k)
  {
    var lsb := Ctz64(mask);
    var count := PopCount(And(And(x, mask), NotIntBit(lsb)));
    BitOfInsert(x, lsb, lsb, Xor(BoolBit(want), count), k);
    BitOfXor(BoolBit(want), count, 0);
  }

  /** For a safe mask the masked word of the loop is the address under the rest of the mask. */
  lemma MaskedWord(x: Addr, z: nat, mask: Addr)
    requires mask != 0 && SafeMask(mask) && Ctz64(mask) <= 31
    requires forall k: nat :: Bit(mask, k) ==> Bit(z, k) == (k != Ctz64(mask) && Bit(x, k))
    ensures And(And(x, mask), NotIntBit(Ctz64(mask))) == And(z, mask)
  {
    var lsb := Ctz64(mask);
    var l, r := And(And(x, mask), NotIntBit(lsb)), And(z, mask);
    AndBound(And(x, mask), NotIntBit(lsb));
    AndBound(z, mask);
    forall k | 0 <= k < WIDTH ensures Bit(l, k) == Bit(r, k) {
      BitOfAnd(And(x, mask), NotIntBit(lsb), k);
      BitOfAnd(x, mask, k);
      BitOfAnd(z, mask, k);
      BitOfNotIntBit(lsb, k);
      Pow2At31();
      BitOfPow2(31, k);
    }
    SameBitsSameAddr(l, r);
  }

  lemma SafeMaskLsb(mask: Addr)
    requires SafeMask(mask)
    ensures Ctz64(mask) <= 31
  {
    if mask == TWO31 { Pow2At31(); BitOfPow2(31, Ctz64(mask)); }
  }

  /** One turn on a safe mask makes the parity under that mask what the selector asks for. */
  lemma FixStepParity(x: Addr, mask: Addr, want: bool)
    requires mask != 0 && SafeMask(mask)
    ensures Ctz64(mask) <= 31 && Parity(FixStep(x, mask, want), mask) == want
  {
    SafeMaskLsb(mask);
    var lsb := Ctz64(mask);
    var y := FixStep(x, mask, want);
    var z := InsertBits(x, lsb, lsb, 0);
    forall k: nat | Bit(mask, k)
      ensures Bit(z, k) == (k != lsb && Bit(x, k)) && (k != lsb ==> Bit(y, k) == Bit(z, k))
    {
      BitOfInsert(x, lsb, lsb, 0, k);
      FixStepBits(x, mask, want, k);
    }
    MaskedWord(x, z, mask);
    FixStepBits(x, mask, want, lsb);
    if Bit(y, lsb) { ParityFlip(y, z, mask, lsb); } else { ParityFrame(y, z, mask); }
  }

  lemma {:induction false} FixUpFrame(x: Addr, masks: seq<Addr>, match_: nat, i: nat, j: nat, k: nat)
    requires NonZero(masks) && ShiftDefined(masks) && i <= j <= |masks|
    requires forall t :: i <= t < j ==> Ctz64(masks[t]) != k
    ensures Bit(FixUp(x, masks, match_, j), k) == Bit(FixUp(x, masks, match_, i), k)
    decreases j
  {
    if i < j {
      FixUpFrame(x, masks, match_, i, j - 1, k);
      FixStepBits(FixUp(x, masks, match_, j - 1), masks[j - 1], Bit(match_, j - 1), k);
    }
  }

  /** Later turns leave the parity of an earlier mask alone when they set none of its bits. */
  lemma FixUpKeepsParity(x: Addr, masks: seq<Addr>, match_: nat, i: nat, j: nat, mask: Addr)
    requires NonZero(masks) && ShiftDefined(masks) && i <= j <= |masks|
    requires forall t :: i <= t < j ==> !Bit(mask, Ctz64(masks[t]))
    ensures Parity(FixUp(x, masks, match_, j), mask) == Parity(FixUp(x, masks, match_, i), mask)
  {
    var a, b := FixUp(x, masks, match_, j), FixUp(x, masks, match_, i);
    forall k: nat | Bit(mask, k) ensures Bit(a, k) == Bit(b, k) {
      FixUpFrame(x, masks, match_, i, j, k);
    }
    ParityFrame(a, b, mask);
  }

  // ---------------------------------------------------------------- addIntlvBits

  lemma LsbsBelowWidth(masks: seq<Addr>)
    requires NonZero(masks)
    ensures |SortedLsbs(masks)| == |masks| && BelowWidth(SortedLsbs(masks))
  {
    SortedLsbsMembers(masks);
    var s := SortedLsbs(masks);
    forall i | 0 <= i < |s| ensures s[i] < WIDTH { assert s[i] in s; }
  }

  /** The word `addIntlvBits` computes. */
  function Added(a: Addr, masks: seq<Addr>, match_: nat): Addr
    requires NonZero(masks) && ShiftDefined(masks)
  {
    LsbsBelowWidth(masks);
    FixUp(Spread(a, SortedLsbs(masks), |masks|), masks, match_, |masks|)
  }

  method SpreadBits(lsbs: seq<nat>, a: Addr) returns (x: Addr)
    requires BelowWidth(lsbs)
    ensures x == Spread(a, lsbs, |lsbs|)
  {
    x := a;
    for i := 0 to |lsbs|
      invariant x == Spread(a, lsbs, i)
    {
      if lsbs[i] > 0 {
        InsertFits((2 * x) % TWO64, lsbs[i] - 1, 0, x);
        x := InsertBits((2 * x) % TWO64, lsbs[i] - 1, 0, x);
      } else {
        x := (2 * x) % TWO64;
      }
    }
  }

  method AddIntlvBits(masks: seq<Addr>, intlvMatch: nat, a: Addr) returns (x: Addr)
    requires NonZero(masks) && ShiftDefined(masks)
    ensures x == Added(a, masks, intlvMatch)
  {
    LsbsBelowWidth(masks);
    if |masks| == 0 { return a; }
    x := SpreadBits(SortedLsbs(masks), a);
    ghost var spread := x;
    for i := 0 to |masks|
      invariant x == FixUp(spread, masks, intlvMatch, i)
    {
      var lsb := Ctz64(masks[i]);
      var intlvBit := BoolBit(Bit(intlvMatch, i));
      var masked := And(And(x, masks[i]), NotIntBit(lsb));
      InsertFits(x, lsb, lsb, Xor(intlvBit, PopCount(masked)));
      x := InsertBits(x, lsb, lsb, Xor(intlvBit, PopCount(masked)));
    }
  }

  lemma SafeIsDefined(masks: seq<Addr>)
    requires Safe(masks)
    ensures ShiftDefined(masks)
  {
    forall i | 0 <= i < |masks| ensures Ctz64(masks[i]) <= 31 { SafeMaskLsb(masks[i]); }
  }

  /** Whatever goes in, the address that comes out belongs to the stripe. */
  lemma AddedMatches(a: Addr, masks: seq<Addr>, match_: nat)
    requires NonZero(masks) && Safe(masks) && Triangular(masks)
    ensures ShiftDefined(masks) && Matches(Added(a, masks, match_), masks, match_)
  {
    SafeIsDefined(masks);
    LsbsBelowWidth(masks);
    var s := Spread(a, SortedLsbs(masks), |masks|);
    forall i | 0 <= i < |masks|
      ensures Parity(Added(a, masks, match_), masks[i]) == Bit(match_, i)
    {
      FixStepParity(FixUp(s, masks, match_, i), masks[i], Bit(match_, i));
      FixUpKeepsParity(s, masks, match_, i + 1, |masks|, masks[i]);
    }
  }

  /** The second loop writes at removed positions only. */
  lemma FixUpCompress(s: Addr, masks: seq<Addr>, match_: nat, lsbs: seq<nat>)
    requires NonZero(masks) && ShiftDefined(masks) && Increasing(lsbs, 0)
    requires forall i :: 0 <= i < |masks| ==> Ctz64(masks[i]) in lsbs
    ensures Compress(FixUp(s, masks, match_, |masks|), lsbs, 0) == Compress(s, lsbs, 0)
  {
    var y := FixUp(s, masks, match_, |masks|);
    forall j: nat | 0 + j !in lsbs ensures Bit(y, j) == Bit(s, j) {
      FixUpFrame(s, masks, match_, 0, |masks|, j);
    }
    CompressFrame(y, s, lsbs, 0);
  }

  /** Opening the gaps at `lsbs`, rewriting the gap bits, and closing them again. */
  lemma AddThenCompress(x: Addr, masks: seq<Addr>, match_: nat, lsbs: seq<nat>)
    requires NonZero(masks) && ShiftDefined(masks) && Increasing(lsbs, 0) && BelowWidth(lsbs) && |lsbs| == |masks|
    requires forall i :: 0 <= i < |masks| ==> Ctz64(masks[i]) in lsbs
    requires |lsbs| <= WIDTH && x < Pow2(WIDTH - |lsbs|)
    ensures Compress(FixUp(Spread(x, lsbs, |lsbs|), masks, match_, |masks|), lsbs, 0) == x
  {
    SpreadRemoved(x, lsbs, |lsbs|, WIDTH - |lsbs|);
    assert lsbs[..|lsbs|] == lsbs;
    FixUpCompress(Spread(x, lsbs, |lsbs|), masks, match_, lsbs);
  }

  /** Removal after addition is the identity on every offset that fits. */
  lemma RemoveAfterAdd(x: Addr, masks: seq<Addr>, match_: nat)
    requires DistinctLsbs(masks) && ShiftDefined(masks)
    requires |masks| <= WIDTH && x < Pow2(WIDTH - |masks|)
    ensures Removed(Added(x, masks, match_), masks) == x
  {
    var lsbs := SortedLsbs(masks);
    assert Increasing(lsbs, 0) && forall i :: 0 <= i < |masks| ==> Ctz64(masks[i]) in lsbs by { SortedLsbsIncrease(masks); }
    LsbsBelowWidth(masks);
    AddThenCompress(x, masks, match_, lsbs);
  }

  lemma RemovedFits(a: Addr, masks: seq<Addr>, w: nat)
    requires DistinctLsbs(masks) && a < Pow2(w) && w >= WIDTH
    ensures |masks| <= w && Removed(a, masks) < Pow2(w - |masks|)
  {
    SortedLsbsIncrease(masks);
    LsbsBelowWidth(masks);
    CompressBound(a, SortedLsbs(masks), 0, w);
  }

  lemma RemovedBound(a: Addr, masks: seq<Addr>)
    requires DistinctLsbs(masks)
    ensures |masks| <= WIDTH && Removed(a, masks) < Pow2(WIDTH - |masks|)
  {
    Pow2AtWidth();
    RemovedFits(a, masks, WIDTH);
  }

  /** Addition after removal is the identity on every address of the stripe. */
  lemma AddAfterRemove(a: Addr, masks: seq<Addr>, match_: nat)
    requires NonZero(masks) && Safe(masks) && Triangular(masks)
    requires Matches(a, masks, match_)
    ensures ShiftDefined(masks) && Removed(a, masks) < TWO64
    ensures Added(Removed(a, masks), masks, match_) == a
  {
    SafeIsDefined(masks);
    TriangularIsDistinct(masks);
    RemovedBound(a, masks);
    Pow2Fits(WIDTH - |masks|);
    var x: Addr := Removed(a, masks);
    var b := Added(x, masks, match_);
    AddedMatches(x, masks, match_);
    RemoveAfterAdd(x, masks, match_);
    if a < b { RemovedIncreases(a, b, masks, match_); }
    if b < a { RemovedIncreases(b, a, masks, match_); }
  }

  // ---------------------------------------------------------------- exactly when

  /** `addIntlvBits` lands in the stripe for every match value and every input. */
  ghost predicate AlwaysMatches(masks: seq<Addr>)
    requires NonZero(masks) && ShiftDefined(masks)
  {
    forall match_: nat, a: Addr :: match_ < Pow2(|masks|) ==> Matches(Added(a, masks, match_), masks, match_)
  }

  /** Two match values that agree below bit `j` give the same address after `j` turns. */
  lemma {:induction false} FixUpPrefix(x: Addr, masks: seq<Addr>, m: nat, m': nat, j: nat)
    requires NonZero(masks) && ShiftDefined(masks) && j <= |masks|
    requires forall t :: 0 <= t < j ==> Bit(m, t) == Bit(m', t)
    ensures FixUp(x, masks, m, j) == FixUp(x, masks, m', j)
    decreases j
  {
    if j > 0 { FixUpPrefix(x, masks, m, m', j - 1); }
  }

  lemma StepFlips(y: Addr, mask: Addr, other: Addr)
    requires mask != 0 && Ctz64(mask) <= 31 && Bit(other, Ctz64(mask))
    ensures Parity(FixStep(y, mask, false), other) != Parity(FixStep(y, mask, true), other)
  {
    var a, b := FixStep(y, mask, false), FixStep(y, mask, true);
    forall k: nat ensures Bit(a, k) != Bit(b, k) <==> k == Ctz64(mask) {
      FixStepBits(y, mask, false, k);
      FixStepBits(y, mask, true, k);
    }
    ParityFlip(a, b, other, Ctz64(mask));
  }

  /** Flipping bit `j` of the match value flips the parity of a mask that holds the bit set in turn `j`. */
  lemma MatchBitFlips(s: Addr, masks: seq<Addr>, m: nat, m': nat, i: nat, j: nat)
    requires NonZero(masks) && ShiftDefined(masks)
    requires i < j < |masks| && Bit(masks[i], Ctz64(masks[j]))
    requires forall t :: j < t < |masks| ==> !Bit(masks[i], Ctz64(masks[t]))
    requires !Bit(m, j) && Bit(m', j) && forall t :: 0 <= t < j ==> Bit(m, t) == Bit(m', t)
    ensures Parity(FixUp(s, masks, m, |masks|), masks[i]) != Parity(FixUp(s, masks, m', |masks|), masks[i])
  {
    FixUpPrefix(s, masks, m, m', j);
    ParityAfterTurn(s, masks, m, i, j);
    ParityAfterTurn(s, masks, m', i, j);
    StepFlips(FixUp(s, masks, m, j), masks[j], masks[i]);
  }

  lemma ParityAfterTurn(s: Addr, masks: seq<Addr>, m: nat, i: nat, j: nat)
    requires NonZero(masks) && ShiftDefined(masks) && i < j < |masks|
    requires forall t :: j < t < |masks| ==> !Bit(masks[i], Ctz64(masks[t]))
    ensures Parity(FixUp(s, masks, m, |masks|), masks[i])
         == Parity(FixStep(FixUp(s, masks, m, j), masks[j], Bit(m, j)), masks[i])
  {
    assert FixUp(s, masks, m, j + 1) == FixStep(FixUp(s, masks, m, j), masks[j], Bit(m, j));
    FixUpKeepsParity(s, masks, m, j + 1, |masks|, masks[i]);
  }

  /** A mask that contains the lowest bit of a later mask defeats one of two match values. */
  lemma ForwardBitDefeats(masks: seq<Addr>, i: nat, j: nat)
    requires NonZero(masks) && ShiftDefined(masks)
    requires i < j < |masks| && Bit(masks[i], Ctz64(masks[j]))
    requires forall t :: j < t < |masks| ==> !Bit(masks[i], Ctz64(masks[t]))
    ensures !AlwaysMatches(masks)
  {
    LsbsBelowWidth(masks);
    var m' := Pow2(j);
    Pow2Monotone(j + 1, |masks|);
    forall t: nat ensures !Bit(0, t) && Bit(m', t) == (t == j) {
      BitOfZero(t);
      BitOfPow2(j, t);
    }
    MatchBitFlips(Spread(0, SortedLsbs(masks), |masks|), masks, 0, m', i, j);
    assert Parity(Added(0, masks, 0), masks[i]) != Parity(Added(0, masks, m'), masks[i]);
    assert Bit(0, i) == Bit(m', i);
  }

  /** With lowest bit 31 the turn ignores the higher bits of the mask: it writes the match bit. */
  lemma StepAt31(y: Addr, mask: Addr, want: bool)
    requires mask != 0 && Ctz64(mask) == 31
    ensures Bit(FixStep(y, mask, want), 31) == want
  {
    var masked := And(And(y, mask), NotIntBit(31));
    forall k: nat ensures !Bit(masked, k) && !Bit(0, k) {
      BitOfZero(k);
      if k < 31 { Ctz64IsLowest(mask, k); }
      BitOfAnd(And(y, mask), NotIntBit(31), k);
      BitOfAnd(y, mask, k);
      BitOfNotIntBit(31, k);
    }
    AndBound(And(y, mask), NotIntBit(31));
    SameBitsSameAddr(masked, 0);
    FixStepBits(y, mask, want, 31);
  }

  /** The address with the single bit `h` above all removed positions survives spreading. */
  lemma SpreadOfHighBit(masks: seq<Addr>, h: nat) returns (x: Addr)
    requires DistinctLsbs(masks) && ShiftDefined(masks) && 31 < h < WIDTH
    ensures |SortedLsbs(masks)| == |masks| && BelowWidth(SortedLsbs(masks))
    ensures Shr(Spread(x, SortedLsbs(masks), |masks|), 32) == Shr(Pow2(h), 32)
  {
    SortedLsbsIncrease(masks);
    LsbsBelowWidth(masks);
    Pow2Fits(h);
    var lsbs, n, a := SortedLsbs(masks), |masks|, Pow2(h);
    RemovedBound(a, masks);
    Pow2Fits(WIDTH - n);
    x := Removed(a, masks);
    SpreadRemoved(x, lsbs, n, WIDTH - n);
    assert lsbs[..n] == lsbs;
    forall i | 0 <= i < |lsbs| ensures lsbs[i] < 32 { assert lsbs[i] in lsbs; }
    HighBitsKept(Spread(x, lsbs, n), a, lsbs, 0, 32);
  }

  /** A mask whose lowest bit is 31 and which has a higher bit is defeated by that bit. */
  lemma HighBitDefeats(masks: seq<Addr>, i: nat, h: nat)
    requires NonZero(masks) && ShiftDefined(masks) && Triangular(masks)
    requires i < |masks| && Ctz64(masks[i]) == 31 && 31 < h < WIDTH && Bit(masks[i], h)
    ensures !AlwaysMatches(masks)
  {
    TriangularIsDistinct(masks);
    var x := SpreadOfHighBit(masks, h);
    var s, r := Spread(x, SortedLsbs(masks), |masks|), Added(x, masks, 0);
    forall k: nat | Bit(masks[i], k) ensures Bit(r, k) == (k == h) {
      if k < 31 { Ctz64IsLowest(masks[i], k); }
      BitOfPow2(h, k);
      if k == 31 {
        BitOfZero(i);
        StepAt31(FixUp(s, masks, 0, i), masks[i], Bit(0, i));
        FixUpFrame(s, masks, 0, i + 1, |masks|, k);
      } else {
        FixUpFrame(s, masks, 0, 0, |masks|, k);
        BitOfShr(s, 32, k - 32);
        BitOfShr(Pow2(h), 32, k - 32);
      }
    }
    forall k: nat ensures !Bit(0, k) { BitOfZero(k); }
    ParityOfZero(masks[i]);
    ParityFlip(r, 0, masks[i], h);
    assert Parity(r, masks[i]) != Bit(0, i);
  }

  /** Equal compressed words agree above every removed position. */
  lemma HighBitsKept(a: nat, b: nat, bs: seq<nat>, k: nat, w: nat)
    requires Increasing(bs, k) && Compress(a, bs, k) == Compress(b, bs, k)
    requires forall i :: 0 <= i < |bs| ==> bs[i] < k + w
    ensures Shr(a, w) == Shr(b, w)
  {
    CompressHigh(a, bs, k, w);
    CompressHigh(b, bs, k, w);
  }

  lemma {:induction false} LastForwardBit(masks: seq<Addr>, i: nat, j: nat) returns (l: nat)
    requires i < j < |masks| && Bit(masks[i], Ctz64(masks[j]))
    ensures j <= l < |masks| && Bit(masks[i], Ctz64(masks[l]))
    ensures forall t :: l < t < |masks| ==> !Bit(masks[i], Ctz64(masks[t]))
    decreases |masks| - j
  {
    if t :| j < t < |masks| && Bit(masks[i], Ctz64(masks[t])) {
      l := LastForwardBit(masks, i, t);
    } else {
      l := j;
    }
  }

  lemma {:induction false} SomeHigherBit(m: nat, n: nat, p: nat) returns (h: nat)
    requires m < Pow2(n) && p < n && Bit(m, p) && m != Pow2(p)
    requires forall k: nat :: k < p ==> !Bit(m, k)
    ensures p < h < n && Bit(m, h)
  {
    if k :| p < k < n && Bit(m, k) {
      h := k;
    } else {
      Pow2Monotone(p + 1, n);
      forall k | 0 <= k < n ensures Bit(m, k) == Bit(Pow2(p), k) { BitOfPow2(p, k); }
      SameBitsSameWord(m, Pow2(p), n);
      assert false;
    }
  }

  /**
   Exactly when addIntlvBits does its job: no mask may contain the lowest bit of a
   later mask, and a mask whose lowest bit is 31 must be that single bit.
   */
  lemma AlwaysMatchesIff(masks: seq<Addr>)
    requires NonZero(masks) && ShiftDefined(masks)
    ensures AlwaysMatches(masks) <==> Triangular(masks) && Safe(masks)
  {
    if Triangular(masks) && Safe(masks) {
      forall match_: nat, a: Addr | match_ < Pow2(|masks|)
        ensures Matches(Added(a, masks, match_), masks, match_)
      {
        AddedMatches(a, masks, match_);
      }
    } else if !Triangular(masks) {
      var i, j :| 0 <= i < j < |masks| && Bit(masks[i], Ctz64(masks[j]));
      var l := LastForwardBit(masks, i, j);
      ForwardBitDefeats(masks, i, l);
    } else {
      var i :| 0 <= i < |masks| && !SafeMask(masks[i]);
      assert Ctz64(masks[i]) == 31;
      Pow2At31();
      Pow2AtWidth();
      forall k: nat | k < 31 ensures !Bit(masks[i], k) { Ctz64IsLowest(masks[i], k); }
      var h := SomeHigherBit(masks[i], WIDTH, 31);
      HighBitDefeats(masks, i, h);
    }
  }
}
