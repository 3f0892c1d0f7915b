/** Address ranges: the constructors, membership, and stripes that partition and merge. */
module AddrRanges {
  import opened Bits
  import opened Interleave
  import opened Wrappers

  /** `[start, end)`, restricted to the stripe whose selector equals `intlvMatch`. */
  datatype AddrRange = AddrRange(start: Addr, end: Addr, masks: seq<Addr>, intlvMatch: nat)

  predicate Interleaved(r: AddrRange) { |r.masks| > 0 }

  /** Membership as documented: within the bounds, and every selector bit as asked for. */
  predicate In(r: AddrRange, a: nat) {
    r.start <= a < r.end && r.intlvMatch < Pow2(|r.masks|) && Matches(a, r.masks, r.intlvMatch)
  }

  // ---------------------------------------------------------------- contains

  /** The selector computed from the first `n` masks. */
  function Sel(a: nat, masks: seq<Addr>, n: nat): nat
    requires n <= |masks|
  {
    if n == 0 then 0 else Sel(a, masks, n - 1) + BoolBit(Parity(a, masks[n - 1])) * Pow2(n - 1)
  }

  lemma {:induction false} SelBits(a: nat, masks: seq<Addr>, n: nat)
    requires n <= |masks|
    ensures Sel(a, masks, n) < Pow2(n)
    ensures forall i :: 0 <= i < n ==> Bit(Sel(a, masks, n), i) == Parity(a, masks[i])
    decreases n
  {
    if n > 0 {
      SelBits(a, masks, n - 1);
      var s, b := Sel(a, masks, n - 1), BoolBit(Parity(a, masks[n - 1]));
      OrAbove(s, b, n - 1);
      forall i | 0 <= i < n ensures Bit(Sel(a, masks, n), i) == Parity(a, masks[i]) {
        BitAbove(s, b, n - 1, i);
      }
    }
  }

  /** The selector is the only value that matches. */
  lemma SelIsTheMatch(a: nat, masks: seq<Addr>, m: nat)
    ensures Sel(a, masks, |masks|) == m <==> m < Pow2(|masks|) && Matches(a, masks, m)
  {
    SelBits(a, masks, |masks|);
    if m < Pow2(|masks|) && Matches(a, masks, m) {
      SameBitsSameWord(Sel(a, masks, |masks|), m, |masks|);
    }
  }

  method Contains(r: AddrRange, a: Addr) returns (b: bool)
    ensures b <==> In(r, a)
  {
    if !(a >= r.start && a < r.end) { return false; }
    var sel := 0;
    for i := 0 to |r.masks|
      invariant sel == Sel(a, r.masks, i)
    {
      var masked := And(a, r.masks[i]);
      SelBits(a, r.masks, i);
      OrAbove(sel, PopCount(masked) % 2, i);
      sel := Or(sel, PopCount(masked) % 2 * Pow2(i));
    }
    SelIsTheMatch(a, r.masks, r.intlvMatch);
    b := sel == r.intlvMatch;
  }

  /** The match values partition the addresses of a range: each lies in exactly one stripe. */
  lemma StripesPartition(start: Addr, end: Addr, masks: seq<Addr>, a: nat)
    requires |masks| <= 8 && start <= a < end
    ensures Sel(a, masks, |masks|) < 256
    ensures forall m: nat :: In(AddrRange(start, end, masks, m), a) <==> m == Sel(a, masks, |masks|)
  {
    SelBits(a, masks, |masks|);
    Pow2Monotone(|masks|, 8);
    forall m: nat ensures In(AddrRange(start, end, masks, m), a) <==> m == Sel(a, masks, |masks|) {
      SelIsTheMatch(a, masks, m);
    }
  }

  // ---------------------------------------------------------------- constructors

  /** The constructor from masks refuses a match value that does not fit them. */
  method FromMasks(start: Addr, end: Addr, masks: seq<Addr>, intlvMatch: nat) returns (r: Option<AddrRange>)
    requires intlvMatch < 256
    ensures r.Some? <==> masks == [] || intlvMatch < Pow2(|masks|)
    ensures r.Some? ==> forall a: nat :: In(r.value, a) <==>
              start <= a < end && Sel(a, masks, |masks|) == intlvMatch
  {
    if |masks| > 0 && intlvMatch >= Pow2(|masks|) { return None; }
    r := Some(AddrRange(start, end, masks, intlvMatch));
    forall a: nat ensures In(r.value, a) <==> start <= a < end && Sel(a, masks, |masks|) == intlvMatch {
      SelIsTheMatch(a, masks, intlvMatch);
    }
  }

  predicate MergesWith(r: AddrRange, s: AddrRange) {
    s.start == r.start && s.end == r.end && s.masks == r.masks
  }

  /** What the merging constructor insists on before it drops the interleaving. */
  predicate Mergeable(ranges: seq<AddrRange>)
    requires |ranges| > 0
  {
    |ranges| == Pow2(|ranges[0].masks|) &&
    forall i :: 0 <= i < |ranges| ==> MergesWith(ranges[0], ranges[i]) && ranges[i].intlvMatch == i % 256
  }

  method Merge(ranges: seq<AddrRange>) returns (r: Option<AddrRange>)
    ensures r.None? <==> |ranges| > 1 && !Mergeable(ranges)
    ensures |ranges| == 0 ==> r == Some(AddrRange(1, 0, [], 0))
    ensures |ranges| == 1 ==> r == Some(ranges[0])
    ensures |ranges| > 1 && r.Some? ==> r.value == AddrRange(ranges[0].start, ranges[0].end, [], 0)
  {
    if |ranges| == 0 { return Some(AddrRange(1, 0, [], 0)); }
    var first := ranges[0];
    if |ranges| > 1 {
      if |ranges| != Pow2(|first.masks|) { return None; }
      var expected := 0;
      for i := 0 to |ranges|
        invariant expected == i % 256
        invariant forall j :: 0 <= j < i ==> MergesWith(first, ranges[j]) && ranges[j].intlvMatch == j % 256
      {
        if !MergesWith(first, ranges[i]) { return None; }
        if ranges[i].intlvMatch != expected { return None; }
        expected := (expected + 1) % 256;
      }
      return Some(AddrRange(first.start, first.end, [], 0));
    }
    r := Some(first);
  }

  /** The merged range holds an address exactly when one of its stripes does. */
  lemma MergedIsUnion(ranges: seq<AddrRange>, a: nat)
    requires |ranges| > 1 && Mergeable(ranges) && |ranges[0].masks| <= 8
    ensures In(AddrRange(ranges[0].start, ranges[0].end, [], 0), a)
       <==> exists i :: 0 <= i < |ranges| && In(ranges[i], a)
  {
    var f := ranges[0];
    Pow2Monotone(|f.masks|, 8);
    assert Pow2(8) == 256;
    if f.start <= a < f.end {
      StripesPartition(f.start, f.end, f.masks, a);
      SelBits(a, f.masks, |f.masks|);
      var s := Sel(a, f.masks, |f.masks|);
      assert ranges[s] == AddrRange(f.start, f.end, f.masks, s);
      assert In(ranges[s], a);
    }
  }

  // ---------------------------------------------------------------- the legacy constructor

  /** The bit pairs the legacy constructor selects by, lowest first. */
  predicate LegacyMask(mask: nat, p: nat, xored: bool, q: nat) {
    mask == if xored then Or(Pow2(p), Pow2(q)) else Pow2(p)
  }

  predicate LegacyMasks(masks: seq<Addr>, from: nat, high: nat, xorHigh: nat)
    requires |masks| <= high + 1 && (xorHigh != 0 ==> |masks| <= xorHigh + 1)
  {
    forall j :: from <= j < |masks| ==>
      LegacyMask(masks[j], high + 1 - |masks| + j, xorHigh != 0,
                 if xorHigh != 0 then xorHigh + 1 - |masks| + j else 0)
  }

  /** The documented selector: the exclusive or of two `n`-bit fields of the address. */
  function LegacySel(a: nat, high: nat, xorHigh: nat, n: nat): nat
    requires n <= high + 1 && (xorHigh != 0 ==> n <= xorHigh + 1)
  {
    Xor(Field(a, high, high + 1 - n), if xorHigh == 0 then 0 else Field(a, xorHigh, xorHigh + 1 - n))
  }

  method FromLegacy(start: Addr, end: Addr, intlvHigh: nat, xorHigh: nat, intlvBits: nat, intlvMatch: nat)
    returns (r: Option<AddrRange>)
    requires intlvHigh < WIDTH && xorHigh < WIDTH && intlvMatch < 256
    requires intlvBits <= intlvHigh + 1 && (xorHigh != 0 ==> intlvBits <= xorHigh + 1)
    ensures r.Some? <==>
              || intlvBits == 0
              || (intlvMatch < Pow2(intlvBits) &&
                  (xorHigh == 0 || intlvBits <= xorHigh - intlvHigh || intlvBits <= intlvHigh - xorHigh))
    ensures r.Some? ==> |r.value.masks| == intlvBits
    ensures r.Some? ==> forall a: nat :: In(r.value, a) <==>
              start <= a < end && LegacySel(a, intlvHigh, xorHigh, intlvBits) == intlvMatch
  {
    if intlvBits > 0 && intlvMatch >= Pow2(intlvBits) { return None; }
    if intlvBits > 0 && xorHigh != 0 {
      if xorHigh == intlvHigh {
        return None;
      } else if xorHigh > intlvHigh {
        if xorHigh - intlvHigh < intlvBits { return None; }
      } else {
        if intlvHigh - xorHigh < intlvBits { return None; }
      }
    }
    var masks: seq<Addr> := seq(intlvBits, i => 0);
    for i := 0 to intlvBits
      invariant |masks| == intlvBits
      invariant LegacyMasks(masks, intlvBits - i, intlvHigh, xorHigh)
    {
      var bit1 := intlvHigh - i;
      Pow2Fits(bit1);
      var mask: Addr := Pow2(bit1);
      if xorHigh != 0 {
        var bit2 := xorHigh - i;
        Pow2Fits(bit2);
        OrFits(mask, Pow2(bit2));
        mask := Or(mask, Pow2(bit2));
      }
      masks := masks[intlvBits - i - 1 := mask];
    }
    r := Some(AddrRange(start, end, masks, intlvMatch));
    forall a: nat ensures In(r.value, a) <==>
      start <= a < end && LegacySel(a, intlvHigh, xorHigh, intlvBits) == intlvMatch
    {
      LegacySelector(a, masks, intlvHigh, xorHigh);
      SelIsTheMatch(a, masks, intlvMatch);
    }
  }

  lemma {:induction false} OrBound(a: nat, b: nat, n: nat)
    requires a < Pow2(n) && b < Pow2(n)
    ensures Or(a, b) < Pow2(n)
    decreases n
  {
    if a != 0 && b != 0 { OrBound(a / 2, b / 2, n - 1); }
  }

  lemma OrFits(a: Addr, b: Addr)
    ensures Or(a, b) < TWO64
  {
    Pow2AtWidth();
    OrBound(a, b, WIDTH);
  }

  lemma LegacyParity(a: nat, mask: nat, p: nat, xored: bool, q: nat)
    requires LegacyMask(mask, p, xored, q) && (xored ==> p != q)
    ensures Parity(a, mask) == (Bit(a, p) != (xored && Bit(a, q)))
  {
    forall k: nat ensures Bit(mask, k) <==> k == p || (xored && k == q) {
      BitOfPow2(p, k);
      BitOfPow2(q, k);
      BitOfOr(Pow2(p), Pow2(q), k);
    }
    ParityOfPair(a, mask, p, if xored then q else p);
  }

  lemma BitOfField(a: nat, first: nat, last: nat, k: nat)
    requires last <= first + 1
    ensures Bit(Field(a, first, last), k) == (k < first + 1 - last && Bit(a, last + k))
    ensures Field(a, first, last) < Pow2(first + 1 - last)
  {
    BitOfLowBits(Shr(a, last), first + 1 - last, k);
    BitOfShr(a, last, k);
  }

  lemma {:induction false} XorBound(a: nat, b: nat, n: nat)
    requires a < Pow2(n) && b < Pow2(n)
    ensures Xor(a, b) < Pow2(n)
    decreases n
  {
    if a != 0 && b != 0 { XorBound(a / 2, b / 2, n - 1); }
  }

  lemma LegacySelBits(a: nat, high: nat, xorHigh: nat, n: nat, k: nat)
    requires n <= high + 1 && (xorHigh != 0 ==> n <= xorHigh + 1)
    ensures LegacySel(a, high, xorHigh, n) < Pow2(n)
    ensures k < n ==>
              Bit(LegacySel(a, high, xorHigh, n), k) ==
              (Bit(a, high + 1 - n + k) != (xorHigh != 0 && Bit(a, xorHigh + 1 - n + k)))
  {
    var f := Field(a, high, high + 1 - n);
    var g := if xorHigh == 0 then 0 else Field(a, xorHigh, xorHigh + 1 - n);
    BitOfField(a, high, high + 1 - n, k);
    if xorHigh != 0 { BitOfField(a, xorHigh, xorHigh + 1 - n, k); } else { BitOfZero(k); }
    XorBound(f, g, n);
    BitOfXor(f, g, k);
  }

  /** The masks the legacy constructor builds compute the documented selector. */
  lemma LegacySelector(a: nat, masks: seq<Addr>, high: nat, xorHigh: nat)
    requires |masks| <= high + 1 && (xorHigh != 0 ==> |masks| <= xorHigh + 1)
    requires xorHigh != 0 && masks != [] ==> xorHigh != high
    requires LegacyMasks(masks, 0, high, xorHigh)
    ensures Sel(a, masks, |masks|) == LegacySel(a, high, xorHigh, |masks|)
  {
    var n := |masks|;
    SelBits(a, masks, n);
    LegacySelBits(a, high, xorHigh, n, 0);
    forall k | 0 <= k < n ensures Bit(Sel(a, masks, n), k) == Bit(LegacySel(a, high, xorHigh, n), k) {
      LegacySelBits(a, high, xorHigh, n, k);
      LegacyParity(a, masks[k], high + 1 - n + k, xorHigh != 0, if xorHigh != 0 then xorHigh + 1 - n + k else 0);
    }
    SameBitsSameWord(Sel(a, masks, n), LegacySel(a, high, xorHigh, n), n);
  }
}
