/** Registers laid out behind addresses: registration, and spanning reads and writes. */
module RegisterBanks {
  import opened Bits
  import opened Registers
  import opened Sorting
  import opened Wrappers

  /** One element of the ordered map from offsets to registers. */
  datatype Entry = Entry(offset: int, reg: Register)

  datatype Bank = Bank(base: nat, size: nat, entries: seq<Entry>)

  /** The bytes before entry `i`. */
  function Start(es: seq<Entry>, i: nat): nat
    requires i <= |es|
  {
    if i == 0 then 0 else Start(es, i - 1) + es[i - 1].reg.Size()
  }

  /** The registers cover `[base, base + size)` in order, without gap or overlap. */
  predicate Tiled(b: Bank) {
    && (forall i :: 0 <= i < |b.entries| ==> InPlace(b.base, b.entries, i))
    && b.size == Start(b.entries, |b.entries|)
  }

  predicate InPlace(base: nat, es: seq<Entry>, i: nat)
    requires i < |es|
  {
    es[i].offset == base + Start(es, i)
  }

  // ---------------------------------------------------------------- the flat array

  /** Byte `j` of the first `n` registers taken as one array. */
  function FlatByte(es: seq<Entry>, n: nat, j: nat): bv8
    requires n <= |es| && j < Start(es, n)
  {
    if j < Start(es, n - 1) then FlatByte(es, n - 1, j) else ByteAt(es[n - 1].reg, j - Start(es, n - 1))
  }

  function MaskByte(es: seq<Entry>, n: nat, j: nat): bv8
    requires n <= |es| && j < Start(es, n)
  {
    if j < Start(es, n - 1) then MaskByte(es, n - 1, j) else MaskAt(es[n - 1].reg, j - Start(es, n - 1))
  }

  function Flat(b: Bank): (r: Data)
    requires b.size == Start(b.entries, |b.entries|)
    ensures |r| == b.size
  {
    seq(b.size, j requires 0 <= j < b.size => FlatByte(b.entries, |b.entries|, j))
  }

  function FlatMask(b: Bank): (r: Data)
    requires b.size == Start(b.entries, |b.entries|)
    ensures |r| == b.size
  {
    seq(b.size, j requires 0 <= j < b.size => MaskByte(b.entries, |b.entries|, j))
  }

  lemma {:induction false} StartMonotone(es: seq<Entry>, i: nat, n: nat)
    requires i <= n <= |es|
    ensures Start(es, i) <= Start(es, n)
    ensures i < n ==> Start(es, i) + es[i].reg.Size() <= Start(es, n)
    decreases n
  {
    if i < n { StartMonotone(es, i, n - 1); }
  }

  /** The bytes of one register lie together in the flat array. */
  lemma {:induction false} FlatByteOf(es: seq<Entry>, n: nat, i: nat, k: nat)
    requires i < n <= |es| && k < es[i].reg.Size()
    ensures Start(es, i) + k < Start(es, n)
    ensures FlatByte(es, n, Start(es, i) + k) == ByteAt(es[i].reg, k)
    ensures MaskByte(es, n, Start(es, i) + k) == MaskAt(es[i].reg, k)
    decreases n
  {
    StartMonotone(es, i, n);
    if i < n - 1 {
      StartMonotone(es, i, n - 1);
      FlatByteOf(es, n - 1, i, k);
    }
  }

  // ---------------------------------------------------------------- changing one register

  function Replace(es: seq<Entry>, i: nat, r: Register): seq<Entry>
    requires i < |es|
  {
    es[i := es[i].(reg := r)]
  }

  lemma {:induction false} ReplaceStart(es: seq<Entry>, i: nat, r: Register, n: nat)
    requires i < |es| && n <= |es| && r.Size() == es[i].reg.Size()
    ensures Start(Replace(es, i, r), n) == Start(es, n)
    decreases n
  {
    if n > 0 { ReplaceStart(es, i, r, n - 1); }
  }

  /** What byte `j` becomes when entry `i` is written with `piece` at its byte `k`. */
  lemma {:induction false} ReplaceByte(es: seq<Entry>, i: nat, r: Register, k: nat, piece: Data, n: nat, j: nat)
    requires i < |es| && n <= |es| && j < Start(es, n) && k + |piece| <= es[i].reg.Size()
    requires Updated(es[i].reg, r, k, piece)
    ensures Start(Replace(es, i, r), n) == Start(es, n)
    ensures MaskByte(Replace(es, i, r), n, j) == MaskByte(es, n, j)
    ensures FlatByte(Replace(es, i, r), n, j) ==
              if Start(es, i) + k <= j < Start(es, i) + k + |piece| then
                Mix(FlatByte(es, n, j), piece[j - (Start(es, i) + k)], MaskByte(es, n, j))
              else FlatByte(es, n, j)
    decreases n
  {
    ReplaceStart(es, i, r, n);
    ReplaceStart(es, i, r, n - 1);
    if j < Start(es, n - 1) {
      ReplaceByte(es, i, r, k, piece, n - 1, j);
    } else if i < n - 1 {
      StartMonotone(es, i, n - 1);
    } else if i > n - 1 {
      StartMonotone(es, n, i);
    }
  }

  /** Storing into one register stores into the flat array. */
  lemma ReplaceStores(b: Bank, i: nat, r: Register, k: nat, piece: Data)
    requires Tiled(b) && i < |b.entries| && k + |piece| <= b.entries[i].reg.Size() && Updated(b.entries[i].reg, r, k, piece)
    ensures var c := b.(entries := Replace(b.entries, i, r));
            && Tiled(c) && FlatMask(c) == FlatMask(b)
            && Flat(c) == Stored(Flat(b), FlatMask(b), Start(b.entries, i) + k, piece)
  {
    var c := b.(entries := Replace(b.entries, i, r));
    ReplaceTiled(b, i, r);
    var x, y := Flat(c), Stored(Flat(b), FlatMask(b), Start(b.entries, i) + k, piece);
    forall j | 0 <= j < b.size ensures x[j] == y[j] && FlatMask(c)[j] == FlatMask(b)[j] {
      ReplaceByte(b.entries, i, r, k, piece, |b.entries|, j);
    }
  }

  lemma ReplaceTiled(b: Bank, i: nat, r: Register)
    requires Tiled(b) && i < |b.entries| && r.Size() == b.entries[i].reg.Size()
    ensures Tiled(b.(entries := Replace(b.entries, i, r)))
  {
    var es, es' := b.entries, Replace(b.entries, i, r);
    ReplaceStart(es, i, r, |es|);
    forall n | 0 <= n < |es| ensures InPlace(b.base, es', n) {
      ReplaceStart(es, i, r, n);
      assert InPlace(b.base, es, n);
    }
  }

  lemma StoredTwice(x: Data, m: Data, k: nat, buf: Data, d: nat, e: nat)
    requires |x| == |m| && d <= e <= |buf|
    ensures Stored(Stored(x, m, k, buf[..d]), m, k + d, buf[d..e]) == Stored(x, m, k, buf[..e])
  {}

  // ---------------------------------------------------------------- registration

  datatype Adder = Adder(offset: Option<nat>, reg: Option<Register>)

  /** Insertion into the ordered map; a taken key is left alone. */
  function Emplace(es: seq<Entry>, offset: int, reg: Register): (r: seq<Entry>) {
    if es == [] then [Entry(offset, reg)]
    else if es[|es| - 1].offset < offset then es + [Entry(offset, reg)]
    else if es[|es| - 1].offset == offset then es
    else Emplace(es[..|es| - 1], offset, reg) + [es[|es| - 1]]
  }

  function Append(b: Bank, reg: Register): Bank {
    Bank(b.base, b.size + reg.Size(), Emplace(b.entries, b.base + b.size, reg))
  }

  lemma {:induction false} StartFrame(es: seq<Entry>, e: Entry, n: nat)
    requires n <= |es|
    ensures Start(es + [e], n) == Start(es, n)
    decreases n
  {
    if n > 0 { StartFrame(es, e, n - 1); }
  }

  lemma LastBelow(b: Bank)
    requires Tiled(b) && b.entries != []
    ensures b.entries[|b.entries| - 1].offset < b.base + b.size
  {
    assert InPlace(b.base, b.entries, |b.entries| - 1);
  }

  lemma AppendEntries(b: Bank, reg: Register)
    requires Tiled(b)
    ensures Append(b, reg).entries == b.entries + [Entry(b.base + b.size, reg)]
  {
    if b.entries != [] { LastBelow(b); }
  }

  /** A register added at the end keeps the tiling. */
  lemma AppendTiles(b: Bank, reg: Register)
    requires Tiled(b)
    ensures Tiled(Append(b, reg))
  {
    AppendEntries(b, reg);
    var e := Entry(b.base + b.size, reg);
    StartFrame(b.entries, e, |b.entries|);
    forall i | 0 <= i < |b.entries| + 1 ensures InPlace(b.base, b.entries + [e], i) {
      if i < |b.entries| {
        assert InPlace(b.base, b.entries, i);
        StartFrame(b.entries, e, i);
      }
    }
  }

  /** Every expected offset is the running end of the bank. */
  predicate Expected(end: nat, adders: seq<Adder>)
    decreases |adders|
  {
    adders == [] ||
    (&& (adders[0].offset.Some? ==> adders[0].offset.value == end)
     && Expected(end + AddedSize(adders[0]), adders[1..]))
  }

  function AddedSize(a: Adder): nat { if a.reg.Some? then a.reg.value.Size() else 0 }

  function AppendAll(b: Bank, adders: seq<Adder>): Bank
    decreases |adders|
  {
    if adders == [] then b
    else AppendAll(if adders[0].reg.Some? then Append(b, adders[0].reg.value) else b, adders[1..])
  }

  /** The difference as the code holds it: an `int`. */
  function Gap(d: int): (g: int)
    ensures -(TWO31 as int) <= g < TWO31
    ensures g == d <==> -(TWO31 as int) <= d < TWO31
  {
    var r := d % TWO32;
    if r >= TWO31 then r - TWO32 else r
  }

  function Filler(ones: bool, n: nat): Register
    requires n > 0
  { if ones then Rao(n) else Raz(n) }

  function Inserted(b: Bank, offset: nat, reg: Register): Bank {
    Bank(b.base, b.size + reg.Size(), Emplace(b.entries, offset, reg))
  }

  function Filled(b: Bank, g: nat, ones: bool): Bank { if g == 0 then b else Append(b, Filler(ones, g)) }

  /** One placed register: fill the hole before it, then insert it at its own offset. */
  function PlaceAt(b: Bank, offset: nat, reg: Register, ones: bool): Option<Bank> {
    var g := Gap(offset - (b.base + b.size));
    if g < 0 then None else Some(Inserted(Filled(b, g, ones), offset, reg))
  }

  lemma FilledTiles(b: Bank, g: nat, ones: bool)
    requires Tiled(b)
    ensures Tiled(Filled(b, g, ones)) && Filled(b, g, ones).base == b.base && Filled(b, g, ones).size == b.size + g
  {
    if g > 0 { AppendTiles(b, Filler(ones, g)); }
  }

  lemma InsertedTilesIff(b: Bank, offset: nat, reg: Register)
    requires Tiled(b)
    ensures Tiled(Inserted(b, offset, reg)) <==> offset == b.base + b.size
  {
    if offset == b.base + b.size {
      AppendTiles(b, reg);
    } else {
      MisplacedBreaks(b, offset, reg);
    }
  }

  /** Exactly when placing keeps the tiling: the register starts at or less than 2 GB after the end. */
  lemma {:induction false} PlaceTilesIff(b: Bank, offset: nat, reg: Register, ones: bool)
    requires Tiled(b)
    ensures var d := offset - (b.base + b.size); var r := PlaceAt(b, offset, reg, ones);
            (r.Some? && Tiled(r.value)) <==> 0 <= d < TWO31
  {
    var g := Gap(offset - (b.base + b.size));
    if g >= 0 {
      FilledTiles(b, g, ones);
      InsertedTilesIff(Filled(b, g, ones), offset, reg);
    }
  }

  lemma {:induction false} EmplaceSizes(es: seq<Entry>, offset: int, reg: Register)
    ensures var r := Emplace(es, offset, reg);
            |r| == |es| ==> r == es
    ensures var r := Emplace(es, offset, reg);
            r != [] && (|r| == |es| || |r| == |es| + 1) && Start(r, |r|) == Start(es, |es|) + (if |r| == |es| then 0 else reg.Size())
    decreases es
  {
    if es != [] && es[|es| - 1].offset > offset {
      var front, last := es[..|es| - 1], es[|es| - 1];
      EmplaceSizes(front, offset, reg);
      StartFrame(front, last, |front|);
      var r := Emplace(front, offset, reg);
      StartFrame(r, last, |r|);
      assert front + [last] == es;
    } else if es == [] || es[|es| - 1].offset < offset {
      StartFrame(es, Entry(offset, reg), |es|);
    }
  }

  /** A register inserted anywhere but at the end breaks the tiling. */
  lemma MisplacedBreaks(c: Bank, offset: nat, reg: Register)
    requires Tiled(c) && offset != c.base + c.size
    ensures !Tiled(Inserted(c, offset, reg))
  {
    var es := c.entries;
    var r := Emplace(es, offset, reg);
    EmplaceSizes(es, offset, reg);
    if es == [] || es[|es| - 1].offset < offset {
      StartFrame(es, Entry(offset, reg), |es|);
      assert !InPlace(c.base, r, |es|);
    } else if |r| != |es| {
      var front, last := es[..|es| - 1], es[|es| - 1];
      assert front + [last] == es && InPlace(c.base, es, |front|);
      PushedLast(c.base, front, last, offset, reg);
    }
  }

  lemma PushedLast(base: nat, front: seq<Entry>, last: Entry, offset: int, reg: Register)
    requires InPlace(base, front + [last], |front|)
    requires |Emplace(front, offset, reg)| == |front| + 1
    ensures !InPlace(base, Emplace(front, offset, reg) + [last], |front| + 1)
  {
    var f := Emplace(front, offset, reg);
    EmplaceSizes(front, offset, reg);
    StartFrame(front, last, |front|);
    StartFrame(f, last, |f|);
  }

  /** Registers placed in the order of their offsets. */
  datatype Placement = Placement(offset: nat, reg: Register)

  function OffsetOf(p: Placement): int { p.offset }

  function PlaceAll(b: Bank, ps: seq<Placement>, ones: bool): Option<Bank>
    decreases |ps|
  {
    if ps == [] then Some(b)
    else
      var r := PlaceAt(b, ps[0].offset, ps[0].reg, ones);
      if r.None? then None else PlaceAll(r.value, ps[1..], ones)
  }

  /** Each register starts at or less than 2 GB after the end of what is before it. */
  predicate Spaced(end: nat, ps: seq<Placement>)
    decreases |ps|
  {
    ps == [] || (0 <= ps[0].offset - end < TWO31 && Spaced(ps[0].offset + ps[0].reg.Size(), ps[1..]))
  }

  // What one misplaced register leaves behind, which no later insertion repairs.

  /** The size counts a register the map refused. */
  predicate Excess(x: Bank) { x.size > Start(x.entries, |x.entries|) }

  predicate LowKey(x: Bank) { exists i :: 0 <= i < |x.entries| && x.entries[i].offset < x.base }

  /** `q` starts inside `p`. */
  predicate Inside(p: Entry, q: Entry) { p.offset < q.offset < p.offset + p.reg.Size() }

  predicate Overlap(x: Bank) { exists p, q :: p in x.entries && q in x.entries && Inside(p, q) }

  /** After the entries of `front`, which end at `mark`, the next one starts later. */
  predicate Hole(x: Bank, front: seq<Entry>, mark: int) {
    && |x.entries| > |front| && x.entries[..|front|] == front && x.entries[|front|].offset > mark
    && x.base + Start(front, |front|) == mark < x.base + x.size
    && forall i :: 0 <= i < |front| ==> front[i].offset < mark
  }

  predicate Damaged(x: Bank) { Excess(x) || LowKey(x) || Overlap(x) }

  predicate Broken(x: Bank, front: seq<Entry>, mark: int) { Damaged(x) || Hole(x, front, mark) }

  lemma {:induction false} EmplaceKeeps(es: seq<Entry>, offset: int, reg: Register, e: Entry)
    requires e in es
    ensures e in Emplace(es, offset, reg)
    decreases es
  {
    var n := |es| - 1;
    if es[n].offset > offset && e != es[n] {
      assert e in es[..n];
      EmplaceKeeps(es[..n], offset, reg, e);
    }
  }

  lemma {:induction false} EmplaceAdds(es: seq<Entry>, offset: int, reg: Register)
    requires |Emplace(es, offset, reg)| != |es|
    ensures Entry(offset, reg) in Emplace(es, offset, reg)
    decreases es
  {
    if es != [] && es[|es| - 1].offset > offset { EmplaceAdds(es[..|es| - 1], offset, reg); }
  }

  lemma {:induction false} StartPrefix(es: seq<Entry>, n: nat, i: nat)
    requires i <= n <= |es|
    ensures Start(es[..n], i) == Start(es, i)
    decreases i
  {
    if i > 0 { StartPrefix(es, n, i - 1); }
  }

  lemma OverlapIsNotTiled(x: Bank, p: Entry, q: Entry)
    requires Tiled(x) && p in x.entries && q in x.entries
    ensures !Inside(p, q)
  {
    var i :| 0 <= i < |x.entries| && x.entries[i] == p;
    var k :| 0 <= k < |x.entries| && x.entries[k] == q;
    assert InPlace(x.base, x.entries, i) && InPlace(x.base, x.entries, k);
    if k <= i { StartMonotone(x.entries, k, i); } else { StartMonotone(x.entries, i, k); }
  }

  lemma NotBelowBase(x: Bank, i: nat)
    requires Tiled(x) && i < |x.entries|
    ensures x.entries[i].offset >= x.base
  {
    assert InPlace(x.base, x.entries, i);
  }

  lemma BrokenIsNotTiled(x: Bank, front: seq<Entry>, mark: int)
    requires Broken(x, front, mark)
    ensures !Tiled(x)
  {
    if Tiled(x) {
      if LowKey(x) {
        var i :| 0 <= i < |x.entries| && x.entries[i].offset < x.base;
        NotBelowBase(x, i);
      } else if Overlap(x) {
        var p, q :| p in x.entries && q in x.entries && Inside(p, q);
        OverlapIsNotTiled(x, p, q);
      } else if Hole(x, front, mark) {
        assert InPlace(x.base, x.entries, |front|);
        StartPrefix(x.entries, |front|, |front|);
      }
    }
  }

  /** Insertion above `mark` leaves the entries of `front` first and the next one above `mark`. */
  lemma {:induction false} EmplaceAbove(es: seq<Entry>, front: seq<Entry>, mark: int, offset: int, reg: Register)
    requires |es| > |front| && es[..|front|] == front && es[|front|].offset > mark && offset > mark
    requires forall i :: 0 <= i < |front| ==> front[i].offset < mark
    ensures var r := Emplace(es, offset, reg); |r| > |front| && r[..|front|] == front && r[|front|].offset > mark
    decreases es
  {
    var n := |es| - 1;
    if es[n].offset > offset {
      if n > |front| {
        assert es[..n][..|front|] == front;
        EmplaceAbove(es[..n], front, mark, offset, reg);
      } else {
        assert es[..n] == front;
        AppendAbove(front, mark, offset, reg);
      }
    }
  }

  lemma AppendAbove(front: seq<Entry>, mark: int, offset: int, reg: Register)
    requires offset > mark && forall i :: 0 <= i < |front| ==> front[i].offset < mark
    ensures Emplace(front, offset, reg) == front + [Entry(offset, reg)]
  {}

  lemma BrokenStays(x: Bank, front: seq<Entry>, mark: int, offset: nat, reg: Register)
    requires Broken(x, front, mark) && offset > mark
    ensures Broken(Inserted(x, offset, reg), front, mark)
  {
    var y := Inserted(x, offset, reg);
    if Excess(x) {
      EmplaceSizes(x.entries, offset, reg);
    } else if LowKey(x) {
      var i :| 0 <= i < |x.entries| && x.entries[i].offset < x.base;
      EmplaceKeeps(x.entries, offset, reg, x.entries[i]);
    } else if Overlap(x) {
      var p, q :| p in x.entries && q in x.entries && Inside(p, q);
      EmplaceKeeps(x.entries, offset, reg, p);
      EmplaceKeeps(x.entries, offset, reg, q);
    } else {
      EmplaceAbove(x.entries, front, mark, offset, reg);
    }
  }

  /** A register put past the end, or back among what is placed, breaks the bank for good. */
  lemma MisplacedIsBroken(c: Bank, offset: nat, reg: Register)
    requires Tiled(c) && offset != c.base + c.size
    ensures if offset > c.base + c.size then Hole(Inserted(c, offset, reg), c.entries, c.base + c.size)
            else Damaged(Inserted(c, offset, reg))
  {
    var x := Inserted(c, offset, reg);
    if offset > c.base + c.size {
      EndAbove(c);
      AppendAbove(c.entries, c.base + c.size, offset, reg);
      StartPrefix(x.entries, |c.entries|, |c.entries|);
    } else {
      EmplaceSizes(c.entries, offset, reg);
      if |x.entries| == |c.entries| {
        assert Excess(x);
      } else {
        EmplaceAdds(c.entries, offset, reg);
        if offset < c.base {
          var i :| 0 <= i < |x.entries| && x.entries[i] == Entry(offset, reg);
          assert LowKey(x);
        } else {
          TakenOrInside(c, offset, reg);
        }
      }
    }
  }

  lemma EndAbove(c: Bank)
    requires Tiled(c)
    ensures forall i :: 0 <= i < |c.entries| ==> c.entries[i].offset < c.base + c.size
  {
    forall i | 0 <= i < |c.entries| ensures c.entries[i].offset < c.base + c.size {
      assert InPlace(c.base, c.entries, i);
      StartMonotone(c.entries, i, |c.entries|);
    }
  }

  /** The register that holds a byte. */
  lemma {:induction false} Covering(es: seq<Entry>, n: nat, k: nat) returns (i: nat)
    requires n <= |es| && k < Start(es, n)
    ensures i < n && Start(es, i) <= k < Start(es, i) + es[i].reg.Size()
    decreases n
  {
    if k >= Start(es, n - 1) { i := n - 1; } else { i := Covering(es, n - 1, k); }
  }

  lemma TakenOrInside(c: Bank, offset: nat, reg: Register)
    requires Tiled(c) && c.base <= offset < c.base + c.size
    requires |Emplace(c.entries, offset, reg)| != |c.entries| && Entry(offset, reg) in Emplace(c.entries, offset, reg)
    ensures Overlap(Inserted(c, offset, reg))
  {
    var i := Covering(c.entries, |c.entries|, offset - c.base);
    var p := c.entries[i];
    assert InPlace(c.base, c.entries, i);
    if p.offset == offset {
      TiledIncreases(c);
      EmplaceTaken(c.entries, i, reg);
    }
    EmplaceKeeps(c.entries, offset, reg, p);
    assert Inside(p, Entry(offset, reg));
  }

  predicate Increasing(es: seq<Entry>) { forall i, j :: 0 <= i < j < |es| ==> es[i].offset < es[j].offset }

  lemma TiledIncreases(c: Bank)
    requires Tiled(c)
    ensures Increasing(c.entries)
  {
    forall i, j | 0 <= i < j < |c.entries| ensures c.entries[i].offset < c.entries[j].offset {
      assert InPlace(c.base, c.entries, i) && InPlace(c.base, c.entries, j);
      StartMonotone(c.entries, i, j);
    }
  }

  lemma {:induction false} EmplaceTaken(es: seq<Entry>, i: nat, reg: Register)
    requires Increasing(es) && i < |es|
    ensures Emplace(es, es[i].offset, reg) == es
    decreases es
  {
    var n := |es| - 1;
    if i < n {
      assert es[..n][i] == es[i];
      EmplaceTaken(es[..n], i, reg);
      assert es[..n] + [es[n]] == es;
    }
  }

  lemma BrokenPlaceStays(x: Bank, front: seq<Entry>, mark: int, p: Placement, ones: bool)
    requires Broken(x, front, mark) && p.offset > mark && x.base + x.size > mark
    ensures var r := PlaceAt(x, p.offset, p.reg, ones);
            r.Some? ==> Broken(r.value, front, mark) && r.value.base + r.value.size > mark
  {
    var g := Gap(p.offset - (x.base + x.size));
    if g >= 0 {
      if g > 0 { BrokenStays(x, front, mark, x.base + x.size, Filler(ones, g)); }
      BrokenStays(Filled(x, g, ones), front, mark, p.offset, p.reg);
    }
  }

  lemma {:induction false} BrokenPlacesStay(x: Bank, front: seq<Entry>, mark: int, ps: seq<Placement>, ones: bool)
    requires Broken(x, front, mark) && x.base + x.size > mark && forall i :: 0 <= i < |ps| ==> ps[i].offset > mark
    ensures var r := PlaceAll(x, ps, ones); r.Some? ==> !Tiled(r.value)
    decreases |ps|
  {
    if ps == [] {
      BrokenIsNotTiled(x, front, mark);
    } else {
      BrokenPlaceStays(x, front, mark, ps[0], ones);
      var r := PlaceAt(x, ps[0].offset, ps[0].reg, ones);
      if r.Some? { BrokenPlacesStay(r.value, front, mark, ps[1..], ones); }
    }
  }

  /** A first placement out of its distance: no continuation of a sorted list tiles. */
  lemma {:induction false} BadHeadNeverTiles(b: Bank, ps: seq<Placement>, ones: bool)
    requires Tiled(b) && SortedBy(ps, OffsetOf) && ps != [] && !(0 <= ps[0].offset - (b.base + b.size) < TWO31)
    ensures var r := PlaceAll(b, ps, ones); r.Some? ==> !Tiled(r.value)
  {
    var p := ps[0];
    var g := Gap(p.offset - (b.base + b.size));
    if g >= 0 {
      FilledTiles(b, g, ones);
      var c := Filled(b, g, ones);
      var x := Inserted(c, p.offset, p.reg);
      MisplacedIsBroken(c, p.offset, p.reg);
      var rest := ps[1..];
      forall i | 0 <= i < |rest| ensures rest[i].offset >= p.offset { assert OffsetOf(ps[0]) <= OffsetOf(ps[i + 1]); }
      if p.offset > c.base + c.size {
        BrokenPlacesStay(x, c.entries, c.base + c.size, rest, ones);
      } else {
        BrokenPlacesStay(x, [], p.offset - 1, rest, ones);
      }
    }
  }

  /** Exactly when a sorted list keeps the tiling: every register starts at or less than 2 GB after the end before it. */
  lemma {:induction false} PlaceAllTilesIff(b: Bank, ps: seq<Placement>, ones: bool)
    requires Tiled(b) && SortedBy(ps, OffsetOf)
    ensures var r := PlaceAll(b, ps, ones); (r.Some? && Tiled(r.value)) <==> Spaced(b.base + b.size, ps)
    decreases |ps|
  {
    if ps != [] {
      PlaceTilesIff(b, ps[0].offset, ps[0].reg, ones);
      if 0 <= ps[0].offset - (b.base + b.size) < TWO31 {
        var c := PlaceAt(b, ps[0].offset, ps[0].reg, ones).value;
        forall i, j | 0 <= i < j < |ps[1..]| ensures OffsetOf(ps[1..][i]) <= OffsetOf(ps[1..][j]) {
          assert OffsetOf(ps[i + 1]) <= OffsetOf(ps[j + 1]);
        }
        PlaceAllTilesIff(c, ps[1..], ones);
      } else {
        BadHeadNeverTiles(b, ps, ones);
      }
    }
  }

  /** A register 4 GB past the end is accepted, and no byte between is mapped. */
  lemma FarPlacementLeavesHole()
    ensures var b := Bank(0, 0, []); var r := PlaceAt(b, TWO32, Raz(4), false);
            r.Some? && !Tiled(r.value) && r.value.size == 4
  {
    PlaceTilesIff(Bank(0, 0, []), TWO32, Raz(4), false);
  }

  lemma {:induction false} AppendAllTiles(b: Bank, adders: seq<Adder>)
    requires Tiled(b)
    ensures Tiled(AppendAll(b, adders)) && AppendAll(b, adders).base == b.base
    decreases |adders|
  {
    if adders != [] {
      if adders[0].reg.Some? { AppendTiles(b, adders[0].reg.value); }
      AppendAllTiles(if adders[0].reg.Some? then Append(b, adders[0].reg.value) else b, adders[1..]);
    }
  }

  // ---------------------------------------------------------------- accesses

  /** Entry `i` holds byte `k` of the bank. */
  predicate Holds(es: seq<Entry>, i: nat, k: nat) {
    i < |es| && Start(es, i) <= k < Start(es, i) + es[i].reg.Size()
  }

  /** A byte past one register and below the end is the first of the next. */
  lemma {:induction false} NextHolds(es: seq<Entry>, it: nat, k: nat)
    requires it < |es| && k == Start(es, it) + es[it].reg.Size() && k < Start(es, |es|)
    ensures Holds(es, it + 1, k)
  {
    LastEnds(es, it);
    StartsAt(es, it + 1, k);
  }

  lemma {:induction false} LastEnds(es: seq<Entry>, it: nat)
    requires it < |es|
    ensures Start(es, it + 1) == Start(es, it) + es[it].reg.Size()
    ensures Start(es, it + 1) < Start(es, |es|) ==> it + 1 < |es|
  {}

  lemma {:induction false} StartsAt(es: seq<Entry>, i: nat, k: nat)
    requires i < |es| && k == Start(es, i)
    ensures Holds(es, i, k)
  {
    var r := es[i].reg;
    assert r.Size() > 0;
  }

  /** The entry that holds `addr`: the one at it, else the last before it. */
  method Lookup(b: Bank, addr: nat) returns (it: nat)
    requires Tiled(b) && b.base <= addr < b.base + b.size
    ensures Holds(b.entries, it, addr - b.base)
  {
    it := 0;
    while it < |b.entries| && b.entries[it].offset < addr
      invariant it <= |b.entries| && (it > 0 ==> b.base + Start(b.entries, it - 1) < addr)
    {
      assert InPlace(b.base, b.entries, it);
      it := it + 1;
    }
    if it < |b.entries| { assert InPlace(b.base, b.entries, it); }
    if it == |b.entries| || b.entries[it].offset > addr {
      it := it - 1;
    }
  }

  /** `n` bytes of a register from its byte `offset` on. */
  function Slice(reg: Register, offset: nat, n: nat): (r: Data)
    requires offset + n <= reg.Size()
    ensures |r| == n
  {
    seq(n, i requires 0 <= i < n => ByteAt(reg, offset + i))
  }

  /** One register's share of a read. */
  method ReadFrom(reg: Register, offset: nat, bytes: nat) returns (r: Data)
    requires 0 < bytes && offset + bytes <= reg.Size()
    ensures r == Slice(reg, offset, bytes)
  {
    ghost var whole := Slice(reg, offset, bytes);
    if bytes != reg.Size() {
      r := ReadPart(reg, offset, bytes);
      forall i | 0 <= i < bytes ensures |r| == bytes && r[i] == whole[i] { PartialRead(reg, offset, bytes, i); }
    } else {
      r := ReadAll(reg);
      forall i | 0 <= i < bytes ensures |r| == bytes && r[i] == whole[i] { FullRead(reg, i); }
    }
  }

  /** One register's share of a write. */
  method WriteTo(reg: Register, offset: nat, buf: Data) returns (r: Register)
    requires offset + |buf| <= reg.Size()
    ensures Updated(reg, r, offset, buf)
  {
    if |buf| != reg.Size() {
      PartialWrite(reg, offset, buf);
      r := WritePart(reg, offset, buf);
    } else {
      assert offset == 0;
      FullWrite(reg, buf);
      r := WriteAll(reg, buf);
    }
  }

  /** A register's bytes continue the slice read so far. */
  lemma SliceGrows(b: Bank, it: nat, regOff: nat, n: nat, k: nat, done: nat)
    requires Tiled(b) && it < |b.entries| && Start(b.entries, it) + regOff == k + done && regOff + n <= b.entries[it].reg.Size()
    ensures k + done + n <= b.size
    ensures Flat(b)[k..k + done] + Slice(b.entries[it].reg, regOff, n) == Flat(b)[k..k + done + n]
  {
    StartMonotone(b.entries, it, |b.entries|);
    SliceInFlat(b, it, regOff, n);
    JoinSlices(Flat(b), k, k + done, k + done + n);
  }

  lemma SliceInFlat(b: Bank, it: nat, regOff: nat, n: nat)
    requires Tiled(b) && it < |b.entries| && regOff + n <= b.entries[it].reg.Size()
    ensures var s := Start(b.entries, it) + regOff;
            s + n <= b.size && Slice(b.entries[it].reg, regOff, n) == Flat(b)[s..s + n]
  {
    StartMonotone(b.entries, it, |b.entries|);
    var s, reg := Start(b.entries, it) + regOff, b.entries[it].reg;
    var x, y := Slice(reg, regOff, n), Flat(b)[s..s + n];
    forall i | 0 <= i < n ensures x[i] == y[i] { FlatAt(b, it, regOff + i, s + i); }
  }

  lemma FlatAt(b: Bank, it: nat, i: nat, j: nat)
    requires Tiled(b) && it < |b.entries| && i < b.entries[it].reg.Size() && j == Start(b.entries, it) + i
    ensures j < b.size && Flat(b)[j] == ByteAt(b.entries[it].reg, i)
  {
    FlatByteOf(b.entries, |b.entries|, it, i);
  }

  lemma JoinSlices(flat: Data, i: nat, j: nat, k: nat)
    requires i <= j <= k <= |flat|
    ensures flat[i..j] + flat[j..k] == flat[i..k]
  {}

  // ---------------------------------------------------------------- the flat reference

  datatype Op = ReadOp(addr: nat, bytes: nat) | WriteOp(addr: nat, buf: Data)

  function Length(op: Op): nat { if op.ReadOp? then op.bytes else |op.buf| }

  predicate InBounds(base: nat, size: nat, op: Op) { op.addr >= base && op.addr - base + Length(op) <= size }

  /** What a flat array of bytes `x` with write masks `m` does; an access out of bounds does nothing. */
  function FlatStep(x: Data, m: Data, base: nat, op: Op): (r: Data)
    requires |x| == |m|
    ensures |r| == |x|
  {
    if op.WriteOp? && InBounds(base, |x|, op) then Stored(x, m, op.addr - base, op.buf) else x
  }

  function FlatAnswer(x: Data, base: nat, op: Op): Option<Data> {
    if op.WriteOp? || !InBounds(base, |x|, op) then None else Some(x[op.addr - base..op.addr - base + op.bytes])
  }

  /** The bounds test, on 64-bit words. */
  predicate WordTest(base: nat, size: nat, addr: nat, bytes: nat) { (addr - base + bytes) % TWO64 <= size }

  /** The word test answers for the bounds. */
  predicate TestExact(base: nat, size: nat, addr: nat, bytes: nat) {
    WordTest(base, size, addr, bytes) <==> addr >= base && addr - base + bytes <= size
  }

  /** On words it does, except where the sum wraps, below zero or past 2^64, to no more than the size. */
  lemma TestExactIff(base: Addr, size: Addr, addr: Addr, bytes: Addr)
    ensures TestExact(base, size, addr, bytes) <==>
              && !(addr < base && base - addr <= bytes <= base - addr + size)
              && !(addr + bytes < base && TWO64 <= size + (base - addr - bytes))
              && !(addr >= base && TWO64 <= addr - base + bytes <= TWO64 + size)
  {
    var sum := addr - base + bytes;
    if sum < 0 {
      assert (sum + TWO64) % TWO64 == sum % TWO64 == sum + TWO64;
    } else if sum >= TWO64 {
      assert (sum - TWO64) % TWO64 == sum % TWO64 == sum - TWO64;
    }
  }

  /** An access that ends just below the bank passes the word test. */
  lemma BelowBasePasses(base: Addr, size: Addr, addr: Addr)
    requires addr < base
    ensures WordTest(base, size, addr, base - addr) && !TestExact(base, size, addr, base - addr)
  {
    assert (addr - base + (base - addr)) % TWO64 == 0;
  }

  predicate AllExact(base: nat, size: nat, ops: seq<Op>) {
    forall i :: 0 <= i < |ops| ==> TestExact(base, size, ops[i].addr, Length(ops[i]))
  }

  function FlatRun(x: Data, m: Data, base: nat, ops: seq<Op>, n: nat): (r: Data)
    requires |x| == |m| && n <= |ops|
    ensures |r| == |x|
  {
    if n == 0 then x else FlatStep(FlatRun(x, m, base, ops, n - 1), m, base, ops[n - 1])
  }

  /** What the reads among the first `n` accesses return. */
  function FlatAnswers(x: Data, m: Data, base: nat, ops: seq<Op>, n: nat): (r: seq<Option<Data>>)
    requires |x| == |m| && n <= |ops|
    ensures |r| == n
  {
    if n == 0 then []
    else FlatAnswers(x, m, base, ops, n - 1) + [FlatAnswer(FlatRun(x, m, base, ops, n - 1), base, ops[n - 1])]
  }

  /** One byte under the writes that cover it, alone. */
  function ByteRun(x: bv8, m: bv8, base: nat, size: nat, ops: seq<Op>, n: nat, j: nat): bv8
    requires n <= |ops|
  {
    if n == 0 then x
    else
      var y, op := ByteRun(x, m, base, size, ops, n - 1, j), ops[n - 1];
      if op.WriteOp? && InBounds(base, size, op) && op.addr - base <= j < op.addr - base + |op.buf| then
        Mix(y, op.buf[j - (op.addr - base)], m)
      else y
  }

  /** In the flat array each byte depends on the writes that cover it and on nothing else. */
  lemma {:induction false} BytesIndependent(x: Data, m: Data, base: nat, ops: seq<Op>, n: nat, j: nat)
    requires |x| == |m| && n <= |ops| && j < |x|
    ensures FlatRun(x, m, base, ops, n)[j] == ByteRun(x[j], m[j], base, |x|, ops, n, j)
    decreases n
  {
    if n > 0 { BytesIndependent(x, m, base, ops, n - 1, j); }
  }

  /** No run changes a bit outside the write masks. */
  lemma {:induction false} UnwritableKept(x: Data, m: Data, base: nat, ops: seq<Op>, n: nat, j: nat)
    requires |x| == |m| && n <= |ops| && j < |x|
    ensures FlatRun(x, m, base, ops, n)[j] & !m[j] == x[j] & !m[j]
    decreases n
  {
    if n > 0 {
      UnwritableKept(x, m, base, ops, n - 1, j);
      var y, op := FlatRun(x, m, base, ops, n - 1), ops[n - 1];
      var k := j - (op.addr - base);
      if op.WriteOp? && 0 <= k < |op.buf| { MixKeeps(y[j], op.buf[k], m[j]); }
    }
  }

  lemma MixKeeps(x: bv8, v: bv8, m: bv8)
    ensures Mix(x, v, m) & !m == x & !m
    ensures Mix(x, v, m) & m == v & m
  {}

  class RegisterBank {
    const base: nat
    var size: nat
    var entries: seq<Entry>

    ghost function B(): Bank
      reads this
    {
      Bank(base, size, entries)
    }

    constructor (base: nat)
      ensures this.base == base && B() == Bank(base, 0, []) && Tiled(B())
    {
      this.base, size, entries := base, 0, [];
    }

    /** Append registers, checking the offsets the caller expects; false stands for the panic. */
    method AddRegisters(adders: seq<Adder>) returns (ok: bool)
      requires Tiled(B())
      modifies this
      ensures ok <==> adders != [] && Expected(base + old(size), adders)
      ensures ok ==> B() == AppendAll(old(B()), adders)
      ensures Tiled(B())
    {
      if adders == [] { return false; }
      ghost var b := B();
      for i := 0 to |adders|
        invariant Tiled(B())
        invariant Expected(base + old(size), adders) <==> Expected(base + size, adders[i..])
        invariant AppendAll(b, adders) == AppendAll(B(), adders[i..])
      {
        var offset := base + size;
        var adder := adders[i];
        assert adders[i..][0] == adder && adders[i..][1..] == adders[i + 1..];
        if adder.offset.Some? && adder.offset.value != offset { return false; }
        if adder.reg.Some? {
          AppendTiles(B(), adder.reg.value);
          entries := Emplace(entries, offset, adder.reg.value);
          size := size + adder.reg.value.Size();
        }
      }
      ok := true;
    }

    /** Place registers at their offsets, lowest first, filling the holes. */
    method AddRegistersAt(placements: seq<Placement>, ones: bool) returns (ok: bool)
      requires Tiled(B())
      modifies this
      ensures var r := PlaceAll(old(B()), SortBy(placements, OffsetOf), ones);
              (ok <==> placements != [] && r.Some?) && (ok ==> B() == r.value)
      ensures ok && Tiled(B()) <==> placements != [] && Spaced(base + old(size), SortBy(placements, OffsetOf))
    {
      if placements == [] { return false; }
      var sorted := SortBy(placements, OffsetOf);
      ghost var b := B();
      PlaceAllTilesIff(b, sorted, ones);
      for i := 0 to |sorted|
        invariant PlaceAll(b, sorted, ones) == PlaceAll(B(), sorted[i..], ones)
      {
        assert sorted[i..][0] == sorted[i] && sorted[i..][1..] == sorted[i + 1..];
        var placed := Place(sorted[i], ones);
        if !placed { return false; }
      }
      ok := true;
    }

    method Place(p: Placement, ones: bool) returns (ok: bool)
      modifies this
      ensures var r := PlaceAt(old(B()), p.offset, p.reg, ones); (ok <==> r.Some?) && (ok ==> B() == r.value)
    {
      var offset := base + size;
      var gap := Gap(p.offset - offset);
      if gap != 0 {
        if gap < 0 { return false; }
        entries := Emplace(entries, offset, Filler(ones, gap));
        size := size + gap;
      }
      entries := Emplace(entries, p.offset, p.reg);
      size := size + p.reg.Size();
      ok := true;
    }

    method Read(addr: nat, bytes: nat) returns (out: Option<Data>)
      requires Tiled(B()) && TestExact(base, size, addr, bytes)
      ensures out.Some? <==> addr >= base && addr - base + bytes <= size
      ensures out.Some? ==> out.value == Flat(B())[addr - base..addr - base + bytes]
    {
      if (addr - base + bytes) % TWO64 > size { return None; }
      if bytes == 0 { return Some([]); }
      ghost var k := addr - base;
      var buf: Data := [];
      var it := Lookup(Bank(base, size, entries), addr);
      var done := 0;
      while done != bytes
        invariant done <= bytes && buf == Flat(B())[k..k + done]
        invariant 0 <= it && (done != bytes ==> Holds(entries, it, k + done))
      {
        assert InPlace(base, entries, it);
        var regOff := addr + done - entries[it].offset;
        var left := entries[it].reg.Size() - regOff;
        var regBytes := if left < bytes - done then left else bytes - done;
        var piece := ReadFrom(entries[it].reg, regOff, regBytes);
        SliceGrows(B(), it, regOff, regBytes, k, done);
        buf := buf + piece;
        done := done + regBytes;
        if done != bytes { NextHolds(entries, it, k + done); }
        it := it + 1;
      }
      out := Some(buf);
    }

    /** A write stores the masked bits into the flat array; out of bounds it panics and changes nothing. */
    method Write(addr: nat, buf: Data) returns (ok: bool)
      requires Tiled(B()) && TestExact(base, size, addr, |buf|)
      modifies this
      ensures ok <==> addr >= base && addr - base + |buf| <= old(size)
      ensures !ok ==> B() == old(B())
      ensures Tiled(B()) && size == old(size) && FlatMask(B()) == old(FlatMask(B()))
      ensures ok ==> Flat(B()) == Stored(old(Flat(B())), old(FlatMask(B())), addr - base, buf)
    {
      if (addr - base + |buf|) % TWO64 > size { return false; }
      ghost var k, flat, mask := addr - base, Flat(B()), FlatMask(B());
      assert Stored(flat, mask, k, buf[..0]) == flat;
      if |buf| > 0 {
        var it := Lookup(Bank(base, size, entries), addr);
        var done := 0;
        while done != |buf|
          invariant done <= |buf| && size == old(size) && Tiled(B())
          invariant FlatMask(B()) == mask && Flat(B()) == Stored(flat, mask, k, buf[..done])
          invariant 0 <= it && (done != |buf| ==> Holds(entries, it, k + done))
        {
          done := WriteNext(addr, buf, done, it, flat, mask);
          it := it + 1;
        }
        assert buf[..done] == buf;
      }
      ok := true;
    }

    method Access(op: Op) returns (answer: Option<Data>)
      requires Tiled(B()) && TestExact(base, size, op.addr, Length(op))
      modifies this
      ensures Tiled(B()) && size == old(size) && FlatMask(B()) == old(FlatMask(B()))
      ensures Flat(B()) == FlatStep(old(Flat(B())), FlatMask(B()), base, op)
      ensures answer == FlatAnswer(old(Flat(B())), base, op)
    {
      ghost var x, m := Flat(B()), FlatMask(B());
      if op.ReadOp? {
        answer := Read(op.addr, op.bytes);
        assert FlatStep(x, m, base, op) == x;
      } else {
        answer := None;
        var ok := Write(op.addr, op.buf);
        assert ok <==> InBounds(base, |x|, op);
      }
    }

    /** Any sequence of accesses behaves as the flat array does. */
    method Perform(ops: seq<Op>) returns (answers: seq<Option<Data>>)
      requires Tiled(B()) && AllExact(base, size, ops)
      modifies this
      ensures Tiled(B()) && size == old(size) && FlatMask(B()) == old(FlatMask(B()))
      ensures Flat(B()) == FlatRun(old(Flat(B())), FlatMask(B()), base, ops, |ops|)
      ensures answers == FlatAnswers(old(Flat(B())), FlatMask(B()), base, ops, |ops|)
    {
      answers := [];
      ghost var x, m := Flat(B()), FlatMask(B());
      for i := 0 to |ops|
        invariant Tiled(B()) && size == old(size) && FlatMask(B()) == m && Flat(B()) == FlatRun(x, m, base, ops, i)
        invariant answers == FlatAnswers(x, m, base, ops, i)
      {
        var answer := Access(ops[i]);
        answers := answers + [answer];
      }
    }

    /** One turn of the write loop. */
    method WriteNext(addr: nat, buf: Data, done: nat, it: nat, ghost flat: Data, ghost mask: Data) returns (next: nat)
      requires Tiled(B()) && addr >= base && done < |buf| && addr - base + |buf| <= size
      requires Holds(entries, it, addr - base + done) && |flat| == |mask|
      requires FlatMask(B()) == mask && Flat(B()) == Stored(flat, mask, addr - base, buf[..done])
      modifies this
      ensures Tiled(B()) && size == old(size) && done < next <= |buf|
      ensures FlatMask(B()) == mask && Flat(B()) == Stored(flat, mask, addr - base, buf[..next])
      ensures next != |buf| ==> Holds(entries, it + 1, addr - base + next)
    {
      assert InPlace(base, entries, it);
      var regOff := addr + done - entries[it].offset;
      var left := entries[it].reg.Size() - regOff;
      var regBytes := if left < |buf| - done then left else |buf| - done;
      next := done + regBytes;
      var reg := WriteTo(entries[it].reg, regOff, buf[done..next]);
      WriteStep(B(), it, reg, regOff, buf, done, next, flat, mask);
      if next != |buf| { NextAfterWrite(entries, it, reg, addr - base + next); }
      entries := Replace(entries, it, reg);
    }
  }

  /** One turn of the write loop, on values. */
  lemma WriteStep(b: Bank, it: nat, r: Register, k: nat, buf: Data, done: nat, next: nat, flat: Data, mask: Data)
    requires Tiled(b) && it < |b.entries| && done < next <= |buf| && k + (next - done) <= b.entries[it].reg.Size()
    requires Start(b.entries, it) + k >= done && |flat| == |mask| && Updated(b.entries[it].reg, r, k, buf[done..next])
    requires FlatMask(b) == mask && Flat(b) == Stored(flat, mask, Start(b.entries, it) + k - done, buf[..done])
    ensures var c := b.(entries := Replace(b.entries, it, r));
            && Tiled(c) && FlatMask(c) == mask
            && Flat(c) == Stored(flat, mask, Start(b.entries, it) + k - done, buf[..next])
  {
    var at := Start(b.entries, it) + k - done;
    ReplaceStores(b, it, r, k, buf[done..next]);
    assert Stored(Flat(b), mask, at + done, buf[done..next]) == Stored(flat, mask, at, buf[..next]) by {
      StoredTwice(flat, mask, at, buf, done, next);
    }
  }

  lemma NextAfterWrite(es: seq<Entry>, it: nat, r: Register, k: nat)
    requires it < |es| && r.Size() == es[it].reg.Size() && k == Start(es, it) + r.Size() && k < Start(es, |es|)
    ensures Holds(Replace(es, it, r), it + 1, k)
  {
    ReplaceStart(es, it, r, it);
    ReplaceStart(es, it, r, |es|);
    NextHolds(Replace(es, it, r), it, k);
  }
}
