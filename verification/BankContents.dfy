/**
 What a freshly built bank holds: registers in the order they were added, in bus byte order,
 and the chosen filler in the holes between them.
 */
module BankContents {
  import opened Bits
  import opened Registers
  import opened RegisterBanks
  import opened Wrappers

  /** The bytes of a register in bus order: most significant first when big-endian; fillers read as zeros or ones. */
  function Bytes(reg: Register): (r: Data)
    ensures |r| == reg.Size()
  {
    match reg
    case Typed(big, data, _) => seq(|data|, i requires 0 <= i < |data| => if big then data[|data| - 1 - i] else data[i])
    case Raz(n) => seq(n, _ => 0)
    case Rao(n) => seq(n, _ => 0xff)
    case Buf(bytes) => bytes
  }

  /** The writable bits in bus order: a filler has none, a buffer all. */
  function Masks(reg: Register): (r: Data)
    ensures |r| == reg.Size()
  {
    match reg
    case Typed(big, _, m) => seq(|m|, i requires 0 <= i < |m| => if big then m[|m| - 1 - i] else m[i])
    case Raz(n) => seq(n, _ => 0)
    case Rao(n) => seq(n, _ => 0)
    case Buf(bytes) => seq(|bytes|, _ => 0xff)
  }

  lemma BytesAre(reg: Register, i: nat)
    requires i < reg.Size()
    ensures ByteAt(reg, i) == Bytes(reg)[i] && MaskAt(reg, i) == Masks(reg)[i]
  {}

  /** A whole read returns the bytes in bus order. */
  lemma ReadAllIs(reg: Register)
    ensures ReadAll(reg) == Bytes(reg)
  {
    forall i | 0 <= i < reg.Size() ensures |ReadAll(reg)| == reg.Size() && ReadAll(reg)[i] == Bytes(reg)[i] {
      FullRead(reg, i);
      BytesAre(reg, i);
    }
    FullRead(reg, 0);
  }

  // ---------------------------------------------------------------- appending

  /** From bank `b` to bank `c`: what was there stays, and these bytes and masks follow it. */
  predicate Grows(b: Bank, c: Bank, bytes: Data, masks: Data) {
    && Tiled(b) && Tiled(c) && c.base == b.base && c.size == b.size + |bytes|
    && Flat(c) == Flat(b) + bytes && FlatMask(c) == FlatMask(b) + masks
  }

  lemma GrowsTwice(b: Bank, c: Bank, d: Bank, bytes: Data, masks: Data, bytes': Data, masks': Data)
    requires Grows(b, c, bytes, masks) && Grows(c, d, bytes', masks')
    ensures Grows(b, d, bytes + bytes', masks + masks')
  {
    Associates(Flat(b), bytes, bytes');
    Associates(FlatMask(b), masks, masks');
  }

  lemma Associates(x: Data, y: Data, z: Data)
    ensures x + y + z == x + (y + z)
  {}

  lemma GrowsNone(b: Bank)
    requires Tiled(b)
    ensures Grows(b, b, [], [])
  {}

  lemma {:induction false} FlatByteFrame(es: seq<Entry>, e: Entry, n: nat, j: nat)
    requires n <= |es| && j < Start(es, n)
    ensures Start(es + [e], n) == Start(es, n)
    ensures FlatByte(es + [e], n, j) == FlatByte(es, n, j) && MaskByte(es + [e], n, j) == MaskByte(es, n, j)
    decreases n
  {
    StartFrame(es, e, n);
    StartFrame(es, e, n - 1);
    if j < Start(es, n - 1) { FlatByteFrame(es, e, n - 1, j); }
  }

  /** A register added at the end contributes its bytes and its masks, and changes none before. */
  lemma AppendContents(b: Bank, reg: Register)
    requires Tiled(b)
    ensures Grows(b, Append(b, reg), Bytes(reg), Masks(reg))
  {
    AppendTiles(b, reg);
    AppendEntries(b, reg);
    var es, e, c := b.entries, Entry(b.base + b.size, reg), Append(b, reg);
    StartFrame(es, e, |es|);
    forall j | 0 <= j < c.size
      ensures Flat(c)[j] == (Flat(b) + Bytes(reg))[j] && FlatMask(c)[j] == (FlatMask(b) + Masks(reg))[j]
    {
      if j < b.size { FlatByteFrame(es, e, |es|, j); } else { BytesAre(reg, j - b.size); }
    }
  }

  /** The bytes the adders contribute, in their order. */
  function AddedBytes(adders: seq<Adder>): Data {
    if adders == [] then [] else (if adders[0].reg.Some? then Bytes(adders[0].reg.value) else []) + AddedBytes(adders[1..])
  }

  function AddedMasks(adders: seq<Adder>): Data {
    if adders == [] then [] else (if adders[0].reg.Some? then Masks(adders[0].reg.value) else []) + AddedMasks(adders[1..])
  }

  /** Adding registers contributes their bytes and masks, in order. */
  lemma {:induction false} AppendAllContents(b: Bank, adders: seq<Adder>)
    requires Tiled(b)
    ensures Grows(b, AppendAll(b, adders), AddedBytes(adders), AddedMasks(adders))
    decreases |adders|
  {
    if adders == [] {
      GrowsNone(b);
    } else {
      var a, rest := adders[0], adders[1..];
      var c := if a.reg.Some? then Append(b, a.reg.value) else b;
      if a.reg.Some? { AppendContents(b, a.reg.value); } else { GrowsNone(b); }
      AppendAllContents(c, rest);
      var bytes, masks := if a.reg.Some? then Bytes(a.reg.value) else [], if a.reg.Some? then Masks(a.reg.value) else [];
      GrowsTwice(b, c, AppendAll(c, rest), bytes, masks, AddedBytes(rest), AddedMasks(rest));
    }
  }

  // ---------------------------------------------------------------- placing

  function Repeated(n: nat, v: bv8): Data { seq(n, _ => v) }

  lemma FilledContents(b: Bank, g: nat, ones: bool)
    requires Tiled(b)
    ensures Grows(b, Filled(b, g, ones), Repeated(g, if ones then 0xff else 0), Repeated(g, 0))
  {
    if g > 0 { AppendContents(b, Filler(ones, g)); } else { GrowsNone(b); }
  }

  lemma PlacedIsAppended(b: Bank, offset: nat, reg: Register, ones: bool, c: Bank)
    requires 0 <= offset - (b.base + b.size) < TWO31 && c == Filled(b, offset - (b.base + b.size), ones)
    requires c.base + c.size == offset
    ensures PlaceAt(b, offset, reg, ones) == Some(Append(c, reg))
  {}

  /** A register placed after a hole: the hole reads as the filler and cannot be written. */
  lemma PlaceContents(b: Bank, offset: nat, reg: Register, ones: bool)
    requires Tiled(b) && 0 <= offset - (b.base + b.size) < TWO31
    ensures var r, d := PlaceAt(b, offset, reg, ones), offset - (b.base + b.size);
            r.Some? && Grows(b, r.value, Repeated(d, if ones then 0xff else 0) + Bytes(reg), Repeated(d, 0) + Masks(reg))
  {
    var d := offset - (b.base + b.size);
    var c := Filled(b, d, ones);
    FilledContents(b, d, ones);
    AppendContents(c, reg);
    assert PlaceAt(b, offset, reg, ones).value == Append(c, reg) by { PlacedIsAppended(b, offset, reg, ones, c); }
    GrowsTwice(b, c, Append(c, reg), Repeated(d, if ones then 0xff else 0), Repeated(d, 0), Bytes(reg), Masks(reg));
  }

  /** The bytes a spaced list contributes from `end` on. */
  function PlacedBytes(end: nat, ps: seq<Placement>, ones: bool): Data
    requires Spaced(end, ps)
    decreases |ps|
  {
    if ps == [] then []
    else
      Repeated(ps[0].offset - end, if ones then 0xff else 0) + Bytes(ps[0].reg)
      + PlacedBytes(ps[0].offset + ps[0].reg.Size(), ps[1..], ones)
  }

  function PlacedMasks(end: nat, ps: seq<Placement>): Data
    requires Spaced(end, ps)
    decreases |ps|
  {
    if ps == [] then []
    else Repeated(ps[0].offset - end, 0) + Masks(ps[0].reg) + PlacedMasks(ps[0].offset + ps[0].reg.Size(), ps[1..])
  }

  /** Placing a spaced list contributes every register at its offset, and the filler between them. */
  lemma {:induction false} PlaceAllContents(b: Bank, ps: seq<Placement>, ones: bool)
    requires Tiled(b) && Spaced(b.base + b.size, ps)
    ensures var r := PlaceAll(b, ps, ones);
            r.Some? && Grows(b, r.value, PlacedBytes(b.base + b.size, ps, ones), PlacedMasks(b.base + b.size, ps))
    decreases |ps|, 0
  {
    if ps == [] {
      GrowsNone(b);
    } else {
      var p, rest, d := ps[0], ps[1..], ps[0].offset - (b.base + b.size);
      PlaceContents(b, p.offset, p.reg, ones);
      var c := PlaceAt(b, p.offset, p.reg, ones).value;
      PlaceRest(b, c, p.offset + p.reg.Size(), rest, ones, Repeated(d, if ones then 0xff else 0) + Bytes(p.reg), Repeated(d, 0) + Masks(p.reg));
    }
  }

  lemma {:induction false} PlaceRest(b: Bank, c: Bank, end: nat, rest: seq<Placement>, ones: bool, bytes: Data, masks: Data)
    requires Grows(b, c, bytes, masks) && end == c.base + c.size && Spaced(end, rest)
    ensures var r := PlaceAll(c, rest, ones);
            r.Some? && Grows(b, r.value, bytes + PlacedBytes(end, rest, ones), masks + PlacedMasks(end, rest))
    decreases |rest|, 1
  {
    PlaceAllContents(c, rest, ones);
    GrowsTwice(b, c, PlaceAll(c, rest, ones).value, bytes, masks, PlacedBytes(end, rest, ones), PlacedMasks(end, rest));
  }
}
