/**
 A bank of registers behind byte addresses.

 A register value is kept as its bytes, least significant first.  Accesses may cover part of
 a register or span several; the bank must behave as one flat array of bytes of which only
 the bits in the write masks change.
 */
module Registers {

  type Data = seq<bv8>

  // ---------------------------------------------------------------- one register

  /** Registers with the default handlers, the two read-only fillers and the plain buffer. */
  datatype RegisterData =
    | Typed(big: bool, data: Data, writeMask: Data)
    | Raz(size: nat)
    | Rao(size: nat)
    | Buf(bytes: Data)
  {
    predicate Valid() { Size() > 0 && (Typed? ==> |writeMask| == |data|) }

    function Size(): nat {
      match this
      case Typed(_, data, _) => |data|
      case Raz(n) => n
      case Rao(n) => n
      case Buf(bytes) => |bytes|
    }
  }

  type Register = r: RegisterData | r.Valid() witness Raz(1)

  function Fill(n: nat, b: bv8): (s: Data)
    ensures |s| == n
  {
    seq(n, i => b)
  }

  function Reversed(s: Data): (r: Data)
    ensures |r| == |s|
  {
    seq(|s|, i requires 0 <= i < |s| => s[|s| - 1 - i])
  }

  /** Between host order and the register's order; the same map in both directions. */
  function Swapped(big: bool, s: Data): (r: Data)
    ensures |r| == |s|
  {
    if big then Reversed(s) else s
  }

  function Mix(x: bv8, v: bv8, m: bv8): bv8 { (x & !m) | (v & m) }

  function WriteWithMask(x: Data, v: Data, m: Data): (r: Data)
    requires |x| == |v| == |m|
    ensures |r| == |x|
  {
    seq(|x|, i requires 0 <= i < |x| => Mix(x[i], v[i], m[i]))
  }

  /** The bits of `n` bytes from byte `k` on. */
  function ByteMask(size: nat, k: nat, n: nat): (r: Data)
    ensures |r| == size
  {
    seq(size, i => if k <= i < k + n then 0xff else 0)
  }

  function MaskedBytes(x: Data, k: nat, n: nat): (r: Data)
    ensures |r| == |x|
  {
    seq(|x|, i requires 0 <= i < |x| => if k <= i < k + n then x[i] else 0)
  }

  /** Where the accessed bytes lie in host order. */
  function HostOffset(big: bool, size: nat, offset: nat, n: nat): nat
    requires offset + n <= size
  {
    if big then size - (offset + n) else offset
  }

  function ReadAll(reg: Register): (r: Data) {
    match reg
    case Typed(big, data, _) => Swapped(big, data)
    case Raz(n) => Fill(n, 0)
    case Rao(n) => Fill(n, 0xff)
    case Buf(bytes) => bytes
  }

  function ReadPart(reg: Register, offset: nat, n: nat): (r: Data)
    requires offset + n <= reg.Size()
  {
    match reg
    case Typed(big, data, _) => Swapped(big, MaskedBytes(data, HostOffset(big, |data|, offset, n), n))[offset..offset + n]
    case Raz(_) => Fill(n, 0)
    case Rao(_) => Fill(n, 0xff)
    case Buf(bytes) => bytes[offset..offset + n]
  }

  function WriteAll(reg: Register, buf: Data): (r: Register)
    requires |buf| == reg.Size()
  {
    match reg
    case Typed(big, data, m) => Typed(big, WriteWithMask(data, Swapped(big, buf), m), m)
    case Raz(_) => reg
    case Rao(_) => reg
    case Buf(_) => Buf(buf)
  }

  function WritePart(reg: Register, offset: nat, buf: Data): (r: Register)
    requires offset + |buf| <= reg.Size()
  {
    match reg
    case Typed(big, data, m) =>
      var placed := Fill(offset, 0) + buf + Fill(|data| - offset - |buf|, 0);
      var merged := WriteWithMask(data, Swapped(big, placed), ByteMask(|data|, HostOffset(big, |data|, offset, |buf|), |buf|));
      Typed(big, WriteWithMask(data, merged, m), m)
    case Raz(_) => reg
    case Rao(_) => reg
    case Buf(bytes) => Buf(bytes[..offset] + buf + bytes[offset + |buf|..])
  }

  /** Byte `i` of the register, as it appears on the bus. */
  function ByteAt(reg: Register, i: nat): bv8
    requires i < reg.Size()
  {
    match reg
    case Typed(big, data, _) => data[HostByte(big, |data|, i)]
    case Raz(_) => 0
    case Rao(_) => 0xff
    case Buf(bytes) => bytes[i]
  }

  /** The writable bits of byte `i`, as it appears on the bus. */
  function MaskAt(reg: Register, i: nat): bv8
    requires i < reg.Size()
  {
    match reg
    case Typed(big, _, m) => m[HostByte(big, |m|, i)]
    case Raz(_) => 0
    case Rao(_) => 0
    case Buf(_) => 0xff
  }

  function HostByte(big: bool, size: nat, i: nat): (p: nat)
    requires i < size
    ensures p < size
  {
    if big then size - 1 - i else i
  }

  /** The register after a write of `buf` at `offset`: the masked bits of the addressed bytes change. */
  predicate Updated(reg: Register, r: Register, offset: nat, buf: Data)
    requires offset + |buf| <= reg.Size()
  {
    && r.Size() == reg.Size()
    && forall i :: 0 <= i < reg.Size() ==>
         && MaskAt(r, i) == MaskAt(reg, i)
         && ByteAt(r, i) == if offset <= i < offset + |buf| then Mix(ByteAt(reg, i), buf[i - offset], MaskAt(reg, i)) else ByteAt(reg, i)
  }

  /** A flat write: the masked bits of `buf` replace those of `x` from `k` on. */
  function Stored(x: Data, m: Data, k: nat, buf: Data): (r: Data)
    requires |x| == |m|
    ensures |r| == |x|
  {
    seq(|x|, i requires 0 <= i < |x| => if k <= i < k + |buf| then Mix(x[i], buf[i - k], m[i]) else x[i])
  }

  lemma MixAll(x: bv8, v: bv8)
    ensures Mix(x, v, 0xff) == v && Mix(x, v, 0) == x
  {}

  lemma MixSame(x: bv8, m: bv8)
    ensures Mix(x, x, m) == x
  {}

  /** A partial read returns the addressed bytes of the whole, for either byte order. */
  lemma PartialRead(reg: Register, offset: nat, n: nat, i: nat)
    requires i < n && offset + n <= reg.Size()
    ensures |ReadPart(reg, offset, n)| == n && ReadPart(reg, offset, n)[i] == ByteAt(reg, offset + i)
  {
    if reg.Typed? { TypedPart(reg.big, reg.data, offset, n, offset + i); }
  }

  lemma TypedPart(big: bool, data: Data, offset: nat, n: nat, j: nat)
    requires offset <= j < offset + n <= |data|
    ensures Swapped(big, MaskedBytes(data, HostOffset(big, |data|, offset, n), n))[j] == data[HostByte(big, |data|, j)]
  {}

  lemma FullRead(reg: Register, i: nat)
    requires i < reg.Size()
    ensures |ReadAll(reg)| == reg.Size() && ReadAll(reg)[i] == ByteAt(reg, i)
  {}

  lemma FullWrite(reg: Register, buf: Data)
    requires |buf| == reg.Size()
    ensures Updated(reg, WriteAll(reg, buf), 0, buf)
  {
    forall i | 0 <= i < reg.Size() ensures Mix(ByteAt(reg, i), buf[i], 0xff) == buf[i] && Mix(ByteAt(reg, i), buf[i], 0) == ByteAt(reg, i) {
      MixAll(ByteAt(reg, i), buf[i]);
    }
  }

  /** A partial write changes exactly the writable bits of the addressed bytes, for either byte order. */
  lemma PartialWrite(reg: Register, offset: nat, buf: Data)
    requires offset + |buf| <= reg.Size()
    ensures Updated(reg, WritePart(reg, offset, buf), offset, buf)
  {
    forall i | 0 <= i < reg.Size()
      ensures var r := WritePart(reg, offset, buf);
              && MaskAt(r, i) == MaskAt(reg, i)
              && ByteAt(r, i) == if offset <= i < offset + |buf| then Mix(ByteAt(reg, i), buf[i - offset], MaskAt(reg, i)) else ByteAt(reg, i)
    {
      if reg.Typed? {
        TypedByte(reg, offset, buf, i);
      } else if offset <= i < offset + |buf| {
        MixAll(ByteAt(reg, i), buf[i - offset]);
      }
    }
  }

  lemma TypedByte(reg: Register, offset: nat, buf: Data, i: nat)
    requires reg.Typed? && offset + |buf| <= reg.Size() && i < reg.Size()
    ensures ByteAt(WritePart(reg, offset, buf), i)
         == if offset <= i < offset + |buf| then Mix(ByteAt(reg, i), buf[i - offset], MaskAt(reg, i)) else ByteAt(reg, i)
  {
    var p := HostByte(reg.big, |reg.data|, i);
    var placed := Fill(offset, 0) + buf + Fill(|reg.data| - offset - |buf|, 0);
    var v := Swapped(reg.big, placed);
    assert v[p] == placed[i];
    MixAll(reg.data[p], v[p]);
    MixSame(reg.data[p], reg.writeMask[p]);
  }
}
