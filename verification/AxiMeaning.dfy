/**
 What the bridge moves, byte by byte: which bursts it takes, what a local write leaves in
 memory, what every read beat carries, and which response each request gets for what reason.
 Lanes, offsets and regions are written out here and not taken from the bridge.
 */
module AxiMeaning {
  import opened Bits
  import opened DmaBuilder
  import opened AxiPorts
  import opened AxiBridge

  // ---------------------------------------------------------------- bursts

  /** Bytes of a beat. */
  function Width(a: AxiAddr): nat {
    if a.size == 0 then 1 else if a.size == 1 then 2 else if a.size == 2 then 4 else if a.size == 3 then 8 else 16
  }

  /** Where beat `k` starts in the burst's bytes, and on which lane of the bus. */
  function Start(a: AxiAddr, k: nat): nat { k * Width(a) }

  function FirstLane(a: AxiAddr, k: nat): nat { (a.addr + k * Width(a)) % 16 }

  function Total(a: AxiAddr): nat { (a.len + 1) * Width(a) }

  /** An incrementing burst of at most sixteen bytes a beat, within its page, with no beat across the end of the bus. */
  predicate Transferable(a: AxiAddr) {
    && a.size <= 4 && a.burst == 1 && a.addr % 4096 + Total(a) <= 4096
    && forall k: nat :: k <= a.len ==> FirstLane(a, k) + Width(a) <= 16
  }

  lemma WidthIs(a: AxiAddr)
    requires a.size <= 4
    ensures BytesPerBeat(a) == Width(a)
  {}

  lemma TotalIs(a: AxiAddr)
    requires a.size <= 4
    ensures BurstBytes(a) == Total(a)
  {
    WidthIs(a);
    BeforeIsProduct(Width(a), a.len + 1);
  }

  /** Within the page, the bridge's lane and offset of a beat are these. */
  lemma BeatIs(a: AxiAddr, k: nat)
    requires BurstFits(a) && k <= a.len
    ensures Lane(a.addr, BytesPerBeat(a), k) == FirstLane(a, k) && Before(BytesPerBeat(a), k) == Start(a, k)
  {
    WidthIs(a);
    BeforeIsProduct(Width(a), k);
    NoAddressWrap(a.addr, Width(a), k, a.len + 1);
  }

  lemma FitsIff(a: AxiAddr)
    ensures BurstFits(a) <==> a.size <= 4 && a.burst == 1 && a.addr % 4096 + Total(a) <= 4096
  {
    if a.size <= 4 { TotalIs(a); }
  }

  lemma TransferableIff(a: AxiAddr)
    ensures BurstAccepted(a) <==> Transferable(a)
  {
    FitsIff(a);
    if BurstFits(a) {
      LanesFitIff(a);
      WidthIs(a);
      forall k: nat | k <= a.len ensures Lane(a.addr, BytesPerBeat(a), k) == FirstLane(a, k) { BeatIs(a, k); }
      if Transferable(a) {
        forall k | 0 <= k < Beats(a) ensures Lane(a.addr, BytesPerBeat(a), k) + BytesPerBeat(a) <= LANES {
          assert FirstLane(a, k) + Width(a) <= 16;
        }
      }
      if BurstAccepted(a) {
        forall k: nat | k <= a.len ensures FirstLane(a, k) + Width(a) <= 16 {
          assert Lane(a.addr, BytesPerBeat(a), k) + BytesPerBeat(a) <= LANES;
        }
      }
    }
  }

  /** Every lane of beat `k` that carries a byte is strobed, and the last flag is on the last beat. */
  predicate BeatWhole(a: AxiAddr, w: WBeat, k: nat) {
    w.last == (k == a.len) && forall i :: FirstLane(a, k) <= i < FirstLane(a, k) + Width(a) && i < |w.strb| ==> w.strb[i]
  }

  predicate Writable(a: AxiAddr, data: seq<WBeat>) {
    Transferable(a) && |data| == a.len + 1 && forall k: nat :: k <= a.len ==> BeatWhole(a, data[k], k)
  }

  lemma BeatWholeIs(a: AxiAddr, w: WBeat, k: nat)
    requires Transferable(a) && BurstFits(a) && k <= a.len && WellFormedBeat(w)
    ensures BeatComplete(a, w, k) <==> BeatWhole(a, w, k)
  {
    BeatIs(a, k);
    WidthIs(a);
    assert FirstLane(a, k) + Width(a) <= 16;
  }

  lemma WritableIff(a: AxiAddr, data: seq<WBeat>)
    requires WellFormed(data)
    ensures WriteAccepted(a, data) <==> Writable(a, data)
  {
    TransferableIff(a);
    FitsIff(a);
    WriteAcceptedIff(a, data);
    if Transferable(a) && |data| == a.len + 1 {
      forall k: nat | k <= a.len ensures BeatComplete(a, data[k], k) <==> BeatWhole(a, data[k], k) { BeatWholeIs(a, data[k], k); }
    }
  }

  // ---------------------------------------------------------------- regions

  predicate AlignedWord(a: AxiAddr) { a.len == 0 && a.size == 2 && a.burst == 1 && a.addr % 4 == 0 }

  predicate Command(a: AxiAddr) { AlignedWord(a) && 0x3000_0100 <= a.addr <= 0x3000_01ff }

  predicate Accelerator(a: AxiAddr) { 0x3000_0000 <= a.addr <= 0x3000_00fc }

  predicate InLocal(m: Extmem, a: AxiAddr) { m.enabled && 0x2000_0000 <= a.addr && a.addr - 0x2000_0000 + Total(a) <= |m.mem| }

  lemma LocalIs(m: Extmem, a: AxiAddr)
    requires a.size <= 4
    ensures Local(m, a) <==> InLocal(m, a)
  {
    TotalIs(a);
  }

  // ---------------------------------------------------------------- what beats carry

  /** Sixteen lanes: the bytes from `from` on in the `n` lanes from `lane` on, zero elsewhere. */
  predicate LanesCarry(data: seq<Byte>, lane: nat, n: nat, bytes: seq<Byte>, from: nat) {
    && |data| == 16 && from + n <= |bytes|
    && forall i :: 0 <= i < 16 ==> data[i] == if lane <= i < lane + n then bytes[from + i - lane] else 0
  }

  predicate BeatCarriesBytes(a: AxiAddr, r: RBeat, bytes: seq<Byte>, k: nat) {
    r.id == a.id && r.resp == 0 && r.last == (k == a.len) && LanesCarry(r.data, FirstLane(a, k), Width(a), bytes, Start(a, k))
  }

  /** One beat per transfer of the burst, with the burst's bytes in order. */
  predicate Delivers(a: AxiAddr, beats: seq<RBeat>, bytes: seq<Byte>) {
    |beats| == a.len + 1 && forall k: nat :: k <= a.len ==> BeatCarriesBytes(a, beats[k], bytes, k)
  }

  /** A single beat with response 2. */
  predicate Refuses(a: AxiAddr, beats: seq<RBeat>) {
    |beats| == 1 && beats[0].id == a.id && beats[0].resp == 2 && beats[0].last && beats[0].data == Zeros(16)
  }

  lemma PlacedCarries(lane: nat, bytes: seq<Byte>, from: nat, n: nat)
    requires lane + n <= LANES && from + n <= |bytes|
    ensures LanesCarry(Placed(lane, bytes[from..from + n]), lane, n, bytes, from)
  {}

  lemma ReadBeatsDeliver(a: AxiAddr, bytes: seq<Byte>)
    requires BurstAccepted(a) && |bytes| == BurstBytes(a)
    ensures LanesFit(a.addr, BytesPerBeat(a), Beats(a))
    ensures Delivers(a, ReadBeats(a.addr, a.id, BytesPerBeat(a), Beats(a), bytes, Beats(a)), bytes)
  {
    LanesFitIff(a);
    WidthIs(a);
    var beats := ReadBeats(a.addr, a.id, BytesPerBeat(a), Beats(a), bytes, Beats(a));
    forall k: nat | k <= a.len ensures BeatCarriesBytes(a, beats[k], bytes, k) {
      assert Lane(a.addr, BytesPerBeat(a), k) + BytesPerBeat(a) <= LANES;
      ReadBeatAt(a.addr, a.id, BytesPerBeat(a), Beats(a), bytes, Beats(a), k);
      BeatIs(a, k);
      PlacedCarries(FirstLane(a, k), bytes, Start(a, k), Width(a));
    }
  }

  // ---------------------------------------------------------------- answers to reads

  /** What a register read returns. */
  predicate RegisterAnswer(a: AxiAddr, beats: seq<RBeat>, value: seq<Byte>) {
    if AlignedWord(a) then
      |beats| == 1 && beats[0].id == a.id && beats[0].resp == 0 && beats[0].last && LanesCarry(beats[0].data, a.addr % 16, 4, value, 0)
    else Refuses(a, beats)
  }

  /** A read is passed to the host exactly when it is no register, can be transferred and is not local. */
  predicate Deferred(m: Extmem, a: AxiAddr) { !Command(a) && !Accelerator(a) && Transferable(a) && !InLocal(m, a) }

  /** What the core must get for a read that is not passed on. */
  predicate AnswerAtOnce(m: Extmem, a: AxiAddr, value: seq<Byte>, beats: seq<RBeat>) {
    if Command(a) || Accelerator(a) then RegisterAnswer(a, beats, value)
    else if !Transferable(a) then Refuses(a, beats)
    else InLocal(m, a) && Delivers(a, beats, m.mem[a.addr - 0x2000_0000..a.addr - 0x2000_0000 + Total(a)])
  }

  lemma RegisterBeatIs(a: AxiAddr, value: seq<Byte>)
    requires |value| == 4
    ensures RegisterAnswer(a, [RegisterBeat(a, value)], value)
  {
    if AlignedWord(a) {
      assert a.addr % 16 + 4 <= 16;
      assert value[0..0 + 4] == value;
      PlacedCarries(a.addr % 16, value, 0, 4);
    }
  }

  lemma ReadReplyIs(m: Extmem, a: AxiAddr, value: seq<Byte>)
    requires |value| == 4
    ensures ReadReply(m, a, value).None? <==> Deferred(m, a)
    ensures ReadReply(m, a, value).Some? ==> AnswerAtOnce(m, a, value, ReadReply(m, a, value).value)
  {
    TransferableIff(a);
    if RegisterAccess(a) {
      RegisterBeatIs(a, value);
    } else if BurstAccepted(a) {
      LocalIs(m, a);
      TotalIs(a);
      if Local(m, a) { ReadBeatsDeliver(a, m.mem[a.addr - EXTMEM_BASE..a.addr - EXTMEM_BASE + BurstBytes(a)]); }
    }
  }

  // ---------------------------------------------------------------- what a write moves

  lemma {:induction false} PayloadAt(addr: Word, b: nat, data: seq<WBeat>, n: nat, k: nat)
    requires k < n <= |data| && LanesFit(addr, b, n) && WellFormed(data)
    ensures Before(b, k) + b <= Before(b, n) && WellFormedBeat(data[k]) && Lane(addr, b, k) + b <= LANES
    ensures Payload(addr, b, data, n)[Before(b, k)..Before(b, k) + b] == data[k].data[Lane(addr, b, k)..Lane(addr, b, k) + b]
    decreases n
  {
    BeforeMonotone(b, k, n);
    assert Lane(addr, b, k) + b <= LANES;
    if k < n - 1 {
      PayloadAt(addr, b, data, n - 1, k);
      assert Payload(addr, b, data, n)[..Before(b, n - 1)] == Payload(addr, b, data, n - 1);
      SlicePrefix(Payload(addr, b, data, n), Before(b, n - 1), Before(b, k), Before(b, k) + b);
    }
  }

  lemma SlicePrefix(s: seq<Byte>, n: nat, lo: nat, hi: nat)
    requires lo <= hi <= n <= |s|
    ensures s[..n][lo..hi] == s[lo..hi]
  {}

  /** Beat `k` of the burst is found at its place among `bytes`, which start at `at`. */
  predicate Lands(a: AxiAddr, w: WBeat, k: nat, bytes: seq<Byte>, at: nat) {
    && at + Start(a, k) + Width(a) <= |bytes| && FirstLane(a, k) + Width(a) <= |w.data|
    && bytes[at + Start(a, k)..at + Start(a, k) + Width(a)] == w.data[FirstLane(a, k)..FirstLane(a, k) + Width(a)]
  }

  /** The bytes of every beat, in order, from `at` on. */
  predicate Holds(a: AxiAddr, data: seq<WBeat>, bytes: seq<Byte>, at: nat) {
    |data| == a.len + 1 && forall k: nat :: k <= a.len ==> Lands(a, data[k], k, bytes, at)
  }

  lemma PayloadHolds(a: AxiAddr, data: seq<WBeat>)
    requires WriteAccepted(a, data) && WellFormed(data)
    ensures BurstAccepted(a) && LanesFit(a.addr, BytesPerBeat(a), Beats(a)) && BurstBytes(a) == Total(a)
    ensures Holds(a, data, Payload(a.addr, BytesPerBeat(a), data, Beats(a)), 0)
  {
    WriteAcceptedIff(a, data);
    LanesFitIff(a);
    TotalIs(a);
    WidthIs(a);
    forall k: nat | k <= a.len ensures Lands(a, data[k], k, Payload(a.addr, BytesPerBeat(a), data, Beats(a)), 0) {
      BeatIs(a, k);
      PayloadAt(a.addr, BytesPerBeat(a), data, Beats(a), k);
    }
  }

  /** Bytes put between others are still found. */
  lemma HoldsWithin(a: AxiAddr, data: seq<WBeat>, bytes: seq<Byte>, before: seq<Byte>, after: seq<Byte>)
    requires Holds(a, data, bytes, 0)
    ensures Holds(a, data, before + bytes + after, |before|)
  {
    forall k: nat | k <= a.len ensures Lands(a, data[k], k, before + bytes + after, |before|) {
      assert Lands(a, data[k], k, bytes, 0);
      SliceWithin(bytes, before, after, Start(a, k), Start(a, k) + Width(a));
    }
  }

  lemma SliceWithin(s: seq<Byte>, before: seq<Byte>, after: seq<Byte>, lo: nat, hi: nat)
    requires lo <= hi <= |s|
    ensures (before + s + after)[|before| + lo..|before| + hi] == s[lo..hi]
  {}

  /** A write that the local memory takes. */
  predicate WritesLocal(m: Extmem, a: AxiAddr, data: seq<WBeat>) {
    !Command(a) && !Accelerator(a) && Writable(a, data) && InLocal(m, a)
  }

  lemma StoredHolds(m: Extmem, a: AxiAddr, data: seq<WBeat>)
    requires WriteAccepted(a, data) && WellFormed(data) && Local(m, a)
    ensures Holds(a, data, Stored(m, a, data), a.addr - EXTMEM_BASE)
    ensures forall j :: 0 <= j < |m.mem| && !(a.addr - EXTMEM_BASE <= j < a.addr - EXTMEM_BASE + Total(a)) ==> Stored(m, a, data)[j] == m.mem[j]
  {
    var offset := a.addr - EXTMEM_BASE;
    PayloadHolds(a, data);
    HoldsWithin(a, data, Payload(a.addr, BytesPerBeat(a), data, Beats(a)), m.mem[..offset], m.mem[offset + BurstBytes(a)..]);
  }

  /**
   A write the local memory takes puts every byte of every beat at its address, changes no
   other byte, and is answered at once with response 0.
   */
  lemma LocalWrite(s: State, a: AxiAddr, data: seq<WBeat>, o: Outside)
    requires WellFormed(data) && WritesLocal(s.ext, a, data)
    ensures var t := WriteCallback(s, a, data, o);
            && |t.ext.mem| == |s.ext.mem| && t.ext.enabled && Holds(a, data, t.ext.mem, a.addr - 0x2000_0000)
            && (forall j :: 0 <= j < |s.ext.mem| && !(a.addr - 0x2000_0000 <= j < a.addr - 0x2000_0000 + Total(a)) ==> t.ext.mem[j] == s.ext.mem[j])
            && t.wr.responses == s.wr.responses + [BResp(a.id, 0)] && t.dmaPending == s.dmaPending
  {
    WritableIff(a, data);
    LocalIs(s.ext, a);
    StoredHolds(s.ext, a, data);
  }

  /** Any other write leaves the memory alone, but for an operator command that is taken. */
  lemma OtherWrite(s: State, a: AxiAddr, data: seq<WBeat>, o: Outside)
    requires WellFormed(data) && !WritesLocal(s.ext, a, data)
    ensures WriteCallback(s, a, data, o).ext ==
              if Command(a) && WordStrobed(a, data) && o.taken && |o.mem| == |s.ext.mem| then s.ext.(mem := o.mem) else s.ext
  {
    WritableIff(a, data);
    if a.size <= 4 { LocalIs(s.ext, a); }
  }

  /** One beat with the last flag and the four lanes of the word strobed. */
  predicate WordStrobed(a: AxiAddr, data: seq<WBeat>) {
    |data| == 1 && data[0].last && a.addr % 16 + 4 <= |data[0].strb| && forall i :: a.addr % 16 <= i < a.addr % 16 + 4 ==> data[0].strb[i]
  }

  /** Reading a burst back after writing it locally returns, beat by beat, the lanes that were written. */
  lemma ReadAfterWrite(s: State, a: AxiAddr, data: seq<WBeat>, o: Outside, value: seq<Byte>) returns (beats: seq<RBeat>)
    requires WellFormed(data) && WritesLocal(s.ext, a, data) && |value| == 4
    ensures var t := WriteCallback(s, a, data, o);
            && ReadCallback(t, a, value).rd.responses == t.rd.responses + beats && |beats| == a.len + 1
            && (forall k: nat :: k <= a.len ==> SameLanes(a, data[k], beats[k], k))
  {
    LocalWrite(s, a, data, o);
    var t := WriteCallback(s, a, data, o);
    ReadReplyIs(t.ext, a, value);
    beats := ReadReply(t.ext, a, value).value;
    var offset := a.addr - 0x2000_0000;
    forall k: nat | k <= a.len ensures SameLanes(a, data[k], beats[k], k) {
      assert Lands(a, data[k], k, t.ext.mem, offset);
      assert BeatCarriesBytes(a, beats[k], t.ext.mem[offset..offset + Total(a)], k);
      LanesBack(a, data[k], beats[k], k, t.ext.mem, offset);
    }
  }

  /** The read beat has the bytes of the write beat in its lanes. */
  predicate SameLanes(a: AxiAddr, w: WBeat, r: RBeat, k: nat) {
    && r.resp == 0 && FirstLane(a, k) + Width(a) <= 16 && |r.data| == 16 == |w.data|
    && r.data[FirstLane(a, k)..FirstLane(a, k) + Width(a)] == w.data[FirstLane(a, k)..FirstLane(a, k) + Width(a)]
  }

  lemma LanesBack(a: AxiAddr, w: WBeat, r: RBeat, k: nat, mem: seq<Byte>, at: nat)
    requires Transferable(a) && k <= a.len && at + Total(a) <= |mem| && WellFormedBeat(w)
    requires Lands(a, w, k, mem, at) && BeatCarriesBytes(a, r, mem[at..at + Total(a)], k)
    ensures SameLanes(a, w, r, k)
  {
    assert FirstLane(a, k) + Width(a) <= 16;
    LanesSlice(r.data, FirstLane(a, k), Width(a), mem[at..at + Total(a)], Start(a, k));
    SliceSlice(mem, at, Total(a), Start(a, k), Start(a, k) + Width(a));
  }

  lemma LanesSlice(data: seq<Byte>, lane: nat, n: nat, bytes: seq<Byte>, from: nat)
    requires lane + n <= 16 && LanesCarry(data, lane, n, bytes, from)
    ensures data[lane..lane + n] == bytes[from..from + n]
  {
    var x, y := data[lane..lane + n], bytes[from..from + n];
    forall i | 0 <= i < n ensures x[i] == y[i] {
      var l := lane + i;
      assert data[l] == bytes[from + l - lane];
    }
  }

  lemma SliceSlice(s: seq<Byte>, at: nat, n: nat, lo: nat, hi: nat)
    requires lo <= hi <= n && at + n <= |s|
    ensures s[at..at + n][lo..hi] == s[at + lo..at + hi]
  {
    var x, y := s[at..at + n][lo..hi], s[at + lo..at + hi];
    forall i | 0 <= i < hi - lo ensures x[i] == y[i] {}
  }
}
