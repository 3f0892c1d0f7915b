/**
 Turning AXI bursts into DMA requests and memory bytes into AXI read beats.

 The data bus is sixteen byte lanes wide; a beat of `b` bytes at address `x` occupies the
 lanes from `x mod 16`.  Only incrementing bursts are taken (section A3.4.1 of ARM
 IHI 0022E, which also forbids crossing a 4 KB boundary).
 */
module DmaBuilder {
  import opened Bits
  import opened Wrappers

  const LANES: nat := 16
  const DMA_BYTES: nat := 4096
  const PAGE: nat := 4096

  /** The fields of an AXI address beat that decide anything. */
  datatype AxiAddr = AxiAddr(addr: Word, id: nat, len: Byte, size: Byte, burst: Byte)

  datatype RBeat = RBeat(data: seq<Byte>, id: nat, resp: nat, last: bool)

  /** A write beat: sixteen bytes, their strobes and the last flag. */
  datatype WBeat = WBeat(data: seq<Byte>, strb: seq<bool>, last: bool)

  datatype DmaRequest = DmaRequest(write: bool, addr: Word, size: nat, id: nat, data: seq<Byte>)

  function Zeros(n: nat): (s: seq<Byte>)
    ensures |s| == n && forall i :: 0 <= i < n ==> s[i] == 0
  {
    seq(n, i => 0)
  }

  const NO_REQUEST: DmaRequest := DmaRequest(false, 0, 0, 0, Zeros(DMA_BYTES))

  predicate WellFormedBeat(w: WBeat) { |w.data| == LANES && |w.strb| == LANES }

  function Beats(a: AxiAddr): nat { a.len + 1 }

  /** `1 << size`; the sizes above four are refused. */
  function BytesPerBeat(a: AxiAddr): (b: nat)
    ensures b > 0
  {
    Pow2(a.size)
  }

  predicate BeatSize(b: nat) { b == 1 || b == 2 || b == 4 || b == 8 || b == 16 }

  lemma BytesPerBeatCases(a: AxiAddr)
    requires a.size <= 4
    ensures BeatSize(BytesPerBeat(a))
  {}

  /** The bytes of the first `k` beats: `k * b`, as a running sum. */
  function Before(b: nat, k: nat): nat {
    if k == 0 then 0 else Before(b, k - 1) + b
  }

  lemma {:induction false} BeforeIsProduct(b: nat, k: nat)
    ensures Before(b, k) == k * b
  {
    if k > 0 {
      BeforeIsProduct(b, k - 1);
      assert k * b == (k - 1) * b + b;
    }
  }

  lemma {:induction false} BeforeMonotone(b: nat, k: nat, n: nat)
    requires k <= n
    ensures Before(b, k) <= Before(b, n)
    ensures k < n ==> Before(b, k) + b <= Before(b, n)
    decreases n
  {
    if k < n { BeforeMonotone(b, k, n - 1); }
  }

  /** All the bytes of the burst. */
  function BurstBytes(a: AxiAddr): nat { Before(BytesPerBeat(a), Beats(a)) }

  /** The lane of beat `k`, computed on the 32-bit beat address. */
  function Lane(addr: Word, b: nat, k: nat): (l: nat)
    ensures l < LANES
  {
    ((addr + Before(b, k)) % TWO32) % LANES
  }

  /** The first `n` beats lie within the sixteen lanes. */
  predicate LanesFit(addr: Word, b: nat, n: nat) {
    forall k :: 0 <= k < n ==> Lane(addr, b, k) + b <= LANES
  }

  // ---------------------------------------------------------------- which bursts are accepted

  /** The tests before the beat loop. */
  predicate BurstFits(a: AxiAddr) {
    a.size <= 4 && a.burst == 1 && a.addr % PAGE + BurstBytes(a) <= PAGE
  }

  /** The distance of `y` above the last multiple of a beat size. */
  function Over(y: nat, b: nat): nat {
    if b == 1 then 0 else if b == 2 then y % 2 else if b == 4 then y % 4 else if b == 8 then y % 8 else y % 16
  }

  lemma OverIsRemainder(y: nat, b: nat)
    requires BeatSize(b)
    ensures Over(y, b) == y % b
  {
    if b == 1 {
      assert y % 1 == 0;
    } else if b == 2 {
      assert y % b == y % 2;
    } else if b == 4 {
      assert y % b == y % 4;
    } else if b == 8 {
      assert y % b == y % 8;
    } else {
      assert y % b == y % 16;
    }
  }

  lemma LineRoom(y: nat, b: nat)
    requires BeatSize(b)
    ensures Over(y, b) == 0 ==> y % 16 + b <= 16
    ensures Over(y, b) != 0 && y % 16 + b <= 16 ==> y % 16 + b < 16
  {}

  lemma OverNext(y: nat, b: nat)
    requires BeatSize(b)
    ensures Over(y + b, b) == Over(y, b)
  {
    if b == 1 {
    } else if b == 2 {
      assert (y + 2) % 2 == y % 2;
    } else if b == 4 {
      assert (y + 4) % 4 == y % 4;
    } else if b == 8 {
      assert (y + 8) % 8 == y % 8;
    } else {
      assert (y + 16) % 16 == y % 16;
    }
  }

  lemma {:induction false} OverKept(x: nat, b: nat, k: nat)
    requires BeatSize(b)
    ensures Over(x + Before(b, k), b) == Over(x, b)
    decreases k
  {
    if k > 0 {
      OverKept(x, b, k - 1);
      OverNext(x + Before(b, k - 1), b);
    }
  }

  /** A burst that does not cross its page does not wrap the 32-bit address either. */
  lemma NoAddressWrap(addr: Word, b: nat, k: nat, n: nat)
    requires addr % PAGE + Before(b, n) <= PAGE && k < n && b > 0
    ensures Lane(addr, b, k) == (addr + Before(b, k)) % LANES
  {
    var d := Before(b, k);
    assert addr % PAGE + d < PAGE by { BeforeMonotone(b, k, n); }
    PageTop(addr, d);
  }

  lemma PageTop(x: Word, d: nat)
    requires x % PAGE + d < PAGE
    ensures (x + d) % TWO32 == x + d
  {
    var q := x / PAGE;
    assert x == PAGE * q + x % PAGE && q < 0x10_0000;
  }

  /** Exactly the accepted bursts: aligned to the beat, or within one line of sixteen bytes. */
  predicate BurstAccepted(a: AxiAddr) {
    BurstFits(a) && (Over(a.addr, BytesPerBeat(a)) == 0 || a.addr % LANES + BurstBytes(a) <= LANES)
  }

  lemma WithinLine(x: nat, d: nat)
    requires x % LANES + d < LANES
    ensures (x + d) % LANES == x % LANES + d
  {}

  /** A misaligned burst whose beats all fit never leaves its line. */
  lemma {:induction false} MisalignedStaysInLine(addr: Word, b: nat, m: nat, n: nat)
    requires BeatSize(b) && addr % PAGE + Before(b, n) <= PAGE && m <= n
    requires Over(addr, b) != 0 && LanesFit(addr, b, m)
    ensures addr % LANES + Before(b, m) < LANES
    decreases m
  {
    if m > 0 {
      MisalignedStaysInLine(addr, b, m - 1, n);
      NoAddressWrap(addr, b, m - 1, n);
      WithinLine(addr, Before(b, m - 1));
      OverKept(addr, b, m - 1);
      assert Lane(addr, b, m - 1) + b <= LANES;
      LineRoom(addr + Before(b, m - 1), b);
    }
  }

  lemma AcceptedLane(a: AxiAddr, k: nat)
    requires BurstAccepted(a) && k < Beats(a)
    ensures Lane(a.addr, BytesPerBeat(a), k) + BytesPerBeat(a) <= LANES
  {
    var b := BytesPerBeat(a);
    NoAddressWrap(a.addr, b, k, Beats(a));
    BeforeMonotone(b, k, Beats(a));
    if Over(a.addr, b) == 0 {
      OverKept(a.addr, b, k);
      BytesPerBeatCases(a);
      LineRoom(a.addr + Before(b, k), b);
    } else {
      WithinLine(a.addr, Before(b, k));
    }
  }

  lemma LanesFitIff(a: AxiAddr)
    requires BurstFits(a)
    ensures LanesFit(a.addr, BytesPerBeat(a), Beats(a)) <==> BurstAccepted(a)
  {
    if BurstAccepted(a) {
      forall k | 0 <= k < Beats(a) ensures Lane(a.addr, BytesPerBeat(a), k) + BytesPerBeat(a) <= LANES {
        AcceptedLane(a, k);
      }
    } else if LanesFit(a.addr, BytesPerBeat(a), Beats(a)) {
      BytesPerBeatCases(a);
      MisalignedStaysInLine(a.addr, BytesPerBeat(a), Beats(a), Beats(a));
    }
  }

  /** An aligned incrementing burst is accepted exactly when its beats and its page allow it. */
  lemma AlignedAccepted(a: AxiAddr)
    requires a.burst == 1 && (a.size <= 4 ==> a.addr % BytesPerBeat(a) == 0)
    ensures BurstAccepted(a) <==> BytesPerBeat(a) <= LANES && a.addr % PAGE + Beats(a) * BytesPerBeat(a) <= PAGE
  {
    BeforeIsProduct(BytesPerBeat(a), Beats(a));
    if a.size <= 4 {
      BytesPerBeatCases(a);
      OverIsRemainder(a.addr, BytesPerBeat(a));
    } else {
      Pow2Monotone(5, a.size);
    }
  }

  function ReadRequest(a: AxiAddr): DmaRequest {
    DmaRequest(false, a.addr, BurstBytes(a), a.id, Zeros(DMA_BYTES))
  }

  method BuildReadRequest(a: AxiAddr) returns (r: Option<(DmaRequest, nat, nat)>)
    ensures r.Some? <==> BurstAccepted(a)
    ensures r.Some? ==> r.value == (ReadRequest(a), BytesPerBeat(a), Beats(a))
  {
    if a.size > 4 || a.burst != 1 { return None; }
    var bytesPerBeat := BytesPerBeat(a);
    var beats := Beats(a);
    var size := BurstBytes(a);
    var pageOffset := a.addr % PAGE;
    if size > DMA_BYTES || pageOffset + size > PAGE { return None; }
    LanesFitIff(a);
    for beat := 0 to beats
      invariant LanesFit(a.addr, bytesPerBeat, beat)
    {
      if Lane(a.addr, bytesPerBeat, beat) + bytesPerBeat > LANES { return None; }
    }
    r := Some((ReadRequest(a), bytesPerBeat, beats));
  }

  // ---------------------------------------------------------------- write bursts

  predicate LastOnlyAtEnd(data: seq<WBeat>) {
    forall k :: 0 <= k < |data| ==> data[k].last == (k + 1 == |data|)
  }

  /** The `n` lanes from `lane` on are strobed. */
  predicate Strobed(strb: seq<bool>, lane: nat, n: nat) {
    lane + n <= |strb| && forall l :: lane <= l < lane + n ==> strb[l]
  }

  /** Beat `k` carries the right last flag, fits the lanes and strobes every byte it transfers. */
  predicate BeatComplete(a: AxiAddr, w: WBeat, k: nat) {
    w.last == (k + 1 == Beats(a)) && Lane(a.addr, BytesPerBeat(a), k) + BytesPerBeat(a) <= LANES &&
    Strobed(w.strb, Lane(a.addr, BytesPerBeat(a), k), BytesPerBeat(a))
  }

  predicate BeatsComplete(a: AxiAddr, data: seq<WBeat>, n: nat)
    requires n <= |data|
  {
    forall k :: 0 <= k < n ==> BeatComplete(a, data[k], k)
  }

  predicate WriteHeaderOk(a: AxiAddr, data: seq<WBeat>) {
    BurstFits(a) && |data| == Beats(a)
  }

  predicate WriteAccepted(a: AxiAddr, data: seq<WBeat>) {
    WriteHeaderOk(a, data) && BeatsComplete(a, data, Beats(a))
  }

  /** A write is built exactly when a read at its address would be, its flags frame one burst and nothing is masked. */
  lemma WriteAcceptedIff(a: AxiAddr, data: seq<WBeat>)
    ensures WriteAccepted(a, data) <==>
              && BurstAccepted(a) && |data| == Beats(a) && LastOnlyAtEnd(data)
              && forall k :: 0 <= k < |data| ==> Strobed(data[k].strb, Lane(a.addr, BytesPerBeat(a), k), BytesPerBeat(a))
  {
    if BurstFits(a) { LanesFitIff(a); }
    if WriteAccepted(a, data) {
      forall k | 0 <= k < Beats(a) ensures Lane(a.addr, BytesPerBeat(a), k) + BytesPerBeat(a) <= LANES {
        assert BeatComplete(a, data[k], k);
      }
      forall k | 0 <= k < |data|
        ensures Strobed(data[k].strb, Lane(a.addr, BytesPerBeat(a), k), BytesPerBeat(a))
        ensures data[k].last == (k + 1 == |data|)
      {
        assert BeatComplete(a, data[k], k);
      }
    }
  }

  predicate WellFormed(data: seq<WBeat>) { forall k :: 0 <= k < |data| ==> WellFormedBeat(data[k]) }

  /** The bytes the first `n` beats transfer, in address order. */
  function Payload(addr: Word, b: nat, data: seq<WBeat>, n: nat): (r: seq<Byte>)
    requires n <= |data| && LanesFit(addr, b, n) && WellFormed(data)
    ensures |r| == Before(b, n)
  {
    if n == 0 then []
    else
      var lane := Lane(addr, b, n - 1);
      assert WellFormedBeat(data[n - 1]) && lane + b <= LANES;
      Payload(addr, b, data, n - 1) + data[n - 1].data[lane..lane + b]
  }

  /** The request for an accepted write: its bytes, then zeros up to the fixed buffer. */
  function WriteRequest(a: AxiAddr, data: seq<WBeat>): DmaRequest
    requires WriteAccepted(a, data) && WellFormed(data)
  {
    WriteAcceptedIff(a, data);
    LanesFitIff(a);
    DmaRequest(true, a.addr, BurstBytes(a), a.id,
               Payload(a.addr, BytesPerBeat(a), data, Beats(a)) + Zeros(DMA_BYTES - BurstBytes(a)))
  }

  /** The byte loop of one beat: check the strobes and copy. */
  method CopyLanes(w: WBeat, lane: nat, b: nat, bytes: seq<Byte>, base: nat) returns (ok: bool, out: seq<Byte>)
    requires WellFormedBeat(w) && lane + b <= LANES && base + b <= |bytes|
    ensures ok <==> Strobed(w.strb, lane, b)
    ensures |out| == |bytes|
    ensures ok ==> out == bytes[..base] + w.data[lane..lane + b] + bytes[base + b..]
  {
    out := bytes;
    for i := 0 to b
      invariant Strobed(w.strb, lane, i)
      invariant out == bytes[..base] + w.data[lane..lane + i] + bytes[base + i..]
    {
      if !w.strb[lane + i] { return false, out; }
      out := out[base + i := w.data[lane + i]];
    }
    ok := true;
  }

  /** One beat: check its flag, its lanes and its strobes, and copy its bytes. */
  method GatherBeat(a: AxiAddr, w: WBeat, beat: nat, bytes: seq<Byte>) returns (ok: bool, out: seq<Byte>)
    requires WellFormedBeat(w) && Before(BytesPerBeat(a), beat) + BytesPerBeat(a) <= |bytes|
    ensures ok <==> BeatComplete(a, w, beat)
    ensures |out| == |bytes|
    ensures ok ==> var b, base, lane := BytesPerBeat(a), Before(BytesPerBeat(a), beat), Lane(a.addr, BytesPerBeat(a), beat);
                   out == bytes[..base] + w.data[lane..lane + b] + bytes[base + b..]
  {
    var bytesPerBeat, lane := BytesPerBeat(a), Lane(a.addr, BytesPerBeat(a), beat);
    if w.last != (beat + 1 == Beats(a)) || lane + bytesPerBeat > LANES { return false, bytes; }
    ok, out := CopyLanes(w, lane, bytesPerBeat, bytes, Before(bytesPerBeat, beat));
  }

  /** The buffer after `n` beats. */
  ghost predicate Gathered(addr: Word, b: nat, data: seq<WBeat>, n: nat, bytes: seq<Byte>)
    requires n <= |data| && WellFormed(data)
  {
    && LanesFit(addr, b, n) && Before(b, n) <= DMA_BYTES
    && bytes == Payload(addr, b, data, n) + Zeros(DMA_BYTES - Before(b, n))
  }

  lemma GatheredNext(addr: Word, b: nat, data: seq<WBeat>, n: nat, bytes: seq<Byte>, out: seq<Byte>)
    requires n < |data| && WellFormed(data) && Gathered(addr, b, data, n, bytes)
    requires Before(b, n) + b <= DMA_BYTES && Lane(addr, b, n) + b <= LANES && WellFormedBeat(data[n])
    requires var base, lane := Before(b, n), Lane(addr, b, n);
             out == bytes[..base] + data[n].data[lane..lane + b] + bytes[base + b..]
    ensures Gathered(addr, b, data, n + 1, out)
  {
    var base, lane := Before(b, n), Lane(addr, b, n);
    var done, next := Payload(addr, b, data, n), data[n].data[lane..lane + b];
    assert LanesFit(addr, b, n + 1);
    assert Payload(addr, b, data, n + 1) == done + next;
    BufferNext(done, next, DMA_BYTES, bytes);
  }

  lemma BufferNext(done: seq<Byte>, next: seq<Byte>, size: nat, bytes: seq<Byte>)
    requires |done| + |next| <= size && bytes == done + Zeros(size - |done|)
    ensures bytes[..|done|] + next + bytes[|done| + |next|..] == done + next + Zeros(size - |done| - |next|)
  {
    assert bytes[..|done|] == done;
    assert bytes[|done| + |next|..] == Zeros(size - |done| - |next|);
  }

  /**
   The new value of the request is returned on failure as well: it is cleared and its
   header overwritten as soon as the header tests pass.
   */
  method BuildWriteRequest(a: AxiAddr, data: seq<WBeat>, request: DmaRequest) returns (ok: bool, r: DmaRequest)
    requires WellFormed(data)
    ensures ok <==> WriteAccepted(a, data)
    ensures !WriteHeaderOk(a, data) ==> r == request
    ensures WriteHeaderOk(a, data) ==> r == DmaRequest(true, a.addr, BurstBytes(a), a.id, r.data)
    ensures ok ==> r == WriteRequest(a, data)
  {
    if a.size > 4 || a.burst != 1 { return false, request; }
    var n, size := Beats(a), BurstBytes(a);
    if |data| != n || size > DMA_BYTES || a.addr % PAGE + size > PAGE { return false, request; }
    r := DmaRequest(true, a.addr, size, a.id, Zeros(DMA_BYTES));
    assert Gathered(a.addr, BytesPerBeat(a), data, 0, r.data);
    for beat := 0 to n
      invariant r == DmaRequest(true, a.addr, size, a.id, r.data)
      invariant Gathered(a.addr, BytesPerBeat(a), data, beat, r.data)
      invariant BeatsComplete(a, data, beat)
    {
      BeforeMonotone(BytesPerBeat(a), beat, n);
      var fits, bytes := GatherBeat(a, data[beat], beat, r.data);
      if fits { GatheredNext(a.addr, BytesPerBeat(a), data, beat, r.data, bytes); }
      r := r.(data := bytes);
      if !fits { return false, r; }
    }
    ok := true;
  }

  // ---------------------------------------------------------------- read beats

  /** Sixteen lanes, zero except for `bytes` from `lane` on. */
  function Placed(lane: nat, bytes: seq<Byte>): (s: seq<Byte>)
    requires lane + |bytes| <= LANES
    ensures |s| == LANES
  {
    Zeros(lane) + bytes + Zeros(LANES - lane - |bytes|)
  }

  lemma PlacedFound(lane: nat, bytes: seq<Byte>)
    requires lane + |bytes| <= LANES
    ensures Placed(lane, bytes)[lane..lane + |bytes|] == bytes
  {}

  /** Beat `k` of the `n` beats that carry `bytes`. */
  function ReadBeat(addr: Word, id: nat, b: nat, n: nat, bytes: seq<Byte>, k: nat): (r: RBeat)
    requires Lane(addr, b, k) + b <= LANES && Before(b, k) + b <= |bytes|
    ensures r.id == id && r.resp == 0 && r.last == (k + 1 == n) && |r.data| == LANES
  {
    RBeat(Placed(Lane(addr, b, k), bytes[Before(b, k)..Before(b, k) + b]), id, 0, k + 1 == n)
  }

  /** The first `m` of the `n` beats. */
  function ReadBeats(addr: Word, id: nat, b: nat, n: nat, bytes: seq<Byte>, m: nat): (r: seq<RBeat>)
    requires m <= n && LanesFit(addr, b, n) && |bytes| == Before(b, n)
    ensures |r| == m
    ensures forall k :: 0 <= k < m ==> r[k].id == id && r[k].resp == 0 && r[k].last == (k + 1 == n) && |r[k].data| == LANES
  {
    if m == 0 then []
    else
      BeforeMonotone(b, m - 1, n);
      ReadBeats(addr, id, b, n, bytes, m - 1) + [ReadBeat(addr, id, b, n, bytes, m - 1)]
  }

  /** The beat loop, shared by the deferred completion and the local memory path. */
  method SplitIntoBeats(addr: Word, id: nat, b: nat, n: nat, source: seq<Byte>) returns (beats: seq<RBeat>)
    requires LanesFit(addr, b, n) && |source| == Before(b, n)
    ensures beats == ReadBeats(addr, id, b, n, source, n)
  {
    beats := [];
    for beat := 0 to n
      invariant beats == ReadBeats(addr, id, b, n, source, beat)
    {
      BeforeMonotone(b, beat, n);
      assert Lane(addr, b, beat) + b <= LANES;
      var data := Placed(Lane(addr, b, beat), source[Before(b, beat)..Before(b, beat) + b]);
      beats := beats + [RBeat(data, id, 0, beat + 1 == n)];
    }
  }

  // ---------------------------------------------------------------- round trip

  function AllStrobes(): (s: seq<bool>)
    ensures |s| == LANES && forall i :: 0 <= i < LANES ==> s[i]
  {
    seq(LANES, i => true)
  }

  /** Read beats sent back as fully strobed write beats. */
  function AsWrites(beats: seq<RBeat>): (w: seq<WBeat>)
    ensures |w| == |beats|
    ensures forall k :: 0 <= k < |beats| ==> w[k] == WBeat(beats[k].data, AllStrobes(), beats[k].last)
  {
    seq(|beats|, k requires 0 <= k < |beats| => WBeat(beats[k].data, AllStrobes(), beats[k].last))
  }

  lemma {:induction false} ReadBeatAt(addr: Word, id: nat, b: nat, n: nat, bytes: seq<Byte>, m: nat, k: nat)
    requires k < m <= n && LanesFit(addr, b, n) && |bytes| == Before(b, n)
    ensures Before(b, k) + b <= |bytes| && ReadBeats(addr, id, b, n, bytes, m)[k] == ReadBeat(addr, id, b, n, bytes, k)
    decreases m
  {
    BeforeMonotone(b, k, n);
    if k < m - 1 { ReadBeatAt(addr, id, b, n, bytes, m - 1, k); }
  }

  /** The lanes of beat `k` hold the `k`-th group of bytes. */
  predicate Carries(addr: Word, b: nat, w: WBeat, bytes: seq<Byte>, k: nat) {
    var lo, lane := Before(b, k), Lane(addr, b, k);
    lo + b <= |bytes| && lane + b <= |w.data| && w.data[lane..lane + b] == bytes[lo..lo + b]
  }

  lemma BeatCarries(addr: Word, id: nat, b: nat, n: nat, bytes: seq<Byte>, k: nat)
    requires k < n && LanesFit(addr, b, n) && |bytes| == Before(b, n)
    ensures Carries(addr, b, AsWrites(ReadBeats(addr, id, b, n, bytes, n))[k], bytes, k)
  {
    assert Lane(addr, b, k) + b <= LANES;
    ReadBeatAt(addr, id, b, n, bytes, n, k);
    PlacedFound(Lane(addr, b, k), bytes[Before(b, k)..Before(b, k) + b]);
  }

  lemma {:induction false} PayloadIs(addr: Word, b: nat, data: seq<WBeat>, bytes: seq<Byte>, m: nat)
    requires m <= |data| && LanesFit(addr, b, m) && WellFormed(data) && Before(b, m) <= |bytes|
    requires forall k :: 0 <= k < m ==> Carries(addr, b, data[k], bytes, k)
    ensures Payload(addr, b, data, m) == bytes[..Before(b, m)]
    decreases m
  {
    if m > 0 {
      var lo := Before(b, m - 1);
      PayloadIs(addr, b, data, bytes, m - 1);
      assert Carries(addr, b, data[m - 1], bytes, m - 1);
      PrefixGrows(bytes, lo, b);
    }
  }

  lemma PrefixGrows(bytes: seq<Byte>, lo: nat, b: nat)
    requires lo + b <= |bytes|
    ensures bytes[..lo + b] == bytes[..lo] + bytes[lo..lo + b]
  {}

  /**
   Splitting bytes into beats, sending the beats back fully strobed and building the write
   request gives the same bytes, for every accepted burst.
   */
  lemma SplitThenGather(a: AxiAddr, bytes: seq<Byte>)
    requires BurstAccepted(a) && |bytes| == BurstBytes(a)
    ensures LanesFit(a.addr, BytesPerBeat(a), Beats(a))
    ensures var data := AsWrites(ReadBeats(a.addr, a.id, BytesPerBeat(a), Beats(a), bytes, Beats(a)));
            WriteAccepted(a, data) && WriteRequest(a, data).data[..|bytes|] == bytes
  {
    LanesFitIff(a);
    var data := AsWrites(ReadBeats(a.addr, a.id, BytesPerBeat(a), Beats(a), bytes, Beats(a)));
    forall k | 0 <= k < Beats(a) ensures BeatComplete(a, data[k], k) { AcceptedLane(a, k); }
    forall k | 0 <= k < Beats(a) ensures Carries(a.addr, BytesPerBeat(a), data[k], bytes, k) {
      BeatCarries(a.addr, a.id, BytesPerBeat(a), Beats(a), bytes, k);
    }
    PayloadIs(a.addr, BytesPerBeat(a), data, bytes, Beats(a));
    assert bytes[..Before(BytesPerBeat(a), Beats(a))] == bytes;
  }
}
