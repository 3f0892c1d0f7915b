/**
 The bridge between the simulated core's AXI master ports and the host: the two deferred
 callbacks, their single DMA slot, the local external memory, and the calls by which the
 host clocks the core and completes a request.
 */
module AxiBridge {
  import opened Bits
  import opened DmaBuilder
  import opened AxiPorts
  import opened Wrappers

  const SLVERR: nat := 2
  const EXTMEM_BASE: nat := 0x2000_0000
  const CUSTOM_BASE: nat := 0x3000_0000
  const HYBRID_BASE: nat := 0x3000_0100
  const REGION_SIZE: nat := 0x100

  /** The local external memory. */
  datatype Extmem = Extmem(enabled: bool, mem: seq<Byte>)

  datatype State = State(rd: ReadPort, wr: WritePort, ext: Extmem,
                         slot: DmaRequest, dmaPending: bool, beatSize: nat, beatCount: nat)

  // ---------------------------------------------------------------- address decoding

  predicate WordAccess(a: AxiAddr) { a.len == 0 && a.size == 2 && a.burst == 1 && a.addr % 4 == 0 }

  predicate HybridAccess(a: AxiAddr) { WordAccess(a) && HYBRID_BASE <= a.addr < HYBRID_BASE + REGION_SIZE }

  predicate CustomRegion(a: AxiAddr) { CUSTOM_BASE <= a.addr <= CUSTOM_BASE + REGION_SIZE - 4 }

  predicate RegisterAccess(a: AxiAddr) { HybridAccess(a) || CustomRegion(a) }

  /** The burst lies in the local external memory, which is enabled. */
  predicate Local(m: Extmem, a: AxiAddr) {
    m.enabled && a.addr >= EXTMEM_BASE && a.addr - EXTMEM_BASE + BurstBytes(a) <= |m.mem|
  }

  // ---------------------------------------------------------------- read callback

  function RegisterBeat(a: AxiAddr, value: seq<Byte>): RBeat
    requires |value| == 4
  {
    if WordAccess(a) then RBeat(Placed(a.addr % LANES, value), a.id, 0, true)
    else ErrorBeat(a.id)
  }

  function ErrorBeat(id: nat): RBeat { RBeat(Zeros(LANES), id, SLVERR, true) }

  /** The beats of a whole burst over `bytes`. */
  function DataBeats(a: AxiAddr, bytes: seq<Byte>): (r: seq<RBeat>)
    requires BurstAccepted(a) && |bytes| == BurstBytes(a)
    ensures ReplyFor(a, r)
  {
    LanesFitIff(a);
    ReadBeats(a.addr, a.id, BytesPerBeat(a), Beats(a), bytes, Beats(a))
  }

  /** The immediate answer to a read, if there is one; `value` is what the addressed register holds. */
  function ReadReply(m: Extmem, a: AxiAddr, value: seq<Byte>): (r: Option<seq<RBeat>>)
    requires |value| == 4
    ensures r.Some? ==> ReplyFor(a, r.value)
  {
    if RegisterAccess(a) then Some([RegisterBeat(a, value)])
    else if !BurstAccepted(a) then Some([ErrorBeat(a.id)])
    else if Local(m, a) then
      var offset := a.addr - EXTMEM_BASE;
      Some(DataBeats(a, m.mem[offset..offset + BurstBytes(a)]))
    else None
  }

  /** The slot and its bookkeeping after a read callback. */
  function SlotAfterRead(s: State, a: AxiAddr): State {
    if RegisterAccess(a) || !BurstAccepted(a) then s
    else
      var t := s.(beatSize := BytesPerBeat(a), beatCount := Beats(a));
      if Local(s.ext, a) then t.(slot := NO_REQUEST) else t.(slot := ReadRequest(a), dmaPending := true)
  }

  function ReadCallback(s: State, a: AxiAddr, value: seq<Byte>): State
    requires |value| == 4
  {
    var t := SlotAfterRead(s, a);
    match ReadReply(s.ext, a, value)
    case Some(beats) => t.(rd := QueueBeats(t.rd, beats))
    case None => t
  }

  // ---------------------------------------------------------------- write callback

  predicate WordWritten(a: AxiAddr, data: seq<WBeat>) {
    |data| == 1 && data[0].last && Strobed(data[0].strb, a.addr % LANES, 4)
  }

  /**
   What code outside the bridge decides about a write: whether the addressed operator
   register takes the command, the memory its operator leaves, and the bytes a refused
   write leaves in the slot.
   */
  datatype Outside = Outside(taken: bool, mem: seq<Byte>, scratch: seq<Byte>)

  function Stored(m: Extmem, a: AxiAddr, data: seq<WBeat>): (mem: seq<Byte>)
    requires WriteAccepted(a, data) && WellFormed(data) && Local(m, a)
    ensures |mem| == |m.mem|
  {
    WriteAcceptedIff(a, data);
    LanesFitIff(a);
    var offset := a.addr - EXTMEM_BASE;
    m.mem[..offset] + Payload(a.addr, BytesPerBeat(a), data, Beats(a)) + m.mem[offset + BurstBytes(a)..]
  }

  /** The immediate response to a write, if there is one. */
  function WriteReply(m: Extmem, a: AxiAddr, data: seq<WBeat>, o: Outside): (r: Option<BResp>)
    ensures r.Some? ==> r.value.id == a.id
  {
    if HybridAccess(a) then Some(BResp(a.id, if WordWritten(a, data) && o.taken then 0 else SLVERR))
    else if CustomRegion(a) then Some(BResp(a.id, if WordAccess(a) && WordWritten(a, data) then 0 else SLVERR))
    else if !WriteAccepted(a, data) then Some(BResp(a.id, SLVERR))
    else if Local(m, a) then Some(BResp(a.id, 0))
    else None
  }

  /** Memory and slot after a write callback. */
  function EffectOfWrite(s: State, a: AxiAddr, data: seq<WBeat>, o: Outside): State
    requires WellFormed(data)
  {
    if HybridAccess(a) then
      if WordWritten(a, data) && o.taken && |o.mem| == |s.ext.mem| then s.(ext := s.ext.(mem := o.mem)) else s
    else if CustomRegion(a) || !WriteHeaderOk(a, data) then s
    else if !WriteAccepted(a, data) then s.(slot := DmaRequest(true, a.addr, BurstBytes(a), a.id, o.scratch))
    else if Local(s.ext, a) then s.(ext := s.ext.(mem := Stored(s.ext, a, data)), slot := NO_REQUEST)
    else s.(slot := WriteRequest(a, data), dmaPending := true)
  }

  function WriteCallback(s: State, a: AxiAddr, data: seq<WBeat>, o: Outside): State
    requires WellFormed(data)
  {
    var t := EffectOfWrite(s, a, data, o);
    match WriteReply(s.ext, a, data, o)
    case Some(r) => t.(wr := QueueResponse(t.wr, r))
    case None => t
  }

  // ---------------------------------------------------------------- edges and completion

  /** One falling edge of the read port: the core's wires, and the addressed register's value. */
  datatype ReadIn = ReadIn(addrValid: bool, addr: AxiAddr, dataReady: bool, value: seq<Byte>)

  datatype WriteIn = WriteIn(addrValid: bool, addr: AxiAddr, dataValid: bool, beat: WBeat, respReady: bool)

  function Driven(s: State, i: ReadIn): State {
    s.(rd := DriveBeat(PopBeat(s.rd), i.addrValid, i.dataReady))
  }

  predicate Reads(s: State, i: ReadIn) { Accepts(s.rd.addrReady, Driven(s, i).rd, i.addrValid) }

  function ReadEdge(s: State, i: ReadIn): State
    requires |i.value| == 4
  {
    var t := Driven(s, i);
    if Reads(s, i) then ReadCallback(t.(rd := AcceptRead(t.rd)), i.addr, i.value) else t
  }

  function Collected(s: State, i: WriteIn): State {
    var p := DriveResponse(PopResponse(s.wr), i.respReady);
    var q := CaptureAddr(p, i.addrValid && s.wr.addrReady, i.addr);
    s.(wr := CollectBeat(q, i.dataValid && s.wr.dataReady, i.beat))
  }

  predicate Writes(s: State, i: WriteIn) { Submits(Collected(s, i).wr) }

  /** The write edge up to the ready wires. */
  function Answered(s: State, i: WriteIn, o: Outside): State
    requires WellFormed(Collected(s, i).wr.data)
  {
    var t := Collected(s, i);
    if Writes(s, i) then WriteCallback(t.(wr := SubmitWrite(t.wr)), t.wr.addr, t.wr.data, o) else t
  }

  function WriteEdge(s: State, i: WriteIn, o: Outside): State
    requires WellFormed(Collected(s, i).wr.data)
  {
    var t := Answered(s, i, o);
    t.(wr := DriveWriteReady(t.wr))
  }

  /** The beat geometry kept beside the slot describes the read held in it. */
  predicate SlotReadable(s: State) {
    s.dmaPending && !s.slot.write ==> LanesFit(s.slot.addr, s.beatSize, s.beatCount) && s.slot.size == Before(s.beatSize, s.beatCount)
  }

  /** `coral_gem5_dma_complete` refuses without a pending request and for read data of the wrong size. */
  predicate Completable(s: State, data: Option<seq<Byte>>, error: bool) {
    s.dmaPending && (s.slot.write || error || (data.Some? && |data.value| == s.slot.size))
  }

  function CompletionBeats(s: State, data: Option<seq<Byte>>, error: bool): seq<RBeat>
    requires SlotReadable(s) && Completable(s, data, error) && !s.slot.write
  {
    if error then [ErrorBeat(s.slot.id)]
    else ReadBeats(s.slot.addr, s.slot.id, s.beatSize, s.beatCount, data.value, s.beatCount)
  }

  function Completed(s: State, data: Option<seq<Byte>>, error: bool): State
    requires SlotReadable(s)
  {
    if !Completable(s, data, error) then s
    else
      var t := s.(dmaPending := false, slot := NO_REQUEST);
      if s.slot.write then t.(wr := QueueResponse(s.wr, BResp(s.slot.id, if error then SLVERR else 0)))
      else t.(rd := QueueBeats(s.rd, CompletionBeats(s, data, error)))
  }

  // ---------------------------------------------------------------- whole runs

  datatype Event =
    | ReadTick(r: ReadIn)
    | WriteTick(w: WriteIn, o: Outside)
    | Complete(data: Option<seq<Byte>>, error: bool)
    | Enable(on: bool)

  datatype World = World(s: State, r: ReadLog, w: WriteLog)

  predicate ValidEvent(e: Event) {
    (e.ReadTick? ==> |e.r.value| == 4) && (e.WriteTick? ==> WellFormedBeat(e.w.beat))
  }

  predicate DeferredRead(s: State) { s.dmaPending && !s.slot.write }

  predicate DeferredWrite(s: State) { s.dmaPending && s.slot.write }

  /** A deferred read in the slot is the request of the last address. */
  predicate ReadSlot(s: State, l: ReadLog) {
    DeferredRead(s) ==>
      && l.accepted != []
      && var a := l.accepted[|l.accepted| - 1];
         !RegisterAccess(a) && BurstAccepted(a) && s.slot == ReadRequest(a) && s.beatSize == BytesPerBeat(a) && s.beatCount == Beats(a)
  }

  /** A deferred write in the slot is the request of the last call. */
  predicate WriteSlot(s: State, l: WriteLog) {
    DeferredWrite(s) ==>
      && l.calls != []
      && var c := l.calls[|l.calls| - 1];
         !RegisterAccess(c.addr) && WellFormed(c.data) && WriteAccepted(c.addr, c.data) && s.slot == WriteRequest(c.addr, c.data)
  }

  predicate ReadSide(s: State, l: ReadLog) { ReadInv(s.rd, l, DeferredRead(s)) && ReadSlot(s, l) }

  predicate WriteSide(s: State, l: WriteLog) { WriteInv(s.wr, l, DeferredWrite(s)) && ReadyOk(s.wr) && WriteSlot(s, l) }

  predicate Inv(w: World) { ReadSide(w.s, w.r) && WriteSide(w.s, w.w) }

  function AnsweredLog(l: ReadLog, a: AxiAddr, reply: Option<seq<RBeat>>): ReadLog {
    l.(accepted := l.accepted + [a], replies := if reply.Some? then l.replies + [reply.value] else l.replies)
  }

  /** The log after the response channel and the address wires of a read edge. */
  function OfferedLog(s: State, l: ReadLog, i: ReadIn): ReadLog {
    var q := PopLog(s.rd, l);
    if i.addrValid && s.rd.addrReady then q.(offered := q.offered + [i.addr]) else q
  }

  function ReadTickNext(w: World, i: ReadIn): World
    requires |i.value| == 4
  {
    var l := OfferedLog(w.s, w.r, i);
    World(ReadEdge(w.s, i), if Reads(w.s, i) then AnsweredLog(l, i.addr, ReadReply(w.s.ext, i.addr, i.value)) else l, w.w)
  }

  /** The log after the handshakes of a write edge. */
  function Taken(s: State, l: WriteLog, i: WriteIn): WriteLog {
    var l0 := PopWriteLog(s.wr, l);
    var l1 := if i.addrValid && s.wr.addrReady then l0.(addrs := l0.addrs + [i.addr]) else l0;
    if i.dataValid && s.wr.dataReady then l1.(beats := l1.beats + [i.beat]) else l1
  }

  function CalledLog(s: State, l: WriteLog, i: WriteIn): WriteLog {
    var l', p := Taken(s, l, i), Collected(s, i).wr;
    if Writes(s, i) then l'.(calls := l'.calls + [Call(p.addr, p.data)]) else l'
  }

  function WriteTickNext(w: World, i: WriteIn, o: Outside): World
    requires WellFormed(Collected(w.s, i).wr.data)
  {
    World(WriteEdge(w.s, i, o), w.r, CalledLog(w.s, w.w, i))
  }

  function CompleteNext(w: World, data: Option<seq<Byte>>, error: bool): World
    requires SlotReadable(w.s)
  {
    var s := Completed(w.s, data, error);
    if !Completable(w.s, data, error) || w.s.slot.write then World(s, w.r, w.w)
    else World(s, w.r.(replies := w.r.replies + [CompletionBeats(w.s, data, error)]), w.w)
  }

  /** `coral_gem5_extmem_enable`: refused while a request is pending; enabling clears the memory. */
  function Enabled(s: State, on: bool): State {
    if s.dmaPending then s else s.(ext := Extmem(on, if on then Zeros(|s.ext.mem|) else s.ext.mem))
  }

  lemma CollectedWellFormed(w: World, i: WriteIn)
    requires WriteInv(w.s.wr, w.w, DeferredWrite(w.s)) && WellFormedBeat(i.beat)
    ensures WellFormed(Collected(w.s, i).wr.data)
  {}

  lemma SlotReadableFromInv(w: World)
    requires ReadSlot(w.s, w.r)
    ensures SlotReadable(w.s)
  {
    if DeferredRead(w.s) { LanesFitIff(w.r.accepted[|w.r.accepted| - 1]); }
  }

  /** The bridge has a defined behaviour for the event. */
  predicate Defined(w: World, e: Event) {
    && ValidEvent(e)
    && (e.WriteTick? ==> WellFormed(Collected(w.s, e.w).wr.data))
    && (e.Complete? ==> SlotReadable(w.s))
  }

  function Next(w: World, e: Event): World
    requires Defined(w, e)
  {
    match e
    case ReadTick(i) => ReadTickNext(w, i)
    case WriteTick(i, o) => WriteTickNext(w, i, o)
    case Complete(data, error) => CompleteNext(w, data, error)
    case Enable(on) => w.(s := Enabled(w.s, on))
  }

  lemma InvDefined(w: World, e: Event)
    requires Inv(w) && ValidEvent(e)
    ensures Defined(w, e)
  {
    if e.WriteTick? { CollectedWellFormed(w, e.w); }
    if e.Complete? { SlotReadableFromInv(w); }
  }

  /** The event runs a callback that overwrites the slot while a request is still held in it. */
  predicate Clobbers(s: State, e: Event) {
    && s.dmaPending
    && match e
       case ReadTick(i) => Reads(s, i) && !RegisterAccess(i.addr) && BurstAccepted(i.addr)
       case WriteTick(i, o) =>
         var t := Collected(s, i);
         Writes(s, i) && !RegisterAccess(t.wr.addr) && WriteHeaderOk(t.wr.addr, t.wr.data)
       case Complete(_, _) => false
       case Enable(_) => false
  }

  // ---------------------------------------------------------------- one step

  /** A read callback that finds the slot free of a held request takes it exactly when it defers. */
  lemma ReadEffect(s: State, a: AxiAddr, value: seq<Byte>)
    requires |value| == 4 && !DeferredRead(s) && !(s.dmaPending && !RegisterAccess(a) && BurstAccepted(a))
    ensures var t := SlotAfterRead(s, a);
            && t.rd == s.rd && t.wr == s.wr
            && DeferredWrite(t) == DeferredWrite(s) && (DeferredWrite(s) ==> t.slot == s.slot)
            && (DeferredRead(t) <==> ReadReply(s.ext, a, value).None?)
            && (DeferredRead(t) ==> !RegisterAccess(a) && BurstAccepted(a) && t.slot == ReadRequest(a) &&
                                    t.beatSize == BytesPerBeat(a) && t.beatCount == Beats(a))
  {}

  lemma WriteEffect(s: State, a: AxiAddr, data: seq<WBeat>, o: Outside)
    requires WellFormed(data) && !DeferredWrite(s) && !(s.dmaPending && !RegisterAccess(a) && WriteHeaderOk(a, data))
    ensures var t := EffectOfWrite(s, a, data, o);
            && t.rd == s.rd && t.wr == s.wr && t.beatSize == s.beatSize && t.beatCount == s.beatCount
            && DeferredRead(t) == DeferredRead(s) && (DeferredRead(s) ==> t.slot == s.slot)
            && (DeferredWrite(t) <==> WriteReply(s.ext, a, data, o).None?)
            && (DeferredWrite(t) ==> !RegisterAccess(a) && WriteAccepted(a, data) && t.slot == WriteRequest(a, data))
  {}

  lemma ReadPortKept(s: State, l: ReadLog, i: ReadIn)
    requires ReadInv(s.rd, l, DeferredRead(s))
    ensures ReadInv(Driven(s, i).rd, OfferedLog(s, l, i), DeferredRead(s))
  {
    PopKeeps(s.rd, l, DeferredRead(s));
    DriveKeeps(PopBeat(s.rd), PopLog(s.rd, l), DeferredRead(s), i.addrValid, i.dataReady);
  }

  function AnsweredPort(p: ReadPort, reply: Option<seq<RBeat>>): ReadPort {
    if reply.Some? then QueueBeats(AcceptRead(p), reply.value) else AcceptRead(p)
  }

  /** Taking an address: answered at once or deferred, the port's invariant holds again. */
  lemma AddressAnswered(p: ReadPort, l: ReadLog, a: AxiAddr, reply: Option<seq<RBeat>>)
    requires ReadInv(p, l, false) && !p.pending && (reply.Some? ==> ReplyFor(a, reply.value))
    ensures ReadInv(AnsweredPort(p, reply), AnsweredLog(l, a, reply), reply.None?)
  {
    AcceptDeferred(p, l, a);
    if reply.Some? { AnswerKeeps(AcceptRead(p), l.(accepted := l.accepted + [a]), reply.value); }
  }

  lemma TakenReadShape(s: State, a: AxiAddr, value: seq<Byte>)
    requires |value| == 4 && !DeferredRead(s) && !(s.dmaPending && !RegisterAccess(a) && BurstAccepted(a))
    ensures var t, reply := ReadCallback(s.(rd := AcceptRead(s.rd)), a, value), ReadReply(s.ext, a, value);
            && t.rd == AnsweredPort(s.rd, reply)
            && t.wr == s.wr && DeferredWrite(t) == DeferredWrite(s) && (DeferredWrite(s) ==> t.slot == s.slot)
            && (DeferredRead(t) <==> reply.None?)
            && (DeferredRead(t) ==> !RegisterAccess(a) && BurstAccepted(a) && t.slot == ReadRequest(a) &&
                                    t.beatSize == BytesPerBeat(a) && t.beatCount == Beats(a))
  {
    ReadEffect(s.(rd := AcceptRead(s.rd)), a, value);
  }

  lemma TakenReadKept(s: State, l: ReadLog, a: AxiAddr, value: seq<Byte>)
    requires |value| == 4 && ReadInv(s.rd, l, DeferredRead(s)) && !s.rd.pending
    requires !(s.dmaPending && !RegisterAccess(a) && BurstAccepted(a))
    ensures var t := ReadCallback(s.(rd := AcceptRead(s.rd)), a, value);
            && ReadSide(t, AnsweredLog(l, a, ReadReply(s.ext, a, value)))
            && t.wr == s.wr && DeferredWrite(t) == DeferredWrite(s) && (DeferredWrite(s) ==> t.slot == s.slot)
  {
    TakenReadShape(s, a, value);
    AddressAnswered(s.rd, l, a, ReadReply(s.ext, a, value));
  }

  lemma ReadTickKeeps(w: World, i: ReadIn)
    requires Inv(w) && |i.value| == 4 && !Clobbers(w.s, ReadTick(i))
    ensures Inv(ReadTickNext(w, i))
  {
    ReadPortKept(w.s, w.r, i);
    if Reads(w.s, i) {
      TakenReadKept(Driven(w.s, i), OfferedLog(w.s, w.r, i), i.addr, i.value);
    }
  }

  lemma WritePortKept(s: State, l: WriteLog, i: WriteIn)
    requires WriteInv(s.wr, l, DeferredWrite(s)) && ReadyOk(s.wr) && WellFormedBeat(i.beat)
    ensures WriteInv(Collected(s, i).wr, Taken(s, l, i), DeferredWrite(s))
  {
    var deferred, l' := DeferredWrite(s), PopWriteLog(s.wr, l);
    PopResponseKeeps(s.wr, l, deferred);
    var p := DriveResponse(PopResponse(s.wr), i.respReady);
    DriveResponseKeeps(PopResponse(s.wr), l', deferred, i.respReady);
    var ah, dh := i.addrValid && s.wr.addrReady, i.dataValid && s.wr.dataReady;
    CaptureKeeps(p, l', deferred, ah, i.addr);
    CollectKeeps(CaptureAddr(p, ah, i.addr), if ah then l'.(addrs := l'.addrs + [i.addr]) else l', deferred, dh, i.beat);
  }

  /** Submitting a write: answered at once or deferred, the port's invariant holds again. */
  lemma CallAnswered(p: WritePort, l: WriteLog, reply: Option<BResp>)
    requires WriteInv(p, l, false) && Submits(p) && (reply.Some? ==> reply.value.id == p.addr.id)
    ensures var l' := l.(calls := l.calls + [Call(p.addr, p.data)]);
            && WholeBurst(p.data)
            && (reply.None? ==> WriteInv(SubmitWrite(p), l', true))
            && (reply.Some? ==> WriteInv(QueueResponse(SubmitWrite(p), reply.value), l', false))
  {
    SubmitKeeps(p, l);
    if reply.Some? { RespondKeeps(SubmitWrite(p), l.(calls := l.calls + [Call(p.addr, p.data)]), reply.value); }
  }

  lemma AnsweredKept(s: State, l: WriteLog, i: WriteIn, o: Outside)
    requires WriteSide(s, l) && WellFormedBeat(i.beat) && !(DeferredRead(s) && Clobbers(s, WriteTick(i, o)))
    ensures WellFormed(Collected(s, i).wr.data)
    ensures var t, l' := Answered(s, i, o), CalledLog(s, l, i);
            && WriteInv(t.wr, l', DeferredWrite(t)) && WriteSlot(t, l')
            && t.rd == s.rd && DeferredRead(t) == DeferredRead(s)
            && (DeferredRead(s) ==> t.slot == s.slot && t.beatSize == s.beatSize && t.beatCount == s.beatCount)
  {
    WritePortKept(s, l, i);
    if Writes(s, i) {
      var t := Collected(s, i);
      var u := t.(wr := SubmitWrite(t.wr));
      WriteEffect(u, t.wr.addr, t.wr.data, o);
      CallAnswered(t.wr, Taken(s, l, i), WriteReply(u.ext, t.wr.addr, t.wr.data, o));
    }
  }

  /** The write port keeps its side whatever the read port does, while no deferred read is overwritten. */
  lemma WriteSideKept(w: World, i: WriteIn, o: Outside)
    requires WriteSide(w.s, w.w) && WellFormedBeat(i.beat) && !(DeferredRead(w.s) && Clobbers(w.s, WriteTick(i, o)))
    ensures WellFormed(Collected(w.s, i).wr.data)
    ensures var w' := WriteTickNext(w, i, o);
            && WriteSide(w'.s, w'.w) && w'.s.rd == w.s.rd && DeferredRead(w'.s) == DeferredRead(w.s)
            && (DeferredRead(w.s) ==> w'.s.slot == w.s.slot && w'.s.beatSize == w.s.beatSize && w'.s.beatCount == w.s.beatCount)
  {
    AnsweredKept(w.s, w.w, i, o);
    var t := Answered(w.s, i, o);
    WriteReadyKeeps(t.wr, CalledLog(w.s, w.w, i), DeferredWrite(t));
  }

  lemma WriteTickKeeps(w: World, i: WriteIn, o: Outside)
    requires Inv(w) && WellFormedBeat(i.beat) && !Clobbers(w.s, WriteTick(i, o))
    ensures WellFormed(Collected(w.s, i).wr.data) && Inv(WriteTickNext(w, i, o))
  {
    WriteSideKept(w, i, o);
  }

  lemma CompleteKeeps(w: World, data: Option<seq<Byte>>, error: bool)
    requires Inv(w)
    ensures SlotReadable(w.s) && Inv(CompleteNext(w, data, error))
  {
    SlotReadableFromInv(w);
    if Completable(w.s, data, error) {
      if w.s.slot.write {
        RespondKeeps(w.s.wr, w.w, BResp(w.s.slot.id, if error then SLVERR else 0));
      } else {
        CompletionReplies(w, data, error);
        AnswerKeeps(w.s.rd, w.r, CompletionBeats(w.s, data, error));
      }
    }
  }

  lemma CompletionReplies(w: World, data: Option<seq<Byte>>, error: bool)
    requires ReadSlot(w.s, w.r) && SlotReadable(w.s) && DeferredRead(w.s) && Completable(w.s, data, error)
    ensures ReplyFor(w.r.accepted[|w.r.accepted| - 1], CompletionBeats(w.s, data, error))
  {}

  lemma StepKeeps(w: World, e: Event)
    requires Inv(w) && ValidEvent(e) && !Clobbers(w.s, e)
    ensures Defined(w, e) && Inv(Next(w, e))
  {
    InvDefined(w, e);
    match e
    case ReadTick(i) => ReadTickKeeps(w, i);
    case WriteTick(i, o) => WriteTickKeeps(w, i, o);
    case Complete(data, error) => CompleteKeeps(w, data, error);
    case Enable(on) =>
  }

  lemma ReadClobberBreaks(w: World, i: ReadIn)
    requires Inv(w) && |i.value| == 4 && Clobbers(w.s, ReadTick(i))
    ensures !WriteInv(ReadTickNext(w, i).s.wr, w.w, DeferredWrite(ReadTickNext(w, i).s))
  {
    ReadPortKept(w.s, w.r, i);
    assert DeferredWrite(w.s);
  }

  lemma WriteClobberBreaks(w: World, i: WriteIn, o: Outside)
    requires Inv(w) && WellFormedBeat(i.beat) && Clobbers(w.s, WriteTick(i, o))
    ensures WellFormed(Collected(w.s, i).wr.data) && !ReadSide(WriteTickNext(w, i, o).s, w.r)
  {
    WritePortKept(w.s, w.w, i);
    CollectedWellFormed(w, i);
    var t := Collected(w.s, i);
    OverwrittenRead(t.(wr := SubmitWrite(t.wr)), t.wr.addr, t.wr.data, o);
    BurstNotEmpty(w.r.accepted[|w.r.accepted| - 1]);
  }

  lemma OverwrittenRead(s: State, a: AxiAddr, data: seq<WBeat>, o: Outside)
    requires WellFormed(data) && s.dmaPending && !RegisterAccess(a) && WriteHeaderOk(a, data)
    ensures var t := WriteCallback(s, a, data, o); t.rd == s.rd && t.dmaPending && (t.slot.write || t.slot == NO_REQUEST)
  {}

  lemma BurstNotEmpty(a: AxiAddr)
    ensures BurstBytes(a) > 0
  {
    BeforeMonotone(BytesPerBeat(a), 0, Beats(a));
  }

  /** Exactly the one-slot rule: a step keeps every request accounted for unless its callback overwrites a held request. */
  lemma OneSlotExact(w: World, e: Event)
    requires Inv(w) && ValidEvent(e)
    ensures Defined(w, e)
    ensures Inv(Next(w, e)) <==> !Clobbers(w.s, e)
  {
    InvDefined(w, e);
    if !Clobbers(w.s, e) {
      StepKeeps(w, e);
    } else if e.ReadTick? {
      ReadClobberBreaks(w, e.r);
    } else {
      WriteClobberBreaks(w, e.w, e.o);
    }
  }

  // ---------------------------------------------------------------- whole runs

  predicate Initial(w: World) {
    && w.s.rd == ReadPort(true, None, [], false, false, false)
    && w.s.wr == WritePort(false, false, None, [], false, false, false, false, w.s.wr.addr, [], false)
    && !w.s.dmaPending && w.r == ReadLog([], [], [], []) && w.w == WriteLog([], [], [], [])
  }

  predicate Run(ws: seq<World>, es: seq<Event>) {
    |ws| == |es| + 1 && forall i :: 0 <= i < |es| ==> Defined(ws[i], es[i]) && ws[i + 1] == Next(ws[i], es[i])
  }

  /** No step overwrites a held request. */
  predicate OneSlot(ws: seq<World>, es: seq<Event>)
    requires |ws| == |es| + 1
  {
    forall i :: 0 <= i < |es| ==> !Clobbers(ws[i].s, es[i])
  }

  lemma {:induction false} RunKeeps(ws: seq<World>, es: seq<Event>, n: nat)
    requires Run(ws, es) && Initial(ws[0]) && OneSlot(ws, es) && n < |ws|
    ensures Inv(ws[n])
    decreases n
  {
    if n > 0 {
      RunKeeps(ws, es, n - 1);
      assert Defined(ws[n - 1], es[n - 1]) && !Clobbers(ws[n - 1].s, es[n - 1]);
      StepKeeps(ws[n - 1], es[n - 1]);
    }
  }

  /**
   Every run that keeps the one-slot rule: each accepted address gets one reply, either its
   full burst or a single error beat, in order and under its identifier; the delivered last
   beats count the finished requests; no edge pops an empty queue.
   */
  lemma ReadsAnswered(ws: seq<World>, es: seq<Event>, n: nat)
    requires Run(ws, es) && Initial(ws[0]) && OneSlot(ws, es) && n < |ws|
    ensures var w := ws[n];
            && RepliesMatch(w.r.accepted, w.r.replies)
            && |w.r.accepted| == |w.r.replies| + BoolBit(DeferredRead(w.s))
            && w.r.popped + w.s.rd.responses == Flatten(w.r.replies)
            && |w.r.accepted| == LastBeats(w.r.popped) + BoolBit(w.s.rd.pending)
            && (w.s.rd.handshake ==> w.s.rd.responses != [] && w.s.rd.wire == Some(w.s.rd.responses[0]))
  {
    RunKeeps(ws, es, n);
    ReadAccounting(ws[n].s.rd, ws[n].r, DeferredRead(ws[n].s));
  }

  /**
   Every such run: each address and each beat that crossed the port is in exactly one call,
   in order; a call is one address with one whole burst; each call has one response, under
   its identifier, once it is no longer pending.
   */
  lemma WritesAnswered(ws: seq<World>, es: seq<Event>, n: nat)
    requires Run(ws, es) && Initial(ws[0]) && OneSlot(ws, es) && n < |ws|
    ensures var w, p := ws[n], ws[n].s.wr;
            && w.w.addrs == CallAddrs(w.w.calls) + (if p.captured && !p.pending then [p.addr] else [])
            && w.w.beats == Flatten(CallData(w.w.calls)) + (if p.pending then [] else p.data)
            && (forall i :: 0 <= i < |w.w.calls| ==> WholeBurst(w.w.calls[i].data))
            && |w.w.calls| == |w.w.acks| + BoolBit(p.pending)
            && AcksMatch(w.w.acks, w.w.calls)
  {
    RunKeeps(ws, es, n);
    var w := ws[n];
    forall i | 0 <= i < |w.w.acks| ensures w.w.acks[i].id == w.w.calls[i].addr.id {
      assert (w.w.acks + w.s.wr.responses)[i] == w.w.acks[i];
    }
  }

  /** The builder's last-flag test never refuses a call whose beat count is right. */
  lemma LastFlagNeverFails(ws: seq<World>, es: seq<Event>, n: nat, c: nat)
    requires Run(ws, es) && Initial(ws[0]) && OneSlot(ws, es) && n < |ws| && c < |ws[n].w.calls|
    ensures var call := ws[n].w.calls[c]; var a := call.addr;
            WriteAccepted(a, call.data) <==>
              && BurstAccepted(a) && |call.data| == Beats(a)
              && forall k :: 0 <= k < |call.data| ==> Strobed(call.data[k].strb, Lane(a.addr, BytesPerBeat(a), k), BytesPerBeat(a))
  {
    RunKeeps(ws, es, n);
    var call := ws[n].w.calls[c];
    assert WholeBurst(call.data);
    WriteAcceptedIff(call.addr, call.data);
  }

  // ---------------------------------------------------------------- what overwriting the slot does

  /** A read was taken, has no beat queued and is in no slot: nothing is left that could answer it. */
  predicate Lost(w: World) {
    && w.s.rd.pending && w.s.rd.responses == [] && !w.s.rd.handshake && !w.s.rd.addrReady && !DeferredRead(w.s)
    && WriteSide(w.s, w.w)
  }

  /** A deferred write that overwrites a deferred read loses the read once the write completes. */
  lemma OverwriteLosesRead(w: World, i: WriteIn, o: Outside, data: Option<seq<Byte>>, error: bool)
    requires Inv(w) && WellFormedBeat(i.beat) && DeferredRead(w.s) && Clobbers(w.s, WriteTick(i, o))
    requires var p := Collected(w.s, i).wr; WriteAccepted(p.addr, p.data) && !Local(w.s.ext, p.addr)
    ensures WellFormed(Collected(w.s, i).wr.data)
    ensures SlotReadable(WriteTickNext(w, i, o).s)
    ensures Lost(CompleteNext(WriteTickNext(w, i, o), data, error))
  {
    CollectedWellFormed(w, i);
    WritePortKept(w.s, w.w, i);
    var t, l := Collected(w.s, i), Taken(w.s, w.w, i);
    var w' := WriteTickNext(w, i, o);
    SubmitKeeps(t.wr, l);
    WriteReadyKeeps(SubmitWrite(t.wr), w'.w, true);
    RespondKeeps(w'.s.wr, w'.w, BResp(w'.s.slot.id, if error then SLVERR else 0));
  }

  lemma LostStep(w: World, e: Event)
    requires Lost(w) && Defined(w, e)
    ensures Lost(Next(w, e)) && Next(w, e).r == w.r
  {
    match e
    case ReadTick(i) =>
    case WriteTick(i, o) => WriteSideKept(w, i, o);
    case Complete(data, error) =>
      if Completable(w.s, data, error) {
        LostCompletes(w, data, error);
      }
    case Enable(on) =>
  }

  lemma LostCompletes(w: World, data: Option<seq<Byte>>, error: bool)
    requires Lost(w) && SlotReadable(w.s) && Completable(w.s, data, error)
    ensures Lost(CompleteNext(w, data, error)) && CompleteNext(w, data, error).r == w.r
  {
    RespondKeeps(w.s.wr, w.w, BResp(w.s.slot.id, if error then SLVERR else 0));
  }

  /** In no continuation does a lost read get a beat, nor is another read taken. */
  lemma {:induction false} LostForever(ws: seq<World>, es: seq<Event>, n: nat)
    requires Run(ws, es) && Lost(ws[0]) && n < |ws|
    ensures Lost(ws[n]) && ws[n].r == ws[0].r
    decreases n
  {
    if n > 0 {
      LostForever(ws, es, n - 1);
      assert Defined(ws[n - 1], es[n - 1]);
      LostStep(ws[n - 1], es[n - 1]);
    }
  }

  /** A quiet write edge only raises the ready wires. */
  lemma QuietEdge(w: World, i: WriteIn, o: Outside)
    requires Initial(w) && !i.addrValid && !i.dataValid && WellFormedBeat(i.beat)
    ensures WellFormed(Collected(w.s, i).wr.data)
    ensures WriteTickNext(w, i, o) == w.(s := w.s.(wr := w.s.wr.(addrReady := true, dataReady := true)))
  {}

  lemma DeferringEdge(w: World, i: ReadIn)
    requires w.s.rd == ReadPort(true, None, [], false, false, false) && !w.s.dmaPending
    requires |i.value| == 4 && i.addrValid && !RegisterAccess(i.addr) && BurstAccepted(i.addr) && !w.s.ext.enabled
    ensures DeferredRead(ReadTickNext(w, i).s) && ReadTickNext(w, i).s.wr == w.s.wr && ReadTickNext(w, i).s.ext == w.s.ext
  {}

  lemma BusyEdge(s: State, i: WriteIn)
    requires s.wr == WritePort(true, true, None, [], false, false, false, false, s.wr.addr, [], false)
    requires i.addrValid && i.dataValid && i.beat.last
    ensures Writes(s, i) && Collected(s, i).wr.addr == i.addr && Collected(s, i).wr.data == [i.beat]
  {}

  /**
   The one-slot rule is an assumption about the environment: with the local memory off, four
   steps from reset (ready, a read, a write in the same clock, one completion) lose the read.
   */
  lemma LostReadReachable(w: World, quiet: WriteIn, read: ReadIn, write: WriteIn, o: Outside)
    requires Initial(w) && !w.s.ext.enabled
    requires !quiet.addrValid && !quiet.dataValid && WellFormedBeat(quiet.beat)
    requires |read.value| == 4 && read.addrValid && !RegisterAccess(read.addr) && BurstAccepted(read.addr)
    requires write.addrValid && write.dataValid && WellFormedBeat(write.beat) && write.beat.last
    requires !RegisterAccess(write.addr) && WriteAccepted(write.addr, [write.beat])
    ensures exists ws :: Run(ws, [WriteTick(quiet, o), ReadTick(read), WriteTick(write, o), Complete(None, false)]) && ws[0] == w && Lost(ws[4])
  {
    ReadTakenFirst(w, quiet, read, o);
    var w1 := WriteTickNext(w, quiet, o);
    var w2 := ReadTickNext(w1, read);
    BusyEdge(w2.s, write);
    OverwriteLosesRead(w2, write, o, None, false);
    var w3 := WriteTickNext(w2, write, o);
    var ws := [w, w1, w2, w3, CompleteNext(w3, None, false)];
    RunOfFour(ws, WriteTick(quiet, o), ReadTick(read), WriteTick(write, o), Complete(None, false));
  }

  lemma ReadTakenFirst(w: World, quiet: WriteIn, read: ReadIn, o: Outside)
    requires Initial(w) && !w.s.ext.enabled
    requires !quiet.addrValid && !quiet.dataValid && WellFormedBeat(quiet.beat)
    requires |read.value| == 4 && read.addrValid && !RegisterAccess(read.addr) && BurstAccepted(read.addr)
    ensures WellFormed(Collected(w.s, quiet).wr.data)
    ensures var w2 := ReadTickNext(WriteTickNext(w, quiet, o), read);
            && Inv(w2) && DeferredRead(w2.s) && !w2.s.ext.enabled
            && w2.s.wr == WritePort(true, true, None, [], false, false, false, false, w.s.wr.addr, [], false)
  {
    QuietEdge(w, quiet, o);
    StepKeeps(w, WriteTick(quiet, o));
    var w1 := WriteTickNext(w, quiet, o);
    DeferringEdge(w1, read);
    StepKeeps(w1, ReadTick(read));
  }

  lemma RunOfFour(ws: seq<World>, e0: Event, e1: Event, e2: Event, e3: Event)
    requires |ws| == 5 && Defined(ws[0], e0) && Defined(ws[1], e1) && Defined(ws[2], e2) && Defined(ws[3], e3)
    requires ws[1] == Next(ws[0], e0) && ws[2] == Next(ws[1], e1) && ws[3] == Next(ws[2], e2) && ws[4] == Next(ws[3], e3)
    ensures Run(ws, [e0, e1, e2, e3])
  {}

  // ---------------------------------------------------------------- local and deferred reads agree

  /** Over the same bytes, a local read and a completed deferred read queue the same beats. */
  lemma LocalAgreesWithDeferred(s: State, a: AxiAddr, value: seq<Byte>)
    requires |value| == 4 && !RegisterAccess(a) && BurstAccepted(a) && Local(s.ext, a)
    ensures var t := ReadCallback(s.(ext := s.ext.(enabled := false)), a, value);
            var offset := a.addr - EXTMEM_BASE;
            && SlotReadable(t)
            && Completed(t, Some(s.ext.mem[offset..offset + BurstBytes(a)]), false).rd == ReadCallback(s, a, value).rd
  {
    LanesFitIff(a);
  }
}
