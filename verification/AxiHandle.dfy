/**
 The bridge handle as the program keeps it: the driver fields, the DMA slot and the local
 memory, updated step by step.  Every operation is tied to its function on bridge states.
 */
module AxiHandle {
  import opened Bits
  import opened DmaBuilder
  import opened AxiPorts
  import opened AxiBridge
  import opened Wrappers

  const EXTMEM_SIZE: nat := 8 * 1024 * 1024

  /** What every edge needs and keeps, whatever the environment does. */
  predicate PortsOk(s: State) {
    (s.rd.handshake ==> s.rd.responses != []) && (s.wr.handshake ==> s.wr.responses != []) && WellFormed(s.wr.data)
  }

  lemma CollectedOk(s: State, i: WriteIn)
    requires PortsOk(s) && WellFormedBeat(i.beat)
    ensures PortsOk(Collected(s, i))
  {}

  lemma ReadCallbackOk(s: State, a: AxiAddr, value: seq<Byte>)
    requires |value| == 4 && PortsOk(s)
    ensures PortsOk(ReadCallback(s, a, value))
  {}

  lemma WriteCallbackOk(s: State, a: AxiAddr, data: seq<WBeat>, o: Outside)
    requires WellFormed(data) && PortsOk(s)
    ensures PortsOk(WriteCallback(s, a, data, o))
  {}

  lemma ReadEdgeOk(s: State, i: ReadIn)
    requires PortsOk(s) && |i.value| == 4
    ensures PortsOk(ReadEdge(s, i))
  {
    var t := Driven(s, i);
    assert PortsOk(t);
    ReadCallbackOk(t.(rd := AcceptRead(t.rd)), i.addr, i.value);
  }

  lemma WriteEdgeOk(s: State, i: WriteIn, o: Outside)
    requires PortsOk(s) && WellFormedBeat(i.beat)
    ensures WellFormed(Collected(s, i).wr.data) && PortsOk(WriteEdge(s, i, o))
  {
    CollectedOk(s, i);
    var t := Collected(s, i);
    WriteCallbackOk(t.(wr := SubmitWrite(t.wr)), t.wr.addr, t.wr.data, o);
  }

  /** One clock of the core: both ports see a falling edge, in the clock's observer order. */
  datatype Tick = Tick(readFirst: bool, r: ReadIn, w: WriteIn, o: Outside, faultBefore: bool, haltedBefore: bool, faultAfter: bool, haltedAfter: bool)

  predicate ValidTick(t: Tick) { |t.r.value| == 4 && WellFormedBeat(t.w.beat) }

  /** `t` takes the bridge from `s` to `s'`. */
  predicate Clocked(s: State, t: Tick, s': State) {
    && ValidTick(t) && PortsOk(s)
    && if t.readFirst then
         var u := ReadEdge(s, t.r); PortsOk(u) && (CollectedOk(u, t.w); s' == WriteEdge(u, t.w, t.o))
       else
         CollectedOk(s, t.w); s' == ReadEdge(WriteEdge(s, t.w, t.o), t.r)
  }

  /** Neither line is up before the clock. */
  predicate RunsInto(t: Tick) { !t.faultBefore && !t.haltedBefore }

  /** Neither line is up after the clock. */
  predicate RunsOn(t: Tick) { !t.faultAfter && !t.haltedAfter }

  /** After `n` clocks the loop ends: it ran out, or a line is up after the last clock or before the next. */
  predicate Stops(ticks: seq<Tick>, n: nat)
    requires n <= |ticks|
  {
    n == |ticks| || (n > 0 && !RunsOn(ticks[n - 1])) || !RunsInto(ticks[n])
  }

  /** The code returned after `n` clocks when no request is pending: what stopped the loop, or how it ran out. */
  function StopCode(ticks: seq<Tick>, n: nat, wfi: bool): int
    requires n <= |ticks|
  {
    if n > 0 && !RunsOn(ticks[n - 1]) then (if ticks[n - 1].faultAfter then 4 else 1)
    else if n == |ticks| then (if wfi then 3 else 0)
    else if ticks[n].faultBefore then 4
    else 1
  }

  /** The states between the clocks of one call, none but the last with a request pending. */
  predicate Trace(states: seq<State>, ticks: seq<Tick>) {
    && |states| == |ticks| + 1
    && (forall k :: 0 <= k < |ticks| ==> Clocked(states[k], ticks[k], states[k + 1]))
    && (forall k :: 0 <= k < |ticks| ==> !states[k].dmaPending)
  }

  lemma TraceGrows(states: seq<State>, ticks: seq<Tick>, t: Tick, s: State)
    requires Trace(states, ticks) && Clocked(states[|ticks|], t, s) && !states[|ticks|].dmaPending
    ensures Trace(states + [s], ticks + [t])
  {
    forall k | 0 <= k < |ticks| + 1 ensures Clocked((states + [s])[k], (ticks + [t])[k], (states + [s])[k + 1]) {
      if k < |ticks| { assert Clocked(states[k], ticks[k], states[k + 1]); }
    }
  }

  class Handle {
    var rd: ReadPort
    var wr: WritePort
    var enabled: bool
    var mem: seq<Byte>
    var slot: DmaRequest
    var dmaPending: bool
    var beatSize: nat
    var beatCount: nat
    var cycles: nat

    ghost function S(): State
      reads this
    {
      State(rd, wr, Extmem(enabled, mem), slot, dmaPending, beatSize, beatCount)
    }

    constructor (idle: AxiAddr)
      ensures Initial(World(S(), ReadLog([], [], [], []), WriteLog([], [], [], []))) && PortsOk(S())
      ensures !enabled && mem == Zeros(EXTMEM_SIZE) && slot == NO_REQUEST && cycles == 0
    {
      rd := ReadPort(true, None, [], false, false, false);
      wr := WritePort(false, false, None, [], false, false, false, false, idle, [], false);
      enabled, mem := false, Zeros(EXTMEM_SIZE);
      slot, dmaPending, beatSize, beatCount, cycles := NO_REQUEST, false, 0, 0, 0;
    }

    /** The deferred read callback. */
    method OnRead(a: AxiAddr, value: seq<Byte>)
      requires |value| == 4
      modifies this
      ensures S() == ReadCallback(old(S()), a, value) && cycles == old(cycles)
    {
      if HybridAccess(a) || CustomRegion(a) {
        rd := rd.(responses := rd.responses + [RegisterBeat(a, value)]);
        return;
      }
      var built := BuildReadRequest(a);
      if built.None? {
        rd := rd.(responses := rd.responses + [ErrorBeat(a.id)]);
        return;
      }
      slot, beatSize, beatCount := built.value.0, built.value.1, built.value.2;
      if enabled && slot.addr >= EXTMEM_BASE && slot.addr - EXTMEM_BASE + slot.size <= |mem| {
        var offset := slot.addr - EXTMEM_BASE;
        LanesFitIff(a);
        var beats := SplitIntoBeats(slot.addr, slot.id, beatSize, beatCount, mem[offset..offset + slot.size]);
        rd := rd.(responses := rd.responses + beats);
        slot := NO_REQUEST;
        return;
      }
      dmaPending := true;
    }

    /** The deferred write callback; the outcome of an operator command comes from outside. */
    method OnWrite(a: AxiAddr, data: seq<WBeat>, taken: bool, operatorMem: seq<Byte>) returns (ghost o: Outside)
      requires WellFormed(data)
      modifies this
      ensures o.taken == taken && o.mem == operatorMem
      ensures S() == WriteCallback(old(S()), a, data, o) && cycles == old(cycles)
    {
      o := Outside(taken, operatorMem, []);
      if HybridAccess(a) {
        var ok := WordWritten(a, data) && taken;
        if ok && |operatorMem| == |mem| { mem := operatorMem; }
        wr := wr.(responses := wr.responses + [BResp(a.id, if ok then 0 else SLVERR)]);
        return;
      }
      if CustomRegion(a) {
        var ok := WordAccess(a) && WordWritten(a, data);
        wr := wr.(responses := wr.responses + [BResp(a.id, if ok then 0 else SLVERR)]);
        return;
      }
      var ok;
      ok, slot := BuildWriteRequest(a, data, slot);
      o := Outside(taken, operatorMem, slot.data);
      if !ok {
        wr := wr.(responses := wr.responses + [BResp(a.id, SLVERR)]);
        return;
      }
      if enabled && slot.addr >= EXTMEM_BASE && slot.addr - EXTMEM_BASE + slot.size <= |mem| {
        var offset := slot.addr - EXTMEM_BASE;
        WriteAcceptedIff(a, data);
        LanesFitIff(a);
        assert slot.data[..slot.size] == Payload(a.addr, BytesPerBeat(a), data, Beats(a));
        mem := mem[..offset] + slot.data[..slot.size] + mem[offset + slot.size..];
        wr := wr.(responses := wr.responses + [BResp(slot.id, 0)]);
        slot := NO_REQUEST;
        return;
      }
      dmaPending := true;
    }

    /** The read driver's edge up to the address handshake. */
    method DriveRead(i: ReadIn)
      requires PortsOk(S())
      modifies this`rd
      ensures S() == Driven(old(S()), i)
    {
      var p := rd;
      var responseHandshake := p.handshake;
      p := p.(handshake := false);
      if responseHandshake {
        var last := p.responses[0].last;
        p := p.(responses := p.responses[1..]);
        if last { p := p.(pending := false); }
      }
      if !i.addrValid { p := p.(seen := false); }
      p := p.(addrReady := !p.pending);
      p := p.(wire := if p.responses == [] then None else Some(p.responses[0]));
      p := p.(handshake := p.wire.Some? && i.dataReady);
      rd := p;
    }

    /** A falling edge of the read driver. */
    method ReadFalls(i: ReadIn)
      requires |i.value| == 4 && PortsOk(S())
      modifies this
      ensures S() == ReadEdge(old(S()), i) && cycles == old(cycles)
    {
      var addrHandshake := i.addrValid && rd.addrReady;
      DriveRead(i);
      if addrHandshake && !rd.seen && !rd.pending {
        rd := rd.(seen := true, pending := true, addrReady := false);
        OnRead(i.addr, i.value);
      }
    }

    /** The write driver's response channel. */
    method DriveAck(respReady: bool)
      requires PortsOk(S())
      modifies this`wr
      ensures wr == DriveResponse(PopResponse(old(wr)), respReady)
    {
      var p := wr;
      var responseHandshake := p.handshake;
      p := p.(handshake := false);
      if responseHandshake {
        p := p.(responses := p.responses[1..], pending := false, captured := false, complete := false,
                submitted := false, data := []);
      }
      p := p.(wire := if p.responses == [] then None else Some(p.responses[0]));
      p := p.(handshake := p.wire.Some? && respReady);
      wr := p;
    }

    /** The write driver's edge up to the submission. */
    method DriveWrite(i: WriteIn)
      requires PortsOk(S())
      modifies this`wr
      ensures S() == Collected(old(S()), i)
    {
      var addrHandshake, dataHandshake := i.addrValid && wr.addrReady, i.dataValid && wr.dataReady;
      DriveAck(i.respReady);
      var p := wr;
      if addrHandshake && !p.captured { p := p.(captured := true, addr := i.addr); }
      if dataHandshake && !p.complete { p := p.(data := p.data + [i.beat], complete := i.beat.last); }
      wr := p;
    }

    /** Hand a captured address with its whole burst to the callback, once. */
    method SubmitWhole(o: Outside) returns (ghost seen: Outside)
      requires WellFormed(wr.data)
      modifies this
      ensures seen.taken == o.taken && seen.mem == o.mem && cycles == old(cycles)
      ensures S() == if Submits(old(wr)) then WriteCallback(old(S()).(wr := SubmitWrite(old(wr))), old(wr).addr, old(wr).data, seen)
                     else old(S())
    {
      seen := o;
      if wr.captured && wr.complete && !wr.submitted {
        wr := wr.(submitted := true, pending := true);
        seen := OnWrite(wr.addr, wr.data, o.taken, o.mem);
      }
    }

    /** A falling edge of the write driver; the result records what a refused write left in the slot. */
    method WriteFalls(i: WriteIn, o: Outside) returns (ghost seen: Outside)
      requires WellFormedBeat(i.beat) && PortsOk(S())
      modifies this
      ensures seen.taken == o.taken && seen.mem == o.mem && WellFormed(Collected(old(S()), i).wr.data)
      ensures S() == WriteEdge(old(S()), i, seen) && cycles == old(cycles)
    {
      CollectedOk(S(), i);
      DriveWrite(i);
      seen := SubmitWhole(o);
      wr := wr.(addrReady := !wr.pending && !wr.captured,
                dataReady := !wr.pending && !wr.complete && |wr.data| < MAX_BEATS);
    }

    /** The host's answer to the pending request. */
    method DmaComplete(data: Option<seq<Byte>>, error: bool) returns (code: int)
      requires SlotReadable(S())
      modifies this
      ensures S() == Completed(old(S()), data, error) && cycles == old(cycles)
      ensures code == if Completable(old(S()), data, error) then 0 else -1
    {
      if !dmaPending { return -1; }
      if !slot.write {
        if !error && (data.None? || |data.value| != slot.size) { return -1; }
        if !error {
          var beats := SplitIntoBeats(slot.addr, slot.id, beatSize, beatCount, data.value);
          rd := rd.(responses := rd.responses + beats);
        } else {
          rd := rd.(responses := rd.responses + [ErrorBeat(slot.id)]);
        }
      } else {
        wr := wr.(responses := wr.responses + [BResp(slot.id, if error then SLVERR else 0)]);
      }
      dmaPending := false;
      slot := NO_REQUEST;
      code := 0;
    }

    method ExtmemEnable(enable: bool) returns (code: int)
      modifies this`enabled, this`mem
      ensures S() == Enabled(old(S()), enable) && code == if dmaPending then -1 else 0
    {
      if dmaPending { return -1; }
      enabled := enable;
      if enabled { mem := Zeros(|mem|); }
      code := 0;
    }

    /** One clock, as the core's wires stand in `t`. */
    method Clock(t: Tick) returns (ghost seen: Tick)
      requires ValidTick(t) && PortsOk(S())
      modifies this
      ensures seen == t.(o := seen.o)
      ensures PortsOk(S()) && Clocked(old(S()), seen, S()) && cycles == old(cycles)
    {
      ghost var s, o := S(), t.o;
      if t.readFirst {
        ReadEdgeOk(s, t.r);
        ReadFalls(t.r);
        s := S();
        o := WriteFalls(t.w, t.o);
        WriteEdgeOk(s, t.w, o);
      } else {
        o := WriteFalls(t.w, t.o);
        WriteEdgeOk(s, t.w, o);
        ReadEdgeOk(S(), t.r);
        ReadFalls(t.r);
      }
      seen := t.(o := o);
    }

    /** One turn of the step loop: the lines before the clock, the clock, then the slot and the lines after it. */
    method Turn(t: Tick, ghost states: seq<State>, ghost seen: seq<Tick>)
      returns (stop: Option<int>, ghost states': seq<State>, ghost seen': seq<Tick>)
      requires ValidTick(t) && PortsOk(S()) && !dmaPending && Trace(states, seen) && states[|seen|] == S()
      modifies this
      ensures PortsOk(S()) && Trace(states', seen') && states'[0] == states[0] && states'[|seen'|] == S()
      ensures !RunsInto(t) ==> stop == Some(if t.faultBefore then 4 else 1) && seen' == seen && cycles == old(cycles) && !dmaPending
      ensures RunsInto(t) ==> |seen'| == |seen| + 1 && cycles == old(cycles) + 1
      ensures RunsInto(t) ==> stop == if dmaPending then Some(2) else if t.faultAfter then Some(4) else if t.haltedAfter then Some(1) else None
    {
      states', seen' := states, seen;
      if t.faultBefore { return Some(4), states', seen'; }
      if t.haltedBefore { return Some(1), states', seen'; }
      cycles := cycles + 1;
      ghost var tick := Clock(t);
      TraceGrows(states, seen, tick, S());
      seen', states' := seen + [tick], states + [S()];
      stop := if dmaPending then Some(2) else if t.faultAfter then Some(4) else if t.haltedAfter then Some(1) else None;
    }

    /**
     Clock the core up to `limit` times: 2 exactly when a request is pending, and then no
     further clock was given; 4 and 1 for the first fault or halt line found up, fault first;
     0 or 3 when every clock ran and no line was up.
     */
    method Step(limit: nat, ticks: seq<Tick>, wfi: bool) returns (code: int, ghost states: seq<State>, ghost seen: seq<Tick>)
      requires |ticks| == limit && PortsOk(S()) && forall k :: 0 <= k < |ticks| ==> ValidTick(ticks[k])
      modifies this
      ensures Trace(states, seen) && states[0] == old(S()) && states[|seen|] == S()
      ensures cycles == old(cycles) + |seen| && |seen| <= limit
      ensures limit == 0 ==> code == -1
      ensures limit > 0 ==> (code == 2 <==> dmaPending)
      ensures limit > 0 && old(dmaPending) ==> seen == []
      ensures code == 2 || limit == 0 || (Stops(ticks, |seen|) && code == StopCode(ticks, |seen|, wfi))
      ensures limit > 0 && !old(dmaPending) ==> forall k :: 0 <= k < |seen| ==> RunsInto(ticks[k])
      ensures forall k :: 0 <= k < |seen| - 1 ==> RunsOn(ticks[k])
    {
      seen, states := [], [S()];
      if limit == 0 { return -1, states, seen; }
      if dmaPending { return 2, states, seen; }
      for k := 0 to limit
        invariant |seen| == k && Trace(states, seen) && states[0] == old(S()) && states[k] == S()
        invariant PortsOk(S()) && cycles == old(cycles) + k && !dmaPending
        invariant forall j :: 0 <= j < k ==> RunsInto(ticks[j]) && RunsOn(ticks[j])
      {
        var stop;
        stop, states, seen := Turn(ticks[k], states, seen);
        if stop.Some? { return stop.value, states, seen; }
      }
      code := if wfi then 3 else 0;
    }
  }
}
