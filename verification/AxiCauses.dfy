/**
 Why the core gets each answer, over whole runs: every read reply and every write response
 is the one its cause calls for, whether the bridge answered at once or the host completed
 the request, and what the host is asked to move is what the core asked for.
 */
module AxiCauses {
  import opened Bits
  import opened DmaBuilder
  import opened AxiPorts
  import opened AxiBridge
  import opened AxiMeaning
  import opened Wrappers

  /** The bridge answered on an edge, with this memory and this register value, or the host completed the request. */
  datatype Cause = AtOnce(ext: Extmem, value: seq<Byte>, o: Outside) | Host(data: Option<seq<Byte>>, error: bool)

  const NOTHING: Outside := Outside(false, [], [])

  function CauseOf(w: World, e: Event): Cause {
    match e
    case ReadTick(i) => AtOnce(w.s.ext, i.value, NOTHING)
    case WriteTick(_, o) => AtOnce(w.s.ext, [], o)
    case Complete(data, error) => Host(data, error)
    case Enable(_) => Host(None, false)
  }

  // ---------------------------------------------------------------- reads

  /** The reply the cause calls for. */
  predicate Justified(a: AxiAddr, beats: seq<RBeat>, c: Cause) {
    match c
    case AtOnce(ext, value, _) => !Deferred(ext, a) && AnswerAtOnce(ext, a, value, beats)
    case Host(data, error) =>
      && !Command(a) && !Accelerator(a) && Transferable(a)
      && if error then Refuses(a, beats) else data.Some? && |data.value| == Total(a) && Delivers(a, beats, data.value)
  }

  /** The causes of the replies so far: one whenever a step adds a reply. */
  function ReadCauses(ws: seq<World>, es: seq<Event>, n: nat): seq<Cause>
    requires |ws| == |es| + 1 && n < |ws|
  {
    if n == 0 then []
    else if |ws[n].r.replies| > |ws[n - 1].r.replies| then ReadCauses(ws, es, n - 1) + [CauseOf(ws[n - 1], es[n - 1])]
    else ReadCauses(ws, es, n - 1)
  }

  predicate AllJustified(l: ReadLog, causes: seq<Cause>) {
    |causes| == |l.replies| <= |l.accepted| && forall i :: 0 <= i < |l.replies| ==> Justified(l.accepted[i], l.replies[i], causes[i])
  }

  /** A step adds no reply, or the next one and for the step's cause; addresses are only added. */
  predicate ReadAdvances(l: ReadLog, l': ReadLog, c: Cause) {
    && |l.accepted| <= |l'.accepted| && l'.accepted[..|l.accepted|] == l.accepted
    && (l'.replies == l.replies
        || (|l'.replies| == |l.replies| + 1 <= |l'.accepted| && l'.replies[..|l.replies|] == l.replies
            && Justified(l'.accepted[|l.replies|], l'.replies[|l.replies|], c)))
  }

  lemma ReadTickAdvances(w: World, i: ReadIn)
    requires Inv(w) && |i.value| == 4
    ensures ReadAdvances(w.r, ReadTickNext(w, i).r, CauseOf(w, ReadTick(i)))
  {
    ReadPortKept(w.s, w.r, i);
    if Reads(w.s, i) { ReadReplyIs(w.s.ext, i.addr, i.value); }
  }

  lemma CompletionJustified(w: World, data: Option<seq<Byte>>, error: bool)
    requires Inv(w) && SlotReadable(w.s) && DeferredRead(w.s) && Completable(w.s, data, error)
    ensures Justified(w.r.accepted[|w.r.accepted| - 1], CompletionBeats(w.s, data, error), Host(data, error))
  {
    var a := w.r.accepted[|w.r.accepted| - 1];
    TransferableIff(a);
    TotalIs(a);
    if !error { ReadBeatsDeliver(a, data.value); }
  }

  lemma CompleteAdvances(w: World, data: Option<seq<Byte>>, error: bool)
    requires Inv(w)
    ensures SlotReadable(w.s) && ReadAdvances(w.r, CompleteNext(w, data, error).r, Host(data, error))
  {
    SlotReadableFromInv(w);
    if Completable(w.s, data, error) && !w.s.slot.write { CompletionJustified(w, data, error); }
  }

  lemma StepAdvances(w: World, e: Event)
    requires Inv(w) && ValidEvent(e)
    ensures Defined(w, e) && ReadAdvances(w.r, Next(w, e).r, CauseOf(w, e))
  {
    InvDefined(w, e);
    match e
    case ReadTick(i) => ReadTickAdvances(w, i);
    case WriteTick(_, _) =>
    case Complete(data, error) => CompleteAdvances(w, data, error);
    case Enable(_) =>
  }

  lemma JustifiedGrows(l: ReadLog, l': ReadLog, causes: seq<Cause>, c: Cause)
    requires AllJustified(l, causes) && ReadAdvances(l, l', c)
    ensures AllJustified(l', if |l'.replies| > |l.replies| then causes + [c] else causes)
  {
    var causes' := if |l'.replies| > |l.replies| then causes + [c] else causes;
    forall i | 0 <= i < |l'.replies| ensures Justified(l'.accepted[i], l'.replies[i], causes'[i]) {
      if i < |l.replies| {
        assert Justified(l.accepted[i], l.replies[i], causes[i]);
        assert l'.accepted[i] == l'.accepted[..|l.accepted|][i] && l'.replies[i] == l'.replies[..|l.replies|][i];
      }
    }
  }

  lemma {:induction false} RunJustified(ws: seq<World>, es: seq<Event>, n: nat)
    requires Run(ws, es) && Initial(ws[0]) && OneSlot(ws, es) && n < |ws|
    ensures AllJustified(ws[n].r, ReadCauses(ws, es, n))
    decreases n
  {
    if n > 0 {
      RunJustified(ws, es, n - 1);
      RunKeeps(ws, es, n - 1);
      assert Defined(ws[n - 1], es[n - 1]);
      StepAdvances(ws[n - 1], es[n - 1]);
      JustifiedGrows(ws[n - 1].r, ws[n].r, ReadCauses(ws, es, n - 1), CauseOf(ws[n - 1], es[n - 1]));
    }
  }

  /**
   Every run that keeps the one-slot rule: the reply to the `i`-th read taken is the one its
   cause calls for.  A read the host completed has response 2 exactly when the host reported an
   error, in a single beat, and otherwise one beat per transfer with the host's bytes; a read
   answered at once is a register's word, a refusal, or the bytes of the local memory.
   */
  lemma ReadRepliesJustified(ws: seq<World>, es: seq<Event>, n: nat, i: nat)
    requires Run(ws, es) && Initial(ws[0]) && OneSlot(ws, es) && n < |ws| && i < |ws[n].r.replies|
    ensures i < |ws[n].r.accepted| && |ReadCauses(ws, es, n)| == |ws[n].r.replies|
    ensures Justified(ws[n].r.accepted[i], ws[n].r.replies[i], ReadCauses(ws, es, n)[i])
  {
    RunJustified(ws, es, n);
  }

  // ---------------------------------------------------------------- writes

  /** The responses given so far, delivered or still queued. */
  function Issued(w: World): seq<BResp> { w.w.acks + w.s.wr.responses }

  /** The response the cause calls for. */
  predicate WriteJustified(c: Call, r: BResp, cause: Cause) {
    var a := c.addr;
    && r.id == a.id
    && match cause
       case AtOnce(ext, _, o) =>
         if Command(a) then r.resp == if WordStrobed(a, c.data) && o.taken then 0 else 2
         else if Accelerator(a) then r.resp == if AlignedWord(a) && WordStrobed(a, c.data) then 0 else 2
         else if !Writable(a, c.data) then r.resp == 2
         else InLocal(ext, a) && r.resp == 0
       case Host(_, error) => !Command(a) && !Accelerator(a) && Writable(a, c.data) && r.resp == if error then 2 else 0
  }

  function WriteCauses(ws: seq<World>, es: seq<Event>, n: nat): seq<Cause>
    requires |ws| == |es| + 1 && n < |ws|
  {
    if n == 0 then []
    else if |Issued(ws[n])| > |Issued(ws[n - 1])| then WriteCauses(ws, es, n - 1) + [CauseOf(ws[n - 1], es[n - 1])]
    else WriteCauses(ws, es, n - 1)
  }

  predicate AllWritesJustified(calls: seq<Call>, issued: seq<BResp>, causes: seq<Cause>) {
    |causes| == |issued| <= |calls| && forall i :: 0 <= i < |issued| ==> WriteJustified(calls[i], issued[i], causes[i])
  }

  /** A step adds no response, or the next one and for the step's cause; calls are only added. */
  predicate WriteAdvances(w: World, w': World, c: Cause) {
    var n, calls, issued := |Issued(w)|, w'.w.calls, Issued(w');
    && |w.w.calls| <= |calls| && calls[..|w.w.calls|] == w.w.calls
    && (issued == Issued(w) || (|issued| == n + 1 <= |calls| && issued[..n] == Issued(w) && WriteJustified(calls[n], issued[n], c)))
  }

  lemma WriteReplyIs(m: Extmem, a: AxiAddr, data: seq<WBeat>, o: Outside)
    requires WellFormed(data)
    ensures WriteReply(m, a, data, o).Some? ==> WriteJustified(Call(a, data), WriteReply(m, a, data, o).value, AtOnce(m, [], o))
    ensures WriteReply(m, a, data, o).None? <==> !Command(a) && !Accelerator(a) && Writable(a, data) && !InLocal(m, a)
  {
    WritableIff(a, data);
    if a.size <= 4 { LocalIs(m, a); }
  }

  /** Popping and collecting keep what was issued. */
  lemma CollectedIssued(s: State, l: WriteLog, i: WriteIn)
    requires WriteInv(s.wr, l, DeferredWrite(s))
    ensures Taken(s, l, i).acks + Collected(s, i).wr.responses == l.acks + s.wr.responses && Taken(s, l, i).calls == l.calls
    ensures Collected(s, i).ext == s.ext
  {
    if s.wr.handshake { assert s.wr.responses == [s.wr.responses[0]] + s.wr.responses[1..]; }
  }

  lemma WriteTickAdvances(w: World, i: WriteIn, o: Outside)
    requires Inv(w) && WellFormedBeat(i.beat)
    ensures WellFormed(Collected(w.s, i).wr.data) && WriteAdvances(w, WriteTickNext(w, i, o), CauseOf(w, WriteTick(i, o)))
  {
    WritePortKept(w.s, w.w, i);
    CollectedWellFormed(w, i);
    CollectedIssued(w.s, w.w, i);
    if Writes(w.s, i) { AnsweredAdvances(w, i, o); }
  }

  lemma AnsweredAdvances(w: World, i: WriteIn, o: Outside)
    requires Inv(w) && WellFormed(Collected(w.s, i).wr.data) && Writes(w.s, i)
    requires WriteInv(Collected(w.s, i).wr, Taken(w.s, w.w, i), DeferredWrite(w.s))
    requires Taken(w.s, w.w, i).acks + Collected(w.s, i).wr.responses == Issued(w) && Taken(w.s, w.w, i).calls == w.w.calls
    ensures WriteAdvances(w, WriteTickNext(w, i, o), CauseOf(w, WriteTick(i, o)))
  {
    var p := Collected(w.s, i).wr;
    WriteReplyIs(w.s.ext, p.addr, p.data, o);
    var reply := WriteReply(w.s.ext, p.addr, p.data, o);
    var w' := WriteTickNext(w, i, o);
    assert w'.w.calls == w.w.calls + [Call(p.addr, p.data)];
    assert Issued(w') == if reply.Some? then Issued(w) + [reply.value] else Issued(w);
  }

  lemma CompleteWriteAdvances(w: World, data: Option<seq<Byte>>, error: bool)
    requires Inv(w)
    ensures SlotReadable(w.s) && WriteAdvances(w, CompleteNext(w, data, error), Host(data, error))
  {
    SlotReadableFromInv(w);
    if Completable(w.s, data, error) && w.s.slot.write {
      var c := w.w.calls[|w.w.calls| - 1];
      WritableIff(c.addr, c.data);
      assert Issued(CompleteNext(w, data, error)) == Issued(w) + [BResp(c.addr.id, if error then 2 else 0)];
    }
  }

  lemma StepWriteAdvances(w: World, e: Event)
    requires Inv(w) && ValidEvent(e)
    ensures Defined(w, e) && WriteAdvances(w, Next(w, e), CauseOf(w, e))
  {
    InvDefined(w, e);
    match e
    case ReadTick(i) => ReadKeepsWrites(w, i);
    case WriteTick(i, o) => WriteTickAdvances(w, i, o);
    case Complete(data, error) => CompleteWriteAdvances(w, data, error);
    case Enable(_) =>
  }

  lemma ReadKeepsWrites(w: World, i: ReadIn)
    requires |i.value| == 4
    ensures ReadTickNext(w, i).s.wr == w.s.wr && ReadTickNext(w, i).w == w.w
  {}

  lemma WritesGrow(w: World, w': World, causes: seq<Cause>, c: Cause)
    requires AllWritesJustified(w.w.calls, Issued(w), causes) && WriteAdvances(w, w', c)
    ensures AllWritesJustified(w'.w.calls, Issued(w'), if |Issued(w')| > |Issued(w)| then causes + [c] else causes)
  {
    var n, calls, issued := |Issued(w)|, w'.w.calls, Issued(w');
    var causes' := if |issued| > n then causes + [c] else causes;
    forall i | 0 <= i < |issued| ensures WriteJustified(calls[i], issued[i], causes'[i]) {
      if i < n {
        assert WriteJustified(w.w.calls[i], Issued(w)[i], causes[i]);
        assert calls[i] == calls[..|w.w.calls|][i] && issued[i] == issued[..n][i];
      }
    }
  }

  lemma {:induction false} RunWritesJustified(ws: seq<World>, es: seq<Event>, n: nat)
    requires Run(ws, es) && Initial(ws[0]) && OneSlot(ws, es) && n < |ws|
    ensures AllWritesJustified(ws[n].w.calls, Issued(ws[n]), WriteCauses(ws, es, n))
    decreases n
  {
    if n > 0 {
      RunWritesJustified(ws, es, n - 1);
      RunKeeps(ws, es, n - 1);
      assert Defined(ws[n - 1], es[n - 1]);
      StepWriteAdvances(ws[n - 1], es[n - 1]);
      WritesGrow(ws[n - 1], ws[n], WriteCauses(ws, es, n - 1), CauseOf(ws[n - 1], es[n - 1]));
    }
  }

  /**
   Every such run: the response to the `i`-th call is the one its cause calls for.  A write the
   host completed gets 2 exactly when the host reported an error; refused bursts, masked words
   and commands not taken get 2; the local memory and the registers answer 0.
   */
  lemma WriteResponsesJustified(ws: seq<World>, es: seq<Event>, n: nat, i: nat)
    requires Run(ws, es) && Initial(ws[0]) && OneSlot(ws, es) && n < |ws| && i < |Issued(ws[n])|
    ensures i < |ws[n].w.calls| && |WriteCauses(ws, es, n)| == |Issued(ws[n])|
    ensures WriteJustified(ws[n].w.calls[i], Issued(ws[n])[i], WriteCauses(ws, es, n)[i])
  {
    RunWritesJustified(ws, es, n);
  }

  // ---------------------------------------------------------------- the host's side

  /** What the host is asked to move is the last read taken, or the last call with its bytes in order. */
  lemma HostSees(w: World)
    requires Inv(w) && w.s.dmaPending
    ensures !w.s.slot.write ==>
              && w.r.accepted != []
              && var a, r := w.r.accepted[|w.r.accepted| - 1], w.s.slot; r.addr == a.addr && r.id == a.id && r.size == Total(a)
    ensures w.s.slot.write ==>
              && w.w.calls != []
              && var c, r := w.w.calls[|w.w.calls| - 1], w.s.slot;
                 && r.addr == c.addr.addr && r.id == c.addr.id && r.size == Total(c.addr) <= |r.data| == 4096
                 && Holds(c.addr, c.data, r.data, 0) && forall j :: r.size <= j < 4096 ==> r.data[j] == 0
  {
    if w.s.slot.write {
      var c := w.w.calls[|w.w.calls| - 1];
      RequestHolds(c.addr, c.data);
    } else {
      TotalIs(w.r.accepted[|w.r.accepted| - 1]);
    }
  }

  lemma RequestHolds(a: AxiAddr, data: seq<WBeat>)
    requires WriteAccepted(a, data) && WellFormed(data)
    ensures var r := WriteRequest(a, data);
            && r.size == Total(a) <= |r.data| == 4096 && Holds(a, data, r.data, 0)
            && forall j :: r.size <= j < 4096 ==> r.data[j] == 0
  {
    PayloadHolds(a, data);
    var bytes, rest := Payload(a.addr, BytesPerBeat(a), data, Beats(a)), Zeros(DMA_BYTES - BurstBytes(a));
    HoldsWithin(a, data, bytes, [], rest);
    assert [] + bytes + rest == bytes + rest;
  }

  /** A completion that is taken frees the slot and answers the request; any other changes nothing. */
  lemma CompletionTakes(w: World, data: Option<seq<Byte>>, error: bool)
    requires Inv(w)
    ensures SlotReadable(w.s)
    ensures var w' := CompleteNext(w, data, error);
            if w.s.dmaPending && (w.s.slot.write || error || (data.Some? && |data.value| == w.s.slot.size)) then
              && !w'.s.dmaPending
              && |w'.r.replies| == |w.r.replies| + BoolBit(!w.s.slot.write) && |Issued(w')| == |Issued(w)| + BoolBit(w.s.slot.write)
            else w' == w
  {
    SlotReadableFromInv(w);
  }

  // ---------------------------------------------------------------- local memory along a run

  /** From `m` to `m'`, by the call `c`: its bytes when the memory takes it, an operator's memory when a command is taken. */
  predicate CallLeaves(m: Extmem, m': Extmem, c: Call, o: Outside) {
    var a := c.addr;
    if WritesLocal(m, a, c.data) then
      && |m'.mem| == |m.mem| && m'.enabled && Holds(a, c.data, m'.mem, a.addr - 0x2000_0000)
      && forall j :: 0 <= j < |m.mem| && !(a.addr - 0x2000_0000 <= j < a.addr - 0x2000_0000 + Total(a)) ==> m'.mem[j] == m.mem[j]
    else m' == if Command(a) && WordStrobed(a, c.data) && o.taken && |o.mem| == |m.mem| then m.(mem := o.mem) else m
  }

  lemma CallbackLeaves(s: State, a: AxiAddr, data: seq<WBeat>, o: Outside)
    requires WellFormed(data)
    ensures CallLeaves(s.ext, WriteCallback(s, a, data, o).ext, Call(a, data), o)
  {
    if WritesLocal(s.ext, a, data) { LocalWrite(s, a, data, o); } else { OtherWrite(s, a, data, o); }
  }

  /** Along any run the memory changes by the calls the core makes and by enabling, which clears it, and by nothing else. */
  lemma StepMemory(w: World, e: Event)
    requires Defined(w, e)
    ensures var w' := Next(w, e);
            match e
            case ReadTick(_) => w'.s.ext == w.s.ext
            case Complete(_, _) => w'.s.ext == w.s.ext
            case WriteTick(_, o) =>
              if w'.w.calls == w.w.calls then w'.s.ext == w.s.ext
              else |w'.w.calls| > 0 && CallLeaves(w.s.ext, w'.s.ext, w'.w.calls[|w'.w.calls| - 1], o)
            case Enable(on) =>
              if w.s.dmaPending then w'.s.ext == w.s.ext
              else
                && w'.s.ext.enabled == on && |w'.s.ext.mem| == |w.s.ext.mem|
                && forall j :: 0 <= j < |w.s.ext.mem| ==> w'.s.ext.mem[j] == if on then 0 else w.s.ext.mem[j]
  {
    if e.WriteTick? {
      var t := Collected(w.s, e.w);
      if Writes(w.s, e.w) {
        CallbackLeaves(t.(wr := SubmitWrite(t.wr)), t.wr.addr, t.wr.data, e.o);
        assert Next(w, e).w.calls == w.w.calls + [Call(t.wr.addr, t.wr.data)];
      }
    }
  }

  // ---------------------------------------------------------------- the wires after an edge

  /** A callback changes no wire; after the edge ready is up exactly when no read is pending. */
  lemma ReadEdgePort(s: State, i: ReadIn)
    requires |i.value| == 4
    ensures var q, d := ReadEdge(s, i).rd, Driven(s, i).rd;
            q.wire == d.wire && q.handshake == d.handshake && (q.addrReady <==> !q.pending)
  {}

  /** What a handshake of the port delivered. */
  lemma DrivenPort(s: State, l: ReadLog, i: ReadIn)
    requires ReadInv(s.rd, l, DeferredRead(s))
    ensures var p, l', d := s.rd, PopLog(s.rd, l), Driven(s, i).rd;
            && l'.popped == l.popped + (if p.handshake && p.wire.Some? then [p.wire.value] else [])
            && d.wire == (if |l'.popped| < |Flatten(l.replies)| then Some(Flatten(l.replies)[|l'.popped|]) else None)
            && (d.handshake <==> d.wire.Some? && i.dataReady)
  {
    PopKeeps(s.rd, l, DeferredRead(s));
    FrontOfQueue(PopBeat(s.rd), PopLog(s.rd, l));
  }

  lemma FrontOfQueue(p: ReadPort, l: ReadLog)
    requires l.popped + p.responses == Flatten(l.replies)
    ensures p.responses == [] <==> |l.popped| == |Flatten(l.replies)|
    ensures p.responses != [] ==> |l.popped| < |Flatten(l.replies)| && p.responses[0] == Flatten(l.replies)[|l.popped|]
  {
    assert |Flatten(l.replies)| == |l.popped| + |p.responses|;
  }

  lemma ReadPopped(w: World, i: ReadIn)
    requires |i.value| == 4
    ensures ReadTickNext(w, i).r.popped == PopLog(w.s.rd, w.r).popped
  {}

  lemma ReadyWhenDone(w: World)
    requires Inv(w) && (w.s.rd.addrReady <==> !w.s.rd.pending)
    ensures w.s.rd.addrReady <==> |w.r.accepted| == LastBeats(w.r.popped)
  {
    ReadAccounting(w.s.rd, w.r, DeferredRead(w.s));
  }

  /**
   A read edge delivers the beat that was on the wire when the core took it, puts the next
   one there, and raises ready exactly when every read taken has had its last beat.
   */
  lemma ReadWires(w: World, i: ReadIn)
    requires Inv(w) && |i.value| == 4 && !Clobbers(w.s, ReadTick(i))
    ensures var w', p, q := ReadTickNext(w, i), w.s.rd, ReadTickNext(w, i).s.rd;
            && w'.r.popped == w.r.popped + (if p.handshake && p.wire.Some? then [p.wire.value] else [])
            && q.wire == (if |w'.r.popped| < |Flatten(w.r.replies)| then Some(Flatten(w.r.replies)[|w'.r.popped|]) else None)
            && (q.handshake <==> q.wire.Some? && i.dataReady)
            && (q.addrReady <==> |w'.r.accepted| == LastBeats(w'.r.popped))
  {
    DrivenPort(w.s, w.r, i);
    ReadEdgePort(w.s, i);
    ReadPopped(w, i);
    assert Inv(ReadTickNext(w, i)) by { ReadTickKeeps(w, i); }
    ReadyWhenDone(ReadTickNext(w, i));
  }

  /** The response channel of a write edge. */
  lemma CollectedPort(s: State, l: WriteLog, i: WriteIn)
    requires WriteInv(s.wr, l, DeferredWrite(s))
    ensures var p, l', d, issued := s.wr, Taken(s, l, i), Collected(s, i).wr, l.acks + s.wr.responses;
            && l'.acks == l.acks + (if p.handshake && p.wire.Some? then [p.wire.value] else [])
            && d.wire == (if |l'.acks| < |issued| then Some(issued[|l'.acks|]) else None)
            && (d.handshake <==> d.wire.Some? && i.respReady)
  {
    if s.wr.handshake { assert s.wr.responses == [s.wr.responses[0]]; }
  }

  lemma EffectKeepsPort(s: State, a: AxiAddr, data: seq<WBeat>, o: Outside)
    requires WellFormed(data)
    ensures EffectOfWrite(s, a, data, o).wr == s.wr
  {}

  /** A write callback touches the response queue only. */
  lemma WriteCallbackPort(s: State, a: AxiAddr, data: seq<WBeat>, o: Outside)
    requires WellFormed(data)
    ensures var q, p := WriteCallback(s, a, data, o).wr, s.wr;
            && q.wire == p.wire && q.handshake == p.handshake && q.data == p.data && q.captured == p.captured && q.complete == p.complete
            && q.submitted == p.submitted && q.pending == p.pending
  {
    EffectKeepsPort(s, a, data, o);
    var reply := WriteReply(s.ext, a, data, o);
    if reply.Some? { assert WriteCallback(s, a, data, o).wr == QueueResponse(s.wr, reply.value); }
  }

  lemma AnsweredPortIs(s: State, i: WriteIn, o: Outside)
    requires WellFormed(Collected(s, i).wr.data)
    ensures var q, d := Answered(s, i, o).wr, Collected(s, i).wr;
            && q.wire == d.wire && q.handshake == d.handshake && q.data == d.data && q.captured == d.captured && q.complete == d.complete
            && !(q.captured && q.complete && !q.submitted)
  {
    var t := Collected(s, i);
    WriteCallbackPort(t.(wr := SubmitWrite(t.wr)), t.wr.addr, t.wr.data, o);
  }

  lemma WriteEdgePort(s: State, i: WriteIn, o: Outside)
    requires WellFormed(Collected(s, i).wr.data)
    ensures var q, d := WriteEdge(s, i, o).wr, Collected(s, i).wr;
            && q.wire == d.wire && q.handshake == d.handshake && q.data == d.data
            && (q.addrReady <==> !q.pending && !q.captured) && (q.dataReady <==> !q.pending && !q.complete && |q.data| < 256)
            && !(q.captured && q.complete && !q.submitted)
  {
    AnsweredPortIs(s, i, o);
  }

  lemma WriteReadyWhenDone(w: World)
    requires WriteInv(w.s.wr, w.w, DeferredWrite(w.s))
    ensures var q := w.s.wr;
            && (!q.pending && !q.captured <==> |w.w.addrs| == |w.w.acks|) && (!q.pending <==> |w.w.calls| == |w.w.acks|)
            && (q.complete <==> q.data != [] && q.data[|q.data| - 1].last) && (q.captured && !q.pending <==> |w.w.addrs| > |w.w.calls|)
  {}

  /**
   A write edge acknowledges the response on the wire, leaves no whole burst with its
   address waiting, and raises address ready exactly when every address has been answered.
   */
  lemma WriteWires(w: World, i: WriteIn, o: Outside)
    requires Inv(w) && WellFormedBeat(i.beat) && !Clobbers(w.s, WriteTick(i, o))
    ensures WellFormed(Collected(w.s, i).wr.data)
    ensures var w', p, q := WriteTickNext(w, i, o), w.s.wr, WriteTickNext(w, i, o).s.wr;
            && w'.w.acks == w.w.acks + (if p.handshake && p.wire.Some? then [p.wire.value] else [])
            && q.wire == (if |w'.w.acks| < |Issued(w)| then Some(Issued(w)[|w'.w.acks|]) else None)
            && (q.handshake <==> q.wire.Some? && i.respReady)
            && (q.addrReady <==> |w'.w.addrs| == |w'.w.acks|)
            && (q.dataReady <==> |w'.w.calls| == |w'.w.acks| && !(q.data != [] && q.data[|q.data| - 1].last) && |q.data| < 256)
            && !(|w'.w.addrs| > |w'.w.calls| && q.data != [] && q.data[|q.data| - 1].last)
  {
    CollectedWellFormed(w, i);
    CollectedPort(w.s, w.w, i);
    WriteEdgePort(w.s, i, o);
    var w' := WriteTickNext(w, i, o);
    assert WriteInv(w'.s.wr, w'.w, DeferredWrite(w'.s)) by { WriteTickKeeps(w, i, o); }
    WriteReadyWhenDone(w');
  }
}
