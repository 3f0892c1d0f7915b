/**
 The host's side: it clocks the core only through the step call, which stops while a request
 is pending, and answers through the completion call.  What is left of the one-slot rule is
 a condition on single clocks.
 */
module AxiHost {
  import opened Bits
  import opened DmaBuilder
  import opened AxiPorts
  import opened AxiBridge
  import opened AxiHandle
  import opened Wrappers

  datatype Move = Clock(t: Tick) | Answer(data: Option<seq<Byte>>, error: bool)

  /** The two edges of a clock in the order the drivers see them. */
  function First(t: Tick): Event { if t.readFirst then ReadTick(t.r) else WriteTick(t.w, t.o) }

  function Second(t: Tick): Event { if t.readFirst then WriteTick(t.w, t.o) else ReadTick(t.r) }

  /** One call of the host; a clock is given only with no request pending. */
  ghost predicate Moves(w: World, m: Move, w': World) {
    match m
    case Clock(t) =>
      && ValidTick(t) && !w.s.dmaPending && Defined(w, First(t))
      && Defined(Next(w, First(t)), Second(t)) && w' == Next(Next(w, First(t)), Second(t))
    case Answer(data, error) => Defined(w, Complete(data, error)) && w' == Next(w, Complete(data, error))
  }

  ghost predicate HostRun(ws: seq<World>, ms: seq<Move>) {
    |ws| == |ms| + 1 && forall i :: 0 <= i < |ms| ==> Moves(ws[i], ms[i], ws[i + 1])
  }

  // ---------------------------------------------------------------- what one edge does to the slot

  /** The edge runs a callback that writes the slot. */
  predicate WritesSlot(s: State, e: Event) {
    match e
    case ReadTick(i) => Reads(s, i) && !RegisterAccess(i.addr) && BurstAccepted(i.addr)
    case WriteTick(i, _) =>
      var p := Collected(s, i).wr;
      Writes(s, i) && !RegisterAccess(p.addr) && WriteHeaderOk(p.addr, p.data)
    case Complete(_, _) => false
    case Enable(_) => false
  }

  /** The edge runs a callback that leaves its request to the host. */
  predicate Defers(s: State, e: Event) {
    match e
    case ReadTick(i) => Reads(s, i) && !RegisterAccess(i.addr) && BurstAccepted(i.addr) && !Local(s.ext, i.addr)
    case WriteTick(i, _) =>
      var p := Collected(s, i).wr;
      Writes(s, i) && !RegisterAccess(p.addr) && WriteAccepted(p.addr, p.data) && !Local(s.ext, p.addr)
    case Complete(_, _) => false
    case Enable(_) => false
  }

  /** In one clock the first port to act leaves a request to the host and the second writes the slot as well. */
  predicate BothTake(s: State, t: Tick) { Defers(s, First(t)) && WritesSlot(s, Second(t)) }

  lemma PendingIffDeferred(w: World, e: Event)
    requires Defined(w, e) && !w.s.dmaPending && (e.ReadTick? || e.WriteTick?)
    ensures Next(w, e).s.dmaPending <==> Defers(w.s, e)
  {}

  lemma ReadKeepsWritePort(w: World, i: ReadIn)
    requires |i.value| == 4
    ensures ReadTickNext(w, i).s.wr == w.s.wr
  {}

  lemma WriteKeepsReadSide(w: World, i: WriteIn, o: Outside)
    requires WellFormed(Collected(w.s, i).wr.data)
    ensures WriteTickNext(w, i, o).s.rd == w.s.rd
  {}

  /** Whether the second edge writes the slot is decided before the clock. */
  lemma SecondIsIndependent(w: World, t: Tick)
    requires ValidTick(t) && Defined(w, First(t))
    ensures WritesSlot(Next(w, First(t)).s, Second(t)) <==> WritesSlot(w.s, Second(t))
  {
    if t.readFirst {
      ReadKeepsWritePort(w, t.r);
    } else {
      WriteKeepsReadSide(w, t.w, t.o);
    }
  }

  lemma ClobberIs(s: State, e: Event)
    ensures Clobbers(s, e) <==> s.dmaPending && WritesSlot(s, e)
  {}

  /** A clock given with no request pending keeps every request accounted for unless both ports take the slot in it. */
  lemma ClockKeepsIff(w: World, t: Tick)
    requires Inv(w) && ValidTick(t) && !w.s.dmaPending
    ensures Defined(w, First(t)) && Defined(Next(w, First(t)), Second(t))
    ensures Inv(Next(Next(w, First(t)), Second(t))) <==> !BothTake(w.s, t)
  {
    OneSlotExact(w, First(t));
    PendingIffDeferred(w, First(t));
    SecondIsIndependent(w, t);
    var mid := Next(w, First(t));
    ClobberIs(mid.s, Second(t));
    OneSlotExact(mid, Second(t));
  }

  lemma MoveKeepsIff(w: World, m: Move, w': World)
    requires Inv(w) && Moves(w, m, w')
    ensures Inv(w') <==> !(m.Clock? && BothTake(w.s, m.t))
  {
    match m
    case Clock(t) => ClockKeepsIff(w, t);
    case Answer(data, error) => OneSlotExact(w, Complete(data, error));
  }

  // ---------------------------------------------------------------- whole runs of the host

  /** None of the first `n` moves is a clock in which both ports take the slot. */
  predicate NeverBoth(ws: seq<World>, ms: seq<Move>, n: nat)
    requires |ws| == |ms| + 1 && n <= |ms|
  {
    forall i :: 0 <= i < n ==> !(ms[i].Clock? && BothTake(ws[i].s, ms[i].t))
  }

  lemma {:induction false} HostKeeps(ws: seq<World>, ms: seq<Move>, n: nat)
    requires HostRun(ws, ms) && Initial(ws[0]) && n <= |ms| && NeverBoth(ws, ms, n)
    ensures Inv(ws[n])
    decreases n
  {
    if n > 0 {
      HostKeeps(ws, ms, n - 1);
      assert Moves(ws[n - 1], ms[n - 1], ws[n]);
      MoveKeepsIff(ws[n - 1], ms[n - 1], ws[n]);
    }
  }

  /**
   Exactly what a host that uses only the step and completion calls must be spared: its run
   accounts for every request throughout, if and only if no clock lets both ports take the slot.
   */
  lemma HostSafeIff(ws: seq<World>, ms: seq<Move>)
    requires HostRun(ws, ms) && Initial(ws[0])
    ensures (forall n :: 0 <= n < |ws| ==> Inv(ws[n])) <==> NeverBoth(ws, ms, |ms|)
  {
    if NeverBoth(ws, ms, |ms|) {
      forall n | 0 <= n < |ws| ensures Inv(ws[n]) { HostKeeps(ws, ms, n); }
    } else {
      var i :| 0 <= i < |ms| && ms[i].Clock? && BothTake(ws[i].s, ms[i].t);
      assert Moves(ws[i], ms[i], ws[i + 1]);
      if Inv(ws[i]) { MoveKeepsIff(ws[i], ms[i], ws[i + 1]); }
    }
  }

  // ---------------------------------------------------------------- such a clock is reachable

  lemma QuietRead(w: World, i: ReadIn)
    requires Initial(w) && !i.addrValid && |i.value| == 4
    ensures ReadTickNext(w, i) == w
  {}

  /** A clock from reset in which nobody speaks leaves the write wires ready. */
  lemma QuietClock(w: World, t: Tick)
    requires Initial(w) && ValidTick(t) && !w.s.dmaPending && !t.r.addrValid && !t.w.addrValid && !t.w.dataValid
    requires t.readFirst && WellFormedBeat(t.w.beat)
    ensures WellFormed(Collected(w.s, t.w).wr.data) && Moves(w, Clock(t), WriteTickNext(w, t.w, t.o))
  {
    QuietRead(w, t.r);
    QuietEdge(w, t.w, t.o);
  }

  /** A quiet clock, a clock in which a read and a write both arrive, and one answer: the read is lost. */
  lemma BothTakeReachable(w: World, t1: Tick, t2: Tick)
    requires Initial(w) && !w.s.ext.enabled && ValidTick(t1) && ValidTick(t2) && t1.readFirst && t2.readFirst
    requires !t1.r.addrValid && !t1.w.addrValid && !t1.w.dataValid && WellFormedBeat(t1.w.beat)
    requires t2.r.addrValid && !RegisterAccess(t2.r.addr) && BurstAccepted(t2.r.addr)
    requires t2.w.addrValid && t2.w.dataValid && WellFormedBeat(t2.w.beat) && t2.w.beat.last
    requires !RegisterAccess(t2.w.addr) && WriteAccepted(t2.w.addr, [t2.w.beat])
    ensures exists ws: seq<World> :: HostRun(ws, [Clock(t1), Clock(t2), Answer(None, false)]) && ws[0] == w &&
                         BothTake(ws[1].s, t2) && Lost(ws[3])
  {
    var w1 := FirstClock(w, t1, t2);
    var w2, w3 := BusyClock(w1, t2);
    RunOfThree([w, w1, w2, w3], Clock(t1), Clock(t2), Answer(None, false));
  }

  /** After the quiet clock both ports are open, and the read of the next clock is left to the host. */
  lemma FirstClock(w: World, t1: Tick, t2: Tick) returns (w1: World)
    requires Initial(w) && !w.s.ext.enabled && ValidTick(t1) && ValidTick(t2) && t1.readFirst && t2.readFirst
    requires !t1.r.addrValid && !t1.w.addrValid && !t1.w.dataValid && WellFormedBeat(t1.w.beat)
    requires t2.r.addrValid && !RegisterAccess(t2.r.addr) && BurstAccepted(t2.r.addr)
    requires t2.w.addrValid && t2.w.dataValid && t2.w.beat.last && !RegisterAccess(t2.w.addr) && WriteAccepted(t2.w.addr, [t2.w.beat])
    ensures Moves(w, Clock(t1), w1) && BothTake(w1.s, t2) && !w1.s.dmaPending && !w1.s.ext.enabled
    ensures var mid := ReadTickNext(w1, t2.r);
            && Inv(mid) && DeferredRead(mid.s) && !mid.s.ext.enabled
            && mid.s.wr == WritePort(true, true, None, [], false, false, false, false, w1.s.wr.addr, [], false)
  {
    w1 := WriteTickNext(w, t1.w, t1.o);
    QuietClock(w, t1);
    QuietEdge(w, t1.w, t1.o);
    TakesBoth(w1, t2);
    ReadTakenFirst(w, t1.w, t2.r, t1.o);
  }

  /** The write overwrites the read of the same clock, and the answer goes to the write. */
  lemma BusyClock(w: World, t: Tick) returns (w2: World, w3: World)
    requires ValidTick(t) && t.readFirst && !w.s.dmaPending && !w.s.ext.enabled && WellFormedBeat(t.w.beat)
    requires t.w.addrValid && t.w.dataValid && t.w.beat.last && !RegisterAccess(t.w.addr) && WriteAccepted(t.w.addr, [t.w.beat])
    requires var mid := ReadTickNext(w, t.r);
             && Inv(mid) && DeferredRead(mid.s) && !mid.s.ext.enabled
             && mid.s.wr == WritePort(true, true, None, [], false, false, false, false, w.s.wr.addr, [], false)
    ensures Moves(w, Clock(t), w2) && Moves(w2, Answer(None, false), w3) && Lost(w3)
  {
    var mid := ReadTickNext(w, t.r);
    BusyEdge(mid.s, t.w);
    OverwriteLosesRead(mid, t.w, t.o, None, false);
    w2 := WriteTickNext(mid, t.w, t.o);
    w3 := CompleteNext(w2, None, false);
  }

  lemma RunOfThree(ws: seq<World>, m0: Move, m1: Move, m2: Move)
    requires |ws| == 4 && Moves(ws[0], m0, ws[1]) && Moves(ws[1], m1, ws[2]) && Moves(ws[2], m2, ws[3])
    ensures HostRun(ws, [m0, m1, m2])
  {}

  lemma TakesBoth(w: World, t: Tick)
    requires w.s.rd == ReadPort(true, None, [], false, false, false) && !w.s.dmaPending && !w.s.ext.enabled && t.readFirst
    requires w.s.wr == WritePort(true, true, None, [], false, false, false, false, w.s.wr.addr, [], false)
    requires t.r.addrValid && !RegisterAccess(t.r.addr) && BurstAccepted(t.r.addr)
    requires t.w.addrValid && t.w.dataValid && t.w.beat.last && !RegisterAccess(t.w.addr) && WriteAccepted(t.w.addr, [t.w.beat])
    ensures BothTake(w.s, t)
  {
    BusyEdge(w.s, t.w);
  }

  // ---------------------------------------------------------------- the step call gives such runs

  lemma ClockedMoves(w: World, t: Tick, s': State) returns (w': World)
    requires Clocked(w.s, t, s') && !w.s.dmaPending
    ensures Moves(w, Clock(t), w') && w'.s == s'
  {
    if t.readFirst {
      var mid := ReadTickNext(w, t.r);
      CollectedOk(mid.s, t.w);
      w' := WriteTickNext(mid, t.w, t.o);
    } else {
      CollectedOk(w.s, t.w);
      w' := ReadTickNext(WriteTickNext(w, t.w, t.o), t.r);
    }
  }

  /** The clocks of one step call, as moves of the host over the same states. */
  ghost predicate Follows(ws: seq<World>, states: seq<State>, ticks: seq<Tick>, i: nat)
    requires i < |ticks| && |ws| > i + 1 && |states| > i + 1
  {
    ws[i].s == states[i] && ws[i + 1].s == states[i + 1] && Moves(ws[i], Clock(ticks[i]), ws[i + 1])
  }

  lemma {:induction false} StepIsHostRun(states: seq<State>, ticks: seq<Tick>, w: World, n: nat) returns (ws: seq<World>)
    requires Trace(states, ticks) && w.s == states[0] && n <= |ticks|
    ensures |ws| == n + 1 && ws[0] == w && ws[n].s == states[n]
    ensures forall i :: 0 <= i < n ==> Follows(ws, states, ticks, i)
    decreases n
  {
    if n == 0 {
      ws := [w];
    } else {
      var front := StepIsHostRun(states, ticks, w, n - 1);
      assert Clocked(states[n - 1], ticks[n - 1], states[n]);
      var last := ClockedMoves(front[n - 1], ticks[n - 1], states[n]);
      ws := front + [last];
      forall i | 0 <= i < n ensures Follows(ws, states, ticks, i) {
        if i < n - 1 { assert Follows(front, states, ticks, i); }
      }
    }
  }
}
