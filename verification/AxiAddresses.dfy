/**
 Which read addresses the driver takes.  The core considers an address delivered when valid
 and ready are both high; the driver takes it only if it has not already taken one since
 valid was last low.
 */
module AxiAddresses {
  import opened DmaBuilder
  import opened AxiPorts
  import opened AxiBridge
  import opened Wrappers

  /** A handshake on the read address wires. */
  predicate Handshakes(s: State, e: Event) { e.ReadTick? && e.r.addrValid && s.rd.addrReady }

  predicate Takes(s: State, e: Event) { e.ReadTick? && Reads(s, e.r) }

  /** Valid is high at every read edge after event `k` and before event `n`. */
  predicate ValidBetween(es: seq<Event>, k: nat, n: nat)
    requires n <= |es|
  {
    forall m :: k < m < n ==> (es[m].ReadTick? ==> es[m].r.addrValid)
  }

  /** Valid has been high at every read edge since an address was last taken. */
  predicate ValidHeld(ws: seq<World>, es: seq<Event>, n: nat)
    requires |ws| == |es| + 1 && n <= |es|
  {
    exists k :: 0 <= k < n && Takes(ws[k].s, es[k]) && ValidBetween(es, k, n)
  }

  lemma WriteKeepsReadPort(w: World, i: WriteIn, o: Outside)
    requires WellFormed(Collected(w.s, i).wr.data)
    ensures WriteTickNext(w, i, o).s.rd == w.s.rd
  {}

  lemma SeenNext(w: World, e: Event)
    requires Defined(w, e)
    ensures Next(w, e).s.rd.seen <==> Takes(w.s, e) || (w.s.rd.seen && (e.ReadTick? ==> e.r.addrValid))
  {
    if e.WriteTick? { WriteKeepsReadPort(w, e.w, e.o); }
  }

  lemma HeldNext(ws: seq<World>, es: seq<Event>, n: nat)
    requires |ws| == |es| + 1 && n < |es|
    ensures ValidHeld(ws, es, n + 1) <==>
              Takes(ws[n].s, es[n]) || (ValidHeld(ws, es, n) && (es[n].ReadTick? ==> es[n].r.addrValid))
  {
    if Takes(ws[n].s, es[n]) {
      assert ValidBetween(es, n, n + 1);
    } else if ValidHeld(ws, es, n + 1) {
      var k :| 0 <= k < n + 1 && Takes(ws[k].s, es[k]) && ValidBetween(es, k, n + 1);
      assert ValidBetween(es, k, n);
    } else if ValidHeld(ws, es, n) && (es[n].ReadTick? ==> es[n].r.addrValid) {
      HeldGrows(ws, es, n);
    }
  }

  lemma HeldGrows(ws: seq<World>, es: seq<Event>, n: nat)
    requires |ws| == |es| + 1 && n < |es| && ValidHeld(ws, es, n) && (es[n].ReadTick? ==> es[n].r.addrValid)
    ensures ValidHeld(ws, es, n + 1)
  {
    var k :| 0 <= k < n && Takes(ws[k].s, es[k]) && ValidBetween(es, k, n);
    assert ValidBetween(es, k, n + 1);
  }

  lemma StepOf(ws: seq<World>, es: seq<Event>, i: nat)
    requires Run(ws, es) && i < |es|
    ensures Defined(ws[i], es[i]) && ws[i + 1] == Next(ws[i], es[i])
  {}

  /** In every run the driver's private flag is exactly the history of the valid wire. */
  lemma {:induction false} SeenIsHeld(ws: seq<World>, es: seq<Event>, n: nat)
    requires Run(ws, es) && Initial(ws[0]) && n < |ws|
    ensures ws[n].s.rd.seen <==> ValidHeld(ws, es, n)
    decreases n
  {
    if n > 0 {
      SeenIsHeld(ws, es, n - 1);
      StepOf(ws, es, n - 1);
      SeenNext(ws[n - 1], es[n - 1]);
      HeldNext(ws, es, n - 1);
    }
  }

  /** Exactly which handshakes count: those before which valid was low at some edge since the last taken address. */
  lemma AddressTaken(ws: seq<World>, es: seq<Event>, n: nat)
    requires Run(ws, es) && Initial(ws[0]) && OneSlot(ws, es) && n < |es|
    ensures Takes(ws[n].s, es[n]) <==> Handshakes(ws[n].s, es[n]) && !ValidHeld(ws, es, n)
  {
    RunKeeps(ws, es, n);
    SeenIsHeld(ws, es, n);
    if es[n].ReadTick? { TakenUnlessSeen(ws[n], es[n].r); }
  }

  lemma TakenUnlessSeen(w: World, i: ReadIn)
    requires Inv(w)
    ensures Reads(w.s, i) <==> i.addrValid && w.s.rd.addrReady && !w.s.rd.seen
  {}

  /** A step adds to the two lists what its wires say. */
  lemma ListsNext(w: World, e: Event)
    requires Defined(w, e)
    ensures var w' := Next(w, e);
            && w'.r.offered == w.r.offered + (if Handshakes(w.s, e) then [e.r.addr] else [])
            && w'.r.accepted == w.r.accepted + (if Takes(w.s, e) then [e.r.addr] else [])
            && (Takes(w.s, e) ==> Handshakes(w.s, e))
  {}

  /** No handshake before event `n` came while valid was held. */
  predicate NeverHeld(ws: seq<World>, es: seq<Event>, n: nat)
    requires |ws| == |es| + 1 && n <= |es|
  {
    forall i :: 0 <= i < n ==> !(Handshakes(ws[i].s, es[i]) && ValidHeld(ws, es, i))
  }

  lemma {:induction false} TakenIffNeverHeld(ws: seq<World>, es: seq<Event>, n: nat)
    requires Run(ws, es) && Initial(ws[0]) && OneSlot(ws, es) && n < |ws|
    ensures |ws[n].r.accepted| <= |ws[n].r.offered|
    ensures ws[n].r.offered == ws[n].r.accepted <==> NeverHeld(ws, es, n)
    ensures |ws[n].r.accepted| == |ws[n].r.offered| <==> NeverHeld(ws, es, n)
    decreases n
  {
    if n > 0 {
      TakenIffNeverHeld(ws, es, n - 1);
      AddressTaken(ws, es, n - 1);
      StepOf(ws, es, n - 1);
      ListsNext(ws[n - 1], es[n - 1]);
      assert NeverHeld(ws, es, n) <==>
        NeverHeld(ws, es, n - 1) && !(Handshakes(ws[n - 1].s, es[n - 1]) && ValidHeld(ws, es, n - 1));
    }
  }

  /** On the wires alone: between any two handshakes before event `n` some read edge finds valid low. */
  predicate ValidFalls(ws: seq<World>, es: seq<Event>, n: nat)
    requires |ws| == |es| + 1 && n <= |es|
  {
    forall i, j :: 0 <= i < j < n && Handshakes(ws[i].s, es[i]) && Handshakes(ws[j].s, es[j]) ==> !ValidBetween(es, i, j)
  }

  lemma NeverHeldIffFalls(ws: seq<World>, es: seq<Event>, n: nat)
    requires Run(ws, es) && Initial(ws[0]) && OneSlot(ws, es) && n < |ws|
    ensures NeverHeld(ws, es, n) <==> ValidFalls(ws, es, n)
  {
    if ValidFalls(ws, es, n) {
      forall j | 0 <= j < n ensures !(Handshakes(ws[j].s, es[j]) && ValidHeld(ws, es, j)) {
        forall k | 0 <= k < j && Takes(ws[k].s, es[k]) && Handshakes(ws[j].s, es[j]) ensures !ValidBetween(es, k, j) {
          AddressTaken(ws, es, k);
        }
      }
    }
    if NeverHeld(ws, es, n) {
      forall i, j | 0 <= i < j < n && Handshakes(ws[i].s, es[i]) && Handshakes(ws[j].s, es[j]) ensures !ValidBetween(es, i, j) {
        AddressTaken(ws, es, i);
        assert !ValidHeld(ws, es, j);
      }
    }
  }

  /**
   Exactly when no address is lost: the addresses that crossed the wires are the addresses
   taken, one for one, if and only if the core lowers valid between any two handshakes.
   */
  lemma NothingDroppedIff(ws: seq<World>, es: seq<Event>, n: nat)
    requires Run(ws, es) && Initial(ws[0]) && OneSlot(ws, es) && n < |ws|
    ensures ws[n].r.offered == ws[n].r.accepted <==> ValidFalls(ws, es, n)
    ensures |ws[n].r.accepted| == |ws[n].r.offered| <==> ValidFalls(ws, es, n)
    ensures |ws[n].r.accepted| <= |ws[n].r.offered|
  {
    TakenIffNeverHeld(ws, es, n);
    NeverHeldIffFalls(ws, es, n);
  }

  // ---------------------------------------------------------------- a dropped address

  /** The first edge takes a register read and queues its beat. */
  lemma FirstEdge(w: World, i: ReadIn)
    requires Initial(w) && i.addrValid && RegisterAccess(i.addr) && |i.value| == 4
    ensures var w' := ReadTickNext(w, i);
            && w'.s == w.s.(rd := ReadPort(false, None, [RegisterBeat(i.addr, i.value)], true, true, false))
            && w'.r.offered == [i.addr] && w'.r.accepted == [i.addr]
  {}

  /** The second presents the beat, which the core accepts; the third removes it and raises ready. */
  lemma MiddleEdges(w: World, b: RBeat, i: ReadIn, j: ReadIn)
    requires w.s.rd == ReadPort(false, None, [b], true, true, false) && b.last
    requires i.addrValid && i.dataReady && j.addrValid && |i.value| == 4 && |j.value| == 4
    ensures var w' := ReadTickNext(ReadTickNext(w, i), j);
            && w'.s == w.s.(rd := ReadPort(true, None, [], false, true, false))
            && w'.r.offered == w.r.offered && w'.r.accepted == w.r.accepted
  {
    assert [b][1..] == [];
    var w1 := ReadTickNext(w, i);
    assert w1.s == w.s.(rd := ReadPort(false, Some(b), [b], true, true, true));
  }

  lemma LastEdge(w: World, i: ReadIn)
    requires w.s.rd == ReadPort(true, None, [], false, true, false) && i.addrValid && |i.value| == 4
    ensures Handshakes(w.s, ReadTick(i)) && !Takes(w.s, ReadTick(i))
    ensures ReadTickNext(w, i).r.offered == w.r.offered + [i.addr] && ReadTickNext(w, i).r.accepted == w.r.accepted
  {}

  /** Four edges from reset with valid held drop the second address: it crossed the wires and nobody has it. */
  lemma DroppedReachable(w: World, i1: ReadIn, i2: ReadIn, i3: ReadIn, i4: ReadIn)
    requires Initial(w) && RegisterAccess(i1.addr) && i2.dataReady
    requires i1.addrValid && i2.addrValid && i3.addrValid && i4.addrValid
    requires |i1.value| == 4 && |i2.value| == 4 && |i3.value| == 4 && |i4.value| == 4
    ensures exists ws: seq<World> :: Run(ws, [ReadTick(i1), ReadTick(i2), ReadTick(i3), ReadTick(i4)]) && ws[0] == w &&
                         ws[4].r.offered == [i1.addr, i4.addr] && ws[4].r.accepted == [i1.addr]
  {
    var w1 := ReadTickNext(w, i1);
    var w2 := ReadTickNext(w1, i2);
    var w3 := ReadTickNext(w2, i3);
    FirstEdge(w, i1);
    MiddleEdges(w1, RegisterBeat(i1.addr, i1.value), i2, i3);
    LastEdge(w3, i4);
    var ws := [w, w1, w2, w3, ReadTickNext(w3, i4)];
    RunOfFour(ws, ReadTick(i1), ReadTick(i2), ReadTick(i3), ReadTick(i4));
    assert ws[4].r.offered == [i1.addr, i4.addr];
  }
}
