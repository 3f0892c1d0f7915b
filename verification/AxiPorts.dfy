/**
 The two AXI master drivers as state machines clocked by falling edges.

 A port holds the wires a driver drives and its private fields.  A log records what crossed
 the port so far.  The callbacks that answer a request belong to the bridge; here an answer
 is either given at once or deferred.
 */
module AxiPorts {
  import opened Bits
  import opened DmaBuilder
  import opened Wrappers

  datatype BResp = BResp(id: nat, resp: nat)

  function Flatten<T>(ss: seq<seq<T>>): (r: seq<T>) {
    if ss == [] then [] else Flatten(ss[..|ss| - 1]) + ss[|ss| - 1]
  }

  lemma FlattenAppend<T>(ss: seq<seq<T>>, s: seq<T>)
    ensures Flatten(ss + [s]) == Flatten(ss) + s
  {
    assert (ss + [s])[..|ss|] == ss;
  }

  // ---------------------------------------------------------------- read port

  datatype ReadPort = ReadPort(addrReady: bool, wire: Option<RBeat>, responses: seq<RBeat>,
                               pending: bool, seen: bool, handshake: bool)

  /** Every address that crossed the port by a handshake, those the driver took, every reply and every delivered beat. */
  datatype ReadLog = ReadLog(offered: seq<AxiAddr>, accepted: seq<AxiAddr>, replies: seq<seq<RBeat>>, popped: seq<RBeat>)

  /** A handshake seen on the previous edge removes the front beat; a last beat ends the request. */
  function PopBeat(p: ReadPort): ReadPort {
    if p.handshake && p.responses != [] then
      p.(handshake := false, responses := p.responses[1..], pending := p.pending && !p.responses[0].last)
    else
      p.(handshake := false)
  }

  function PopLog(p: ReadPort, l: ReadLog): ReadLog {
    if p.handshake && p.responses != [] then l.(popped := l.popped + [p.responses[0]]) else l
  }

  /** Drive ready and the front beat; `dataReady` is the core's answer to the driven beat. */
  function DriveBeat(p: ReadPort, addrValid: bool, dataReady: bool): ReadPort {
    p.(seen := p.seen && addrValid, addrReady := !p.pending,
       wire := if p.responses == [] then None else Some(p.responses[0]),
       handshake := p.responses != [] && dataReady)
  }

  /** `ready` is the ready wire as it stood before the edge. */
  predicate Accepts(ready: bool, p: ReadPort, addrValid: bool) {
    addrValid && ready && !p.seen && !p.pending
  }

  function AcceptRead(p: ReadPort): ReadPort {
    p.(seen := true, pending := true, addrReady := false)
  }

  function QueueBeats(p: ReadPort, beats: seq<RBeat>): ReadPort {
    p.(responses := p.responses + beats)
  }

  /** What the core must see for one address: a full burst of data or a single error beat. */
  predicate ReplyFor(a: AxiAddr, beats: seq<RBeat>) {
    && beats != []
    && (forall k :: 0 <= k < |beats| ==> beats[k].id == a.id && beats[k].last == (k + 1 == |beats|))
    && (|| (|beats| == Beats(a) && forall k :: 0 <= k < |beats| ==> beats[k].resp == 0)
        || (|beats| == 1 && beats[0].resp == 2))
  }

  predicate RepliesMatch(accepted: seq<AxiAddr>, replies: seq<seq<RBeat>>) {
    |replies| <= |accepted| && forall i :: 0 <= i < |replies| ==> ReplyFor(accepted[i], replies[i])
  }

  predicate EndsWith(reply: seq<RBeat>, tail: seq<RBeat>) {
    |tail| <= |reply| && tail == reply[|reply| - |tail|..]
  }

  predicate ReadInv(p: ReadPort, l: ReadLog, deferred: bool) {
    && l.popped + p.responses == Flatten(l.replies)
    && |l.accepted| == |l.replies| + BoolBit(deferred)
    && RepliesMatch(l.accepted, l.replies)
    && (p.responses != [] ==> l.replies != [] && EndsWith(l.replies[|l.replies| - 1], p.responses))
    && (deferred ==> p.responses == [])
    && (p.pending <==> p.responses != [] || deferred)
    && (p.handshake ==> p.responses != [] && p.wire == Some(p.responses[0]))
    && (p.addrReady ==> !p.pending)
  }

  lemma LastOfTail(p: ReadPort, l: ReadLog, deferred: bool)
    requires ReadInv(p, l, deferred) && p.responses != []
    ensures p.responses[0].last <==> |p.responses| == 1
  {
    var n := |l.replies| - 1;
    assert ReplyFor(l.accepted[n], l.replies[n]);
    var reply := l.replies[n];
    assert p.responses[0] == reply[|reply| - |p.responses|];
  }

  lemma PopKeeps(p: ReadPort, l: ReadLog, deferred: bool)
    requires ReadInv(p, l, deferred)
    ensures ReadInv(PopBeat(p), PopLog(p, l), deferred) && !PopBeat(p).handshake
  {
    if p.handshake {
      LastOfTail(p, l, deferred);
      assert p.responses == [p.responses[0]] + p.responses[1..];
      assert (l.popped + [p.responses[0]]) + p.responses[1..] == l.popped + p.responses;
    }
  }

  lemma DriveKeeps(p: ReadPort, l: ReadLog, deferred: bool, addrValid: bool, dataReady: bool)
    requires ReadInv(p, l, deferred)
    ensures ReadInv(DriveBeat(p, addrValid, dataReady), l, deferred)
  {}

  lemma AcceptDeferred(p: ReadPort, l: ReadLog, a: AxiAddr)
    requires ReadInv(p, l, false) && !p.pending
    ensures ReadInv(AcceptRead(p), l.(accepted := l.accepted + [a]), true)
  {
    RepliesStillMatch(l, a);
  }

  lemma RepliesStillMatch(l: ReadLog, a: AxiAddr)
    requires RepliesMatch(l.accepted, l.replies)
    ensures RepliesMatch(l.accepted + [a], l.replies)
  {
    forall i | 0 <= i < |l.replies| ensures ReplyFor((l.accepted + [a])[i], l.replies[i]) {
      assert ReplyFor(l.accepted[i], l.replies[i]);
    }
  }

  /** Answering the deferred request, now or later. */
  lemma AnswerKeeps(p: ReadPort, l: ReadLog, beats: seq<RBeat>)
    requires ReadInv(p, l, true) && ReplyFor(l.accepted[|l.accepted| - 1], beats)
    ensures ReadInv(QueueBeats(p, beats), l.(replies := l.replies + [beats]), false)
  {
    FlattenAppend(l.replies, beats);
    assert p.responses + beats == beats;
    var n := |l.replies|;
    forall i | 0 <= i < n + 1 ensures ReplyFor(l.accepted[i], (l.replies + [beats])[i]) {
      if i < n { assert ReplyFor(l.accepted[i], l.replies[i]); }
    }
    assert (l.replies + [beats])[n] == beats && beats == beats[0..];
  }

  // ---------------------------------------------------------------- read accounting

  function LastBeats(s: seq<RBeat>): (n: nat) {
    if s == [] then 0 else LastBeats(s[..|s| - 1]) + BoolBit(s[|s| - 1].last)
  }

  lemma {:induction false} LastBeatsConcat(s: seq<RBeat>, t: seq<RBeat>)
    ensures LastBeats(s + t) == LastBeats(s) + LastBeats(t)
    decreases t
  {
    if t == [] {
      assert s + t == s;
    } else {
      assert (s + t)[..|s + t| - 1] == s + t[..|t| - 1];
      LastBeatsConcat(s, t[..|t| - 1]);
    }
  }

  lemma {:induction false} LastBeatsNone(s: seq<RBeat>)
    requires forall k :: 0 <= k < |s| ==> !s[k].last
    ensures LastBeats(s) == 0
  {
    if s != [] {
      LastBeatsNone(s[..|s| - 1]);
    }
  }

  lemma LastBeatsOfReply(a: AxiAddr, beats: seq<RBeat>)
    requires ReplyFor(a, beats)
    ensures LastBeats(beats) == 1
  {
    LastBeatsNone(beats[..|beats| - 1]);
  }

  lemma {:induction false} LastBeatsOfReplies(accepted: seq<AxiAddr>, replies: seq<seq<RBeat>>)
    requires RepliesMatch(accepted, replies)
    ensures LastBeats(Flatten(replies)) == |replies|
    decreases replies
  {
    if replies != [] {
      var n := |replies| - 1;
      LastBeatsOfReplies(accepted, replies[..n]);
      assert ReplyFor(accepted[n], replies[n]);
      LastBeatsOfReply(accepted[n], replies[n]);
      LastBeatsConcat(Flatten(replies[..n]), replies[n]);
    }
  }

  lemma LastBeatsOfTail(a: AxiAddr, reply: seq<RBeat>, tail: seq<RBeat>)
    requires ReplyFor(a, reply) && EndsWith(reply, tail) && tail != []
    ensures LastBeats(tail) == 1
  {
    var d := |reply| - |tail|;
    var front := tail[..|tail| - 1];
    forall k | 0 <= k < |front| ensures !front[k].last { assert tail[k] == reply[d + k]; }
    LastBeatsNone(front);
  }

  /** Accepted addresses are the delivered last beats plus one while a request is pending. */
  lemma ReadAccounting(p: ReadPort, l: ReadLog, deferred: bool)
    requires ReadInv(p, l, deferred)
    ensures |l.accepted| == LastBeats(l.popped) + BoolBit(p.pending)
  {
    LastBeatsOfReplies(l.accepted, l.replies);
    LastBeatsConcat(l.popped, p.responses);
    if p.responses != [] {
      var n := |l.replies| - 1;
      assert ReplyFor(l.accepted[n], l.replies[n]);
      LastBeatsOfTail(l.accepted[n], l.replies[n], p.responses);
    }
  }

  // ---------------------------------------------------------------- write port

  datatype WritePort = WritePort(addrReady: bool, dataReady: bool, wire: Option<BResp>, responses: seq<BResp>,
                                 pending: bool, captured: bool, complete: bool, submitted: bool,
                                 addr: AxiAddr, data: seq<WBeat>, handshake: bool)

  /** One call of the write callback. */
  datatype Call = Call(addr: AxiAddr, data: seq<WBeat>)

  /** Every address and beat that crossed the port by a handshake, every call and every delivered response. */
  datatype WriteLog = WriteLog(addrs: seq<AxiAddr>, beats: seq<WBeat>, calls: seq<Call>, acks: seq<BResp>)

  const MAX_BEATS: nat := 256

  function PopResponse(p: WritePort): WritePort {
    if p.handshake && p.responses != [] then
      p.(handshake := false, responses := p.responses[1..], pending := false, captured := false,
         complete := false, submitted := false, data := [])
    else
      p.(handshake := false)
  }

  function PopWriteLog(p: WritePort, l: WriteLog): WriteLog {
    if p.handshake && p.responses != [] then l.(acks := l.acks + [p.responses[0]]) else l
  }

  function DriveResponse(p: WritePort, respReady: bool): WritePort {
    p.(wire := if p.responses == [] then None else Some(p.responses[0]),
       handshake := p.responses != [] && respReady)
  }

  function CaptureAddr(p: WritePort, handshake: bool, a: AxiAddr): WritePort {
    if handshake && !p.captured then p.(captured := true, addr := a) else p
  }

  function CollectBeat(p: WritePort, handshake: bool, beat: WBeat): WritePort {
    if handshake && !p.complete then p.(data := p.data + [beat], complete := beat.last) else p
  }

  predicate Submits(p: WritePort) { p.captured && p.complete && !p.submitted }

  function SubmitWrite(p: WritePort): WritePort { p.(submitted := true, pending := true) }

  function QueueResponse(p: WritePort, r: BResp): WritePort { p.(responses := p.responses + [r]) }

  function DriveWriteReady(p: WritePort): WritePort {
    p.(addrReady := !p.pending && !p.captured,
       dataReady := !p.pending && !p.complete && |p.data| < MAX_BEATS)
  }

  predicate ReadyOk(p: WritePort) {
    && (p.addrReady ==> !p.pending && !p.captured)
    && (p.dataReady ==> !p.pending && !p.complete && |p.data| < MAX_BEATS)
  }

  function CallAddrs(calls: seq<Call>): seq<AxiAddr> { seq(|calls|, i requires 0 <= i < |calls| => calls[i].addr) }

  function CallData(calls: seq<Call>): seq<seq<WBeat>> { seq(|calls|, i requires 0 <= i < |calls| => calls[i].data) }

  /** A burst as the core sent it: whole, with the last flag on its final beat only. */
  predicate WholeBurst(data: seq<WBeat>) {
    0 < |data| <= MAX_BEATS && LastOnlyAtEnd(data) && WellFormed(data)
  }

  /** A burst still being collected, or complete. */
  predicate Collecting(p: WritePort) {
    && |p.data| <= MAX_BEATS && WellFormed(p.data)
    && (p.complete ==> p.data != [])
    && forall k :: 0 <= k < |p.data| ==> p.data[k].last == (p.complete && k + 1 == |p.data|)
  }

  predicate AcksMatch(acks: seq<BResp>, calls: seq<Call>) {
    |acks| <= |calls| && forall i :: 0 <= i < |acks| ==> acks[i].id == calls[i].addr.id
  }

  predicate WriteInv(p: WritePort, l: WriteLog, deferred: bool) {
    && l.addrs == CallAddrs(l.calls) + (if p.captured && !p.pending then [p.addr] else [])
    && l.beats == Flatten(CallData(l.calls)) + (if p.pending then [] else p.data)
    && (forall i :: 0 <= i < |l.calls| ==> WholeBurst(l.calls[i].data))
    && Collecting(p)
    && (p.pending <==> p.submitted) && (p.pending ==> p.captured && p.complete)
    && |l.calls| == |l.acks| + |p.responses| + BoolBit(deferred)
    && AcksMatch(l.acks + p.responses, l.calls)
    && |p.responses| + BoolBit(deferred) == BoolBit(p.pending)
    && (p.handshake ==> p.responses != [] && p.wire == Some(p.responses[0]))
  }

  lemma PopResponseKeeps(p: WritePort, l: WriteLog, deferred: bool)
    requires WriteInv(p, l, deferred)
    ensures WriteInv(PopResponse(p), PopWriteLog(p, l), deferred) && !PopResponse(p).handshake
    ensures !p.pending ==> PopResponse(p) == p
  {
    if p.handshake {
      assert p.responses == [p.responses[0]];
      assert l.acks + p.responses == (l.acks + [p.responses[0]]) + p.responses[1..];
    }
  }

  lemma DriveResponseKeeps(p: WritePort, l: WriteLog, deferred: bool, respReady: bool)
    requires WriteInv(p, l, deferred)
    ensures WriteInv(DriveResponse(p, respReady), l, deferred)
  {}

  lemma CaptureKeeps(p: WritePort, l: WriteLog, deferred: bool, handshake: bool, a: AxiAddr)
    requires WriteInv(p, l, deferred) && (handshake ==> !p.pending && !p.captured)
    ensures WriteInv(CaptureAddr(p, handshake, a), if handshake then l.(addrs := l.addrs + [a]) else l, deferred)
  {}

  lemma CollectKeeps(p: WritePort, l: WriteLog, deferred: bool, handshake: bool, beat: WBeat)
    requires WriteInv(p, l, deferred) && WellFormedBeat(beat)
    requires handshake ==> !p.pending && !p.complete && |p.data| < MAX_BEATS
    ensures WriteInv(CollectBeat(p, handshake, beat), if handshake then l.(beats := l.beats + [beat]) else l, deferred)
  {
    if handshake {
      assert (Flatten(CallData(l.calls)) + p.data) + [beat] == Flatten(CallData(l.calls)) + (p.data + [beat]);
    }
  }

  lemma SubmitKeeps(p: WritePort, l: WriteLog)
    requires WriteInv(p, l, false) && Submits(p)
    ensures WholeBurst(p.data)
    ensures WriteInv(SubmitWrite(p), l.(calls := l.calls + [Call(p.addr, p.data)]), true)
  {
    var c := Call(p.addr, p.data);
    CallsGrow(l.calls, c);
    FlattenAppend(CallData(l.calls), p.data);
    assert CallAddrs(l.calls) + [p.addr] + [] == CallAddrs(l.calls) + [p.addr];
  }

  lemma CallsGrow(calls: seq<Call>, c: Call)
    ensures CallAddrs(calls + [c]) == CallAddrs(calls) + [c.addr]
    ensures CallData(calls + [c]) == CallData(calls) + [c.data]
  {}

  lemma RespondKeeps(p: WritePort, l: WriteLog, r: BResp)
    requires WriteInv(p, l, true) && r.id == l.calls[|l.calls| - 1].addr.id
    ensures WriteInv(QueueResponse(p, r), l, false)
  {
    assert l.acks + (p.responses + [r]) == (l.acks + p.responses) + [r];
  }

  lemma WriteReadyKeeps(p: WritePort, l: WriteLog, deferred: bool)
    requires WriteInv(p, l, deferred)
    ensures WriteInv(DriveWriteReady(p), l, deferred) && ReadyOk(DriveWriteReady(p))
  {}
}
