/** What each call into the Coral driver has done by the time it returns, over all histories. */
module CoralCalls {
  import opened CoralDriver

  /** Event `i` is thread `t` entering the driver. */
  predicate Enters(es: seq<Event>, i: nat, t: nat, call: Call)
    requires i < |es|
  {
    es[i] == Enter(t, call) && PcOf(At(es, i), t).Outside?
  }

  /** Thread `t` is in the driver after each of the events `i` to `j - 1`. */
  predicate Inside(es: seq<Event>, i: nat, j: nat, t: nat)
    requires j <= |es|
  {
    forall n: nat :: i < n <= j ==> !PcOf(At(es, n), t).Outside?
  }

  /** The call that thread `t` entered by event `i` returns by event `j`. */
  predicate Returns(es: seq<Event>, i: nat, j: nat, t: nat) {
    i < j < |es| && Inside(es, i, j, t) && PcOf(At(es, j + 1), t).Outside?
  }

  predicate Own(es: seq<Event>, k: nat, t: nat)
    requires k < |es|
  {
    ActorOf(es[k]) == Thread(t)
  }

  /** Event `f` is the first action of thread `t` after event `i`. */
  predicate FirstOwn(es: seq<Event>, i: nat, f: nat, t: nat)
    requires f < |es|
  {
    i < f && Own(es, f, t) && forall k :: i < k < f ==> !Own(es, k, t)
  }

  lemma Entered(es: seq<Event>, i: nat, t: nat, call: Call)
    requires i < |es| && Enters(es, i, t, call)
    ensures PcOf(At(es, i + 1), t) == EntryOf(call) && At(es, i + 1).m == At(es, i).m
  {
    AtNext(es, i);
  }

  /** An action of another leaves a thread in the driver where it is. */
  lemma NotOwn(es: seq<Event>, n: nat, t: nat)
    requires n < |es| && !Own(es, n, t) && !PcOf(At(es, n), t).Outside?
    ensures PcOf(At(es, n + 1), t) == PcOf(At(es, n), t)
  {
    AtNext(es, n);
  }

  lemma OwnStep(es: seq<Event>, n: nat, t: nat)
    requires n < |es| && Own(es, n, t)
    ensures (At(es, n + 1).m, PcOf(At(es, n + 1), t)) == ThreadStep(At(es, n).m, t, PcOf(At(es, n), t), es[n].done)
  {
    AtNext(es, n);
  }

  lemma ReturnIsOwn(es: seq<Event>, i: nat, j: nat, t: nat)
    requires Returns(es, i, j, t)
    ensures Own(es, j, t)
  {
    if !Own(es, j, t) { NotOwn(es, j, t); }
  }

  /** Nothing runs, no work is left, the lock is free and the device is held in reset. */
  predicate Quiet(m: Shared) { m.lock.None? && !m.running && !m.pending && m.work.NotExecuting? && m.inReset }

  // ---------------------------------------------------------------- reset

  /** Once on the RESET path a call stays on it until it returns. */
  lemma {:induction false} ResetPath(es: seq<Event>, i: nat, n: nat, t: nat)
    requires i < n <= |es| && PcOf(At(es, i + 1), t).InReset? && Inside(es, i, n, t)
    ensures PcOf(At(es, n), t).InReset?
    decreases n
  {
    if n > i + 1 {
      ResetPath(es, i, n - 1, t);
      if Own(es, n - 1, t) { OwnStep(es, n - 1, t); } else { NotOwn(es, n - 1, t); }
    }
  }

  lemma ResetEnds(es: seq<Event>, i: nat, j: nat, t: nat)
    requires Returns(es, i, j, t) && PcOf(At(es, i + 1), t).InReset?
    ensures Quiet(At(es, j + 1).m)
  {
    ResetPath(es, i, j, t);
    ReturnIsOwn(es, i, j, t);
    OwnStep(es, j, t);
    AtNext(es, j);
    ResetLeavesDeviceQuiet(At(es, j), t, es[j].done);
  }

  /** When a RESET returns, the device is quiet. */
  lemma ResetReturns(es: seq<Event>, i: nat, j: nat, t: nat)
    requires Returns(es, i, j, t) && Enters(es, i, t, CallReset)
    ensures Quiet(At(es, j + 1).m)
  {
    Entered(es, i, t, CallReset);
    ResetEnds(es, i, j, t);
  }

  // ---------------------------------------------------------------- release and poll

  /** Until its first action a thread is where it entered. */
  lemma {:induction false} UntilFirst(es: seq<Event>, i: nat, n: nat, t: nat)
    requires i < n <= |es| && !PcOf(At(es, i + 1), t).Outside? && forall k :: i < k < n ==> !Own(es, k, t)
    ensures PcOf(At(es, n), t) == PcOf(At(es, i + 1), t)
    decreases n
  {
    if n > i + 1 {
      UntilFirst(es, i, n - 1, t);
      NotOwn(es, n - 1, t);
    }
  }

  /**
   A release whose first action finds a run announced resets the device before it returns;
   one that finds none returns at once and leaves the shared state as it is.
   */
  lemma ReleaseReturns(es: seq<Event>, i: nat, f: nat, j: nat, t: nat)
    requires Returns(es, i, j, t) && Enters(es, i, t, CallRelease) && f <= j && FirstOwn(es, i, f, t)
    ensures At(es, f + 1).m == At(es, f).m
    ensures if At(es, f).m.running then Quiet(At(es, j + 1).m) else j == f
  {
    Entered(es, i, t, CallRelease);
    UntilFirst(es, i, f, t);
    OwnStep(es, f, t);
    if At(es, f).m.running { ResetEnds(es, f, j, t); }
  }

  /**
   A poll whose status read finds the device done stores that nothing runs, and changes nothing
   else; one that does not find it done changes nothing.
   */
  lemma PollReturns(es: seq<Event>, i: nat, f: nat, j: nat, t: nat)
    requires Returns(es, i, j, t) && Enters(es, i, t, CallPoll) && f <= j && FirstOwn(es, i, f, t)
    ensures At(es, f + 1).m == At(es, f).m
    ensures if es[f].done then FirstOwn(es, f, j, t) && At(es, j + 1).m == At(es, j).m.(running := false) else j == f
  {
    Entered(es, i, t, CallPoll);
    UntilFirst(es, i, f, t);
    OwnStep(es, f, t);
    if es[f].done { PollStores(es, f, j, t); }
  }

  lemma PollStores(es: seq<Event>, f: nat, j: nat, t: nat)
    requires Returns(es, f, j, t) && PcOf(At(es, f + 1), t).PollClear?
    ensures FirstOwn(es, f, j, t) && At(es, j + 1).m == At(es, j).m.(running := false)
  {
    ReturnIsOwn(es, f, j, t);
    var n := f + 1;
    while n < j && !Own(es, n, t)
      invariant f < n <= j && forall k :: f < k < n ==> !Own(es, k, t)
    {
      n := n + 1;
    }
    UntilFirst(es, f, n, t);
    OwnStep(es, n, t);
  }

  // ---------------------------------------------------------------- start

  predicate SameButLock(m: Shared, m': Shared) { m' == m.(lock := m'.lock) }

  /** The actions of thread `t` between events `i` and `n` touch the lock only. */
  predicate OnlyLocks(es: seq<Event>, i: nat, n: nat, t: nat)
    requires n <= |es|
  {
    forall k: nat :: i < k < n && Own(es, k, t) ==> SameButLock(At(es, k).m, At(es, k + 1).m)
  }

  ghost predicate FoundBusy(es: seq<Event>, i: nat, n: nat, t: nat)
    requires n <= |es|
  {
    exists k: nat :: i < k < n && Own(es, k, t) && At(es, k).m.running
  }

  /** Event `k` announces a run. */
  predicate Announces(es: seq<Event>, k: nat)
    requires k < |es|
  {
    !At(es, k).m.running && At(es, k + 1).m.running && At(es, k + 1).m.epoch == At(es, k).m.epoch + 1
  }

  /** Thread `t` announced the run that is the latest at `n`. */
  ghost predicate Started(es: seq<Event>, i: nat, n: nat, t: nat)
    requires n <= |es|
  {
    exists k: nat :: i < k < n && Own(es, k, t) && Announces(es, k) && At(es, n).m.epoch == At(es, k).m.epoch + 1
  }

  /** The device was held in reset at some time after the announcement. */
  ghost predicate Pulsed(es: seq<Event>, i: nat, n: nat)
    requires n <= |es|
  {
    exists r: nat :: i < r < n && At(es, r).m.inReset
  }

  predicate Released(m: Shared) { m.released == m.epoch && !m.inReset }

  /** How far a START has come, by its next action. */
  ghost predicate Progress(es: seq<Event>, i: nat, n: nat, t: nat)
    requires n <= |es|
  {
    PcOf(At(es, n), t).InStart? &&
    match PcOf(At(es, n), t).s
    case SLock => OnlyLocks(es, i, n, t)
    case SCheck => OnlyLocks(es, i, n, t)
    case SWritePc => Started(es, i, n, t)
    case SAssert => Started(es, i, n, t)
    case SDeassert => Started(es, i, n, t) && At(es, n).m.inReset
    case SSchedule => Started(es, i, n, t) && Pulsed(es, i, n) && Released(At(es, n).m)
    case SUnlock =>
      || (OnlyLocks(es, i, n, t) && FoundBusy(es, i, n, t))
      || (Started(es, i, n, t) && Pulsed(es, i, n) && Released(At(es, n).m))
    case _ => true
  }

  /** While a thread holds the lock no other changes the run, its release or the reset. */
  lemma OthersKeep(s: State, e: Event, t: nat)
    requires Inv(s) && HoldsLock(PcOf(s, t)) && ActorOf(e) != Thread(t)
    ensures var m := Step(s, e).m; m.epoch == s.m.epoch && m.released == s.m.released && m.inReset == s.m.inReset
  {
    assert LockAgrees(s, t);
    if e.Act? { assert LockAgrees(s, e.t); }
  }

  lemma StartedKept(es: seq<Event>, i: nat, n: nat, t: nat)
    requires n < |es| && Started(es, i, n, t) && At(es, n + 1).m.epoch == At(es, n).m.epoch
    ensures Started(es, i, n + 1, t)
  {}

  lemma PulsedKept(es: seq<Event>, i: nat, n: nat)
    requires n < |es| && Pulsed(es, i, n)
    ensures Pulsed(es, i, n + 1)
  {}

  lemma OnlyLocksKept(es: seq<Event>, i: nat, n: nat, t: nat)
    requires n < |es| && OnlyLocks(es, i, n, t) && (Own(es, n, t) ==> SameButLock(At(es, n).m, At(es, n + 1).m))
    ensures OnlyLocks(es, i, n + 1, t)
  {}

  lemma FoundKept(es: seq<Event>, i: nat, n: nat, t: nat)
    requires n < |es| && FoundBusy(es, i, n, t)
    ensures FoundBusy(es, i, n + 1, t)
  {}

  /** What has been seen stays seen while nobody moves the run, its release or the reset. */
  lemma SeenKept(es: seq<Event>, i: nat, n: nat, t: nat)
    requires n < |es| && At(es, n + 1).m.epoch == At(es, n).m.epoch
    ensures Started(es, i, n, t) ==> Started(es, i, n + 1, t)
    ensures Pulsed(es, i, n) ==> Pulsed(es, i, n + 1)
    ensures FoundBusy(es, i, n, t) ==> FoundBusy(es, i, n + 1, t)
    ensures OnlyLocks(es, i, n, t) && (Own(es, n, t) ==> SameButLock(At(es, n).m, At(es, n + 1).m)) ==> OnlyLocks(es, i, n + 1, t)
  {
    if Started(es, i, n, t) { StartedKept(es, i, n, t); }
    if Pulsed(es, i, n) { PulsedKept(es, i, n); }
    if FoundBusy(es, i, n, t) { FoundKept(es, i, n, t); }
    if OnlyLocks(es, i, n, t) && (Own(es, n, t) ==> SameButLock(At(es, n).m, At(es, n + 1).m)) { OnlyLocksKept(es, i, n, t); }
  }

  lemma OthersProgress(es: seq<Event>, i: nat, n: nat, t: nat)
    requires i < n < |es| && Progress(es, i, n, t) && !Own(es, n, t)
    ensures Progress(es, i, n + 1, t)
  {
    NotOwn(es, n, t);
    AtNext(es, n);
    if HoldsLock(PcOf(At(es, n), t)) {
      AtInv(es, n);
      OthersKeep(At(es, n), es[n], t);
      SeenKept(es, i, n, t);
    } else {
      OnlyLocksKept(es, i, n, t);
    }
  }

  lemma OwnProgress(es: seq<Event>, i: nat, n: nat, t: nat)
    requires i < n < |es| && Progress(es, i, n, t) && Own(es, n, t) && !PcOf(At(es, n + 1), t).Outside?
    ensures Progress(es, i, n + 1, t)
  {
    OwnStep(es, n, t);
    AtInv(es, n);
    assert LockAgrees(At(es, n), t);
    var at := PcOf(At(es, n), t).s;
    if at.SSet? {
      assert Announces(es, n);
    } else {
      SeenKept(es, i, n, t);
      if at.SCheck? && At(es, n).m.running { assert FoundBusy(es, i, n + 1, t); }
      if at.SDeassert? { assert Pulsed(es, i, n + 1); }
    }
  }

  lemma {:induction false} StartPath(es: seq<Event>, i: nat, n: nat, t: nat)
    requires i < n <= |es| && Enters(es, i, t, CallStart) && Inside(es, i, n, t)
    ensures Progress(es, i, n, t)
    decreases n
  {
    if n == i + 1 {
      Entered(es, i, t, CallStart);
    } else {
      StartPath(es, i, n - 1, t);
      if Own(es, n - 1, t) { OwnProgress(es, i, n - 1, t); } else { OthersProgress(es, i, n - 1, t); }
    }
  }

  /**
   A START that returns either found a run announced and did nothing but take and give back
   the lock, or announced one run, held the device in reset and let it out for that run; then,
   if the run is still announced, its completion work is queued or executing.
   */
  lemma StartReturns(es: seq<Event>, i: nat, j: nat, t: nat)
    requires Returns(es, i, j, t) && Enters(es, i, t, CallStart)
    ensures At(es, j + 1).m.lock.None?
    ensures || (FoundBusy(es, i, j, t) && OnlyLocks(es, i, j + 1, t))
            || (Started(es, i, j + 1, t) && Pulsed(es, i, j + 1) && Released(At(es, j + 1).m)
                && (At(es, j + 1).m.running ==> WorkerLive(At(es, j + 1).m)))
  {
    StartPath(es, i, j, t);
    ReturnIsOwn(es, i, j, t);
    OwnStep(es, j, t);
    SeenKept(es, i, j, t);
    AtInv(es, j + 1);
  }

  // ---------------------------------------------------------------- the completion work

  lemma {:induction false} WorkWaits(es: seq<Event>, k: nat, n: nat)
    requires k < n <= |es| && !At(es, k + 1).m.work.NotExecuting? && forall q :: k < q < n ==> !es[q].Work?
    ensures At(es, n).m.work == At(es, k + 1).m.work
    decreases n
  {
    if n > k + 1 {
      WorkWaits(es, k, n - 1);
      AtNext(es, n - 1);
      WorkStays(At(es, n - 1), es[n - 1]);
    }
  }

  lemma WorkStays(s: State, e: Event)
    requires !e.Work? && !s.m.work.NotExecuting?
    ensures Step(s, e).m.work == s.m.work
  {}

  /** A work function that reads a finished status ends the run with its next action, whatever happens in between. */
  lemma WorkEndsRun(es: seq<Event>, k: nat, n: nat)
    requires k < n < |es| && es[k] == Work(true) && At(es, k).m.work == WorkRead
    requires es[n].Work? && forall q :: k < q < n ==> !es[q].Work?
    ensures !At(es, n + 1).m.running
  {
    AtNext(es, k);
    WorkWaits(es, k, n);
    AtNext(es, n);
  }
}
