/**
 The START, RESET, poll and release paths of the Coral kernel driver, interleaved with
 its delayed completion work.

 Every access to shared state is one step: the atomic `running`, the state mutex, the
 device registers, and the two halves of `cancel_delayed_work_sync` (take the pending
 bit and block requeueing, then wait until the work function is not executing).  The
 device decides what each status read returns.  Any number of threads may be inside the
 driver.
 */
module CoralDriver {
  import opened Wrappers

  datatype Call = CallStart | CallReset | CallPoll | CallRelease

  datatype StartPc = SLock | SCheck | SCancel | SFlush | SSet | SWritePc | SAssert | SDeassert | SSchedule | SUnlock

  datatype ResetPc = RLock | RClear | RCancel | RFlush | RAssert | RWake | RUnlock

  /** The next action of a thread inside the driver. */
  datatype Pc = Outside | InStart(s: StartPc) | InReset(r: ResetPc) | PollRead | PollClear(tag: nat) | ReleaseRead

  /** The next action of the completion work function, if it executes. */
  datatype WorkPc = NotExecuting | WorkCheck | WorkRead | WorkClear(tag: nat) | WorkWake | WorkRecheck | WorkQueue

  /**
   What the threads share.  `epoch` counts the runs announced so far and `released` is the
   run for which the device was last let out of reset; until START writes that register the
   device still shows the status of an earlier run.  A status read is tagged with the run
   released at that moment, so that one can say which run's status a later store to
   `running` was decided by.
   */
  datatype Shared = Shared(
    running: bool,
    lock: Option<nat>,
    pending: bool,
    canceling: bool,
    work: WorkPc,
    inReset: bool,
    epoch: nat,
    released: nat)

  datatype State = State(m: Shared, threads: map<nat, Pc>)

  /** Thread `t` enters, thread `t` acts, the work timer expires, the work function acts. */
  datatype Event = Enter(t: nat, call: Call) | Act(t: nat, done: bool) | Fire | Work(done: bool)

  const INITIAL: State := State(Shared(false, None, false, false, NotExecuting, true, 0, 0), map[])

  function PcOf(s: State, t: nat): Pc {
    if t in s.threads then s.threads[t] else Outside
  }

  /** `schedule_delayed_work`: nothing happens while the work is pending or being cancelled. */
  function Schedule(m: Shared): Shared {
    if m.canceling then m else m.(pending := true)
  }

  function EntryOf(call: Call): Pc {
    match call
    case CallStart => InStart(SLock)
    case CallReset => InReset(RLock)
    case CallPoll => PollRead
    case CallRelease => ReleaseRead
  }

  /** One action of `coral_start`. */
  function StartStep(m: Shared, t: nat, at: StartPc): (Shared, Pc) {
    match at
    case SLock => if m.lock.None? then (m.(lock := Some(t)), InStart(SCheck)) else (m, InStart(SLock))
    case SCheck => (m, InStart(if m.running then SUnlock else SCancel))
    case SCancel => (m.(pending := false, canceling := true), InStart(SFlush))
    case SFlush => if m.work.NotExecuting? then (m.(canceling := false), InStart(SSet)) else (m, InStart(SFlush))
    case SSet => (m.(running := true, epoch := m.epoch + 1), InStart(SWritePc))
    case SWritePc => (m, InStart(SAssert))
    case SAssert => (m.(inReset := true), InStart(SDeassert))
    case SDeassert => (m.(inReset := false, released := m.epoch), InStart(SSchedule))
    case SSchedule => (Schedule(m), InStart(SUnlock))
    case SUnlock => (m.(lock := None), Outside)
  }

  /** One action of `coral_reset`. */
  function ResetStep(m: Shared, t: nat, at: ResetPc): (Shared, Pc) {
    match at
    case RLock => if m.lock.None? then (m.(lock := Some(t)), InReset(RClear)) else (m, InReset(RLock))
    case RClear => (m.(running := false), InReset(RCancel))
    case RCancel => (m.(pending := false, canceling := true), InReset(RFlush))
    case RFlush => if m.work.NotExecuting? then (m.(canceling := false), InReset(RAssert)) else (m, InReset(RFlush))
    case RAssert => (m.(inReset := true), InReset(RWake))
    case RWake => (m, InReset(RUnlock))
    case RUnlock => (m.(lock := None), Outside)
  }

  /** One action of a thread; `done` is what a status read finds in its two low bits. */
  function ThreadStep(m: Shared, t: nat, pc: Pc, done: bool): (Shared, Pc) {
    match pc
    case Outside => (m, Outside)
    case InStart(at) => StartStep(m, t, at)
    case InReset(at) => ResetStep(m, t, at)
    case PollRead => (m, if done then PollClear(m.released) else Outside)
    case PollClear(_) => (m.(running := false), Outside)
    case ReleaseRead => (m, if m.running then InReset(RLock) else Outside)
  }

  /** One action of `coral_completion_work`. */
  function WorkStep(m: Shared, done: bool): Shared {
    match m.work
    case NotExecuting => m
    case WorkCheck => m.(work := if m.running then WorkRead else NotExecuting)
    case WorkRead => m.(work := if done then WorkClear(m.released) else WorkRecheck)
    case WorkClear(_) => m.(running := false, work := WorkWake)
    case WorkWake => m.(work := NotExecuting)
    case WorkRecheck => m.(work := if m.running then WorkQueue else NotExecuting)
    case WorkQueue => Schedule(m).(work := NotExecuting)
  }

  /** An event that is not enabled leaves the shared state as it is. */
  function Step(s: State, e: Event): State {
    match e
    case Enter(t, call) => if PcOf(s, t).Outside? then s.(threads := s.threads[t := EntryOf(call)]) else s
    case Act(t, done) => var (m, pc) := ThreadStep(s.m, t, PcOf(s, t), done); State(m, s.threads[t := pc])
    case Fire => if s.m.pending && s.m.work.NotExecuting? then s.(m := s.m.(pending := false, work := WorkCheck)) else s
    case Work(done) => s.(m := WorkStep(s.m, done))
  }

  function Run(s: State, es: seq<Event>): State
    decreases |es|
  {
    if es == [] then s else Run(Step(s, es[0]), es[1..])
  }

  // ---------------------------------------------------------------- the invariant

  predicate HoldsLock(pc: Pc) {
    (pc.InStart? && !pc.s.SLock?) || (pc.InReset? && !pc.r.RLock?)
  }

  predicate Flushing(pc: Pc) { pc == InStart(SFlush) || pc == InReset(RFlush) }

  /** START has announced the run and not yet queued the work. */
  predicate Launching(pc: Pc) {
    pc.InStart? && (pc.s.SWritePc? || pc.s.SAssert? || pc.s.SDeassert? || pc.s.SSchedule?)
  }

  /** START has announced the run and not yet let the device out of reset. */
  predicate Unreleased(pc: Pc) { Launching(pc) && !pc.s.SSchedule? }

  /** RESET has flushed the work. */
  predicate ResetFlushed(pc: Pc) {
    pc.InReset? && (pc.r.RAssert? || pc.r.RWake? || pc.r.RUnlock?)
  }

  /** Between the flush and the point where START queues new work. */
  predicate Flushed(pc: Pc) { pc == InStart(SSet) || Launching(pc) || ResetFlushed(pc) }

  /** From here on the lock holder knows that nothing runs. */
  predicate KnowsIdle(pc: Pc) {
    pc == InStart(SCancel) || pc == InStart(SSet) || pc == InReset(RCancel) || Flushing(pc) || ResetFlushed(pc)
  }

  predicate WorkerLive(m: Shared) { m.pending || !m.work.NotExecuting? }

  /** What holds when the thread with the lock, if any, is about to do `pc`. */
  predicate HolderInv(m: Shared, pc: Pc) {
    (m.canceling <==> Flushing(pc)) &&
    (Flushing(pc) ==> !m.pending) &&
    (Flushed(pc) ==> !WorkerLive(m)) &&
    (KnowsIdle(pc) ==> !m.running) &&
    (m.running && !Launching(pc) ==> WorkerLive(m)) &&
    (pc == InReset(RWake) || pc == InReset(RUnlock) ==> m.inReset) &&
    (m.work.WorkWake? ==> !m.running) &&
    (m.work.WorkClear? ==> m.work.tag == m.epoch) &&
    (if Unreleased(pc) then m.released < m.epoch else m.released == m.epoch)
  }

  function HolderPc(s: State): Pc {
    if s.m.lock.None? then Outside else PcOf(s, s.m.lock.value)
  }

  predicate LockAgrees(s: State, t: nat) { HoldsLock(PcOf(s, t)) <==> s.m.lock == Some(t) }

  ghost predicate Inv(s: State) {
    (forall t: nat :: LockAgrees(s, t)) && HolderInv(s.m, HolderPc(s))
  }

  /** What one thread's action does to the lock. */
  lemma ThreadStepLock(m: Shared, t: nat, pc: Pc, done: bool)
    requires HoldsLock(pc) <==> m.lock == Some(t)
    ensures var (m', pc') := ThreadStep(m, t, pc, done);
            (HoldsLock(pc') <==> m'.lock == Some(t)) &&
            (m'.lock == m.lock || (m.lock == None && m'.lock == Some(t)) || (m.lock == Some(t) && m'.lock == None))
  {}

  /** The lock holder's action keeps what holders rely on ... */
  lemma HolderStepInv(m: Shared, t: nat, pc: Pc, done: bool)
    requires HolderInv(m, pc) && HoldsLock(pc)
    ensures var (m', pc') := ThreadStep(m, t, pc, done); HolderInv(m', if HoldsLock(pc') then pc' else Outside)
  {}

  /** ... taking the lock establishes it ... */
  lemma AcquireInv(m: Shared, t: nat, pc: Pc, done: bool)
    requires HolderInv(m, Outside) && m.lock.None? && !HoldsLock(pc)
    ensures var (m', pc') := ThreadStep(m, t, pc, done); HolderInv(m', if HoldsLock(pc') then pc' else Outside)
  {}

  /** ... and a thread without the lock cannot disturb the holder. */
  lemma OtherStepInv(m: Shared, t: nat, pc: Pc, done: bool, holder: Pc)
    requires HolderInv(m, holder) && m.lock.Some? && m.lock != Some(t) && !HoldsLock(pc)
    ensures HolderInv(ThreadStep(m, t, pc, done).0, holder)
  {}

  lemma WorkStepInv(m: Shared, done: bool, holder: Pc)
    requires HolderInv(m, holder)
    ensures HolderInv(WorkStep(m, done), holder)
  {}

  lemma ActKeepsInv(s: State, t: nat, done: bool)
    requires Inv(s)
    ensures Inv(Step(s, Act(t, done)))
  {
    var s' := Step(s, Act(t, done));
    var (m', pc') := ThreadStep(s.m, t, PcOf(s, t), done);
    assert LockAgrees(s, t);
    ThreadStepLock(s.m, t, PcOf(s, t), done);
    forall u: nat ensures LockAgrees(s', u) {
      assert LockAgrees(s, u);
      assert PcOf(s', u) == if u == t then pc' else PcOf(s, u);
    }
    if s.m.lock == Some(t) { HolderStepInv(s.m, t, PcOf(s, t), done); }
    else if s.m.lock.None? { AcquireInv(s.m, t, PcOf(s, t), done); }
    else { OtherStepInv(s.m, t, PcOf(s, t), done, HolderPc(s)); }
  }

  lemma StepKeepsInv(s: State, e: Event)
    requires Inv(s)
    ensures Inv(Step(s, e))
  {
    var s' := Step(s, e);
    match e
    case Act(t, done) => ActKeepsInv(s, t, done);
    case Enter(t, call) =>
      assert LockAgrees(s, t);
      forall u: nat ensures LockAgrees(s', u) { assert LockAgrees(s, u); }
    case Fire =>
      forall u: nat ensures LockAgrees(s', u) { assert LockAgrees(s, u) && PcOf(s', u) == PcOf(s, u); }
    case Work(done) =>
      forall u: nat ensures LockAgrees(s', u) { assert LockAgrees(s, u) && PcOf(s', u) == PcOf(s, u); }
      WorkStepInv(s.m, done, HolderPc(s));
  }

  lemma {:induction false} RunKeepsInv(s: State, es: seq<Event>)
    requires Inv(s)
    ensures Inv(Run(s, es))
    decreases |es|
  {
    if es != [] {
      StepKeepsInv(s, es[0]);
      RunKeepsInv(Step(s, es[0]), es[1..]);
    }
  }

  /** Some run leads to the state. */
  ghost predicate Reachable(s: State) {
    exists es: seq<Event> :: Run(INITIAL, es) == s
  }

  lemma ReachableInv(s: State)
    requires Reachable(s)
    ensures Inv(s)
  {
    var es: seq<Event> :| Run(INITIAL, es) == s;
    RunKeepsInv(INITIAL, es);
  }

  // ---------------------------------------------------------------- what every run keeps

  /** At most one thread is between taking and releasing the state lock. */
  lemma MutualExclusion(s: State, t: nat, u: nat)
    requires Reachable(s) && HoldsLock(PcOf(s, t)) && HoldsLock(PcOf(s, u))
    ensures t == u
  {
    ReachableInv(s);
    assert LockAgrees(s, t) && LockAgrees(s, u);
  }

  /** A run that is announced while nobody holds the lock has its completion work queued or executing. */
  lemma RunningHasWorker(s: State)
    requires Reachable(s) && s.m.running && s.m.lock.None?
    ensures WorkerLive(s.m)
  {
    ReachableInv(s);
  }

  /** `running` goes from 0 to 1 only when the work function is neither queued nor executing. */
  lemma StartsWithoutWorker(s: State, e: Event)
    requires Reachable(s) && !s.m.running && Step(s, e).m.running
    ensures !WorkerLive(s.m) && Step(s, e).m.epoch == s.m.epoch + 1
  {
    ReachableInv(s);
    assert e.Act? && PcOf(s, e.t) == InStart(SSet);
    assert LockAgrees(s, e.t);
  }

  /** When RESET releases the lock, nothing runs, no work is left and the device is held in reset. */
  lemma ResetLeavesDeviceQuiet(s: State, t: nat, done: bool)
    requires Reachable(s) && PcOf(s, t) == InReset(RUnlock)
    ensures var m := Step(s, Act(t, done)).m;
            m.lock.None? && !m.running && !WorkerLive(m) && m.inReset
  {
    ReachableInv(s);
    assert LockAgrees(s, t);
  }

  /** The completion work never ends a run on a status it read before that run was let out of reset. */
  lemma WorkerNeverStale(s: State)
    requires Reachable(s) && s.m.work.WorkClear?
    ensures s.m.work.tag == s.m.epoch
  {
    ReachableInv(s);
  }

  /** No deadlock between a flush and the work it waits for: the work function can always act. */
  lemma FlushWaitsForWorkOnly(s: State, t: nat, done: bool)
    requires Reachable(s) && Flushing(PcOf(s, t)) && PcOf(Step(s, Act(t, done)), t) == PcOf(s, t)
    ensures Step(s, Work(done)).m.work != s.m.work && !Step(s, Work(done)).m.pending
  {
    ReachableInv(s);
    assert LockAgrees(s, t);
  }

  // ---------------------------------------------------------------- how runs end

  /** RESET's store to `running`. */
  predicate ResetClears(s: State, e: Event) { e.Act? && PcOf(s, e.t) == InReset(RClear) }

  lemma WhoClears(s: State, e: Event)
    requires Inv(s) && s.m.running && !Step(s, e).m.running
    ensures || ResetClears(s, e)
            || (e.Work? && s.m.work == WorkClear(s.m.epoch))
            || (e.Act? && PcOf(s, e.t).PollClear?)
  {}

  /** Who acts in an event. */
  datatype Actor = Thread(t: nat) | Worker | Nobody

  function ActorOf(e: Event): Actor {
    match e
    case Act(t, _) => Thread(t)
    case Work(_) => Worker
    case Enter(_, _) => Nobody
    case Fire => Nobody
  }

  /** The state after the first `i` events. */
  function At(es: seq<Event>, i: nat): State
    requires i <= |es|
  {
    Run(INITIAL, es[..i])
  }

  /** Event `k` is a status read that finds the device done. */
  predicate FindsDone(es: seq<Event>, k: nat)
    requires k < |es|
  {
    || (es[k].Act? && es[k].done && PcOf(At(es, k), es[k].t) == PollRead)
    || (es[k] == Work(true) && At(es, k).m.work == WorkRead)
  }

  /** The latest action, before event `i`, of the one who acts in it is the status read `k`. */
  predicate DecidedBy(es: seq<Event>, k: nat, i: nat)
    requires i < |es|
  {
    && k < i && ActorOf(es[k]) == ActorOf(es[i]) && FindsDone(es, k)
    && forall n :: k < n < i ==> ActorOf(es[n]) != ActorOf(es[i])
  }

  /** Event `i` ends a run. */
  predicate Ends(es: seq<Event>, i: nat)
    requires i < |es|
  {
    At(es, i).m.running && !At(es, i + 1).m.running
  }

  /** The status read `k` was made when the run of event `i` had been let out of reset. */
  predicate OwnStatus(es: seq<Event>, k: nat, i: nat)
    requires k <= |es| && i <= |es|
  {
    At(es, k).m.released == At(es, i).m.epoch
  }

  /** The run that event `i` ends was ended by RESET, or by a status read after its own release. */
  ghost predicate EndedProperly(es: seq<Event>, i: nat)
    requires i < |es|
  {
    ResetClears(At(es, i), es[i]) || exists k :: 0 <= k < i && DecidedBy(es, k, i) && OwnStatus(es, k, i)
  }

  /** Event `i` is the store of a poll that read the status before the present run was released. */
  ghost predicate StaleStore(es: seq<Event>, i: nat)
    requires i < |es|
  {
    && es[i].Act? && PcOf(At(es, i), es[i].t).PollClear? && At(es, i).m.running
    && exists k :: 0 <= k < i && DecidedBy(es, k, i) && !OwnStatus(es, k, i)
  }

  lemma AtNext(es: seq<Event>, i: nat)
    requires i < |es|
    ensures At(es, i + 1) == Step(At(es, i), es[i])
  {
    assert es[..i + 1] == es[..i] + [es[i]];
    RunConcat(INITIAL, es[..i], [es[i]]);
    assert [es[i]][1..] == [];
  }

  lemma AtInv(es: seq<Event>, i: nat)
    requires i <= |es|
    ensures Inv(At(es, i))
  {
    RunKeepsInv(INITIAL, es[..i]);
  }

  /** A thread about to store holds the tag of the status read that was its latest action. */
  lemma {:induction false} PollReadBefore(es: seq<Event>, i: nat, t: nat) returns (k: nat)
    requires i <= |es| && PcOf(At(es, i), t).PollClear?
    ensures k < i && es[k].Act? && es[k].t == t && FindsDone(es, k)
    ensures At(es, k).m.released == PcOf(At(es, i), t).tag
    ensures forall n :: k < n < i ==> ActorOf(es[n]) != Thread(t)
    decreases i
  {
    assert i > 0;
    AtNext(es, i - 1);
    if ActorOf(es[i - 1]) == Thread(t) {
      k := i - 1;
    } else {
      assert PcOf(At(es, i - 1), t) == PcOf(At(es, i), t);
      k := PollReadBefore(es, i - 1, t);
    }
  }

  lemma {:induction false} WorkReadBefore(es: seq<Event>, i: nat) returns (k: nat)
    requires i <= |es| && At(es, i).m.work.WorkClear?
    ensures k < i && es[k].Work? && FindsDone(es, k) && At(es, k).m.released == At(es, i).m.work.tag
    ensures forall n :: k < n < i ==> ActorOf(es[n]) != Worker
    decreases i
  {
    assert i > 0;
    AtNext(es, i - 1);
    if es[i - 1].Work? {
      k := i - 1;
    } else {
      WorkKept(At(es, i - 1), es[i - 1]);
      k := WorkReadBefore(es, i - 1);
    }
  }

  lemma WorkKept(s: State, e: Event)
    requires !e.Work? && Step(s, e).m.work.WorkClear?
    ensures Step(s, e).m.work == s.m.work
  {}

  /** Event `i` ends a run: by RESET, by the run's own status, or by a stale store. */
  lemma HowRunsEnd(es: seq<Event>, i: nat)
    requires i < |es| && Ends(es, i)
    ensures EndedProperly(es, i) || StaleStore(es, i)
  {
    var s := At(es, i);
    AtInv(es, i);
    AtNext(es, i);
    WhoClears(s, es[i]);
    if es[i].Work? {
      var k := WorkReadBefore(es, i);
      assert DecidedBy(es, k, i) && OwnStatus(es, k, i);
    } else if !ResetClears(s, es[i]) {
      var k := PollReadBefore(es, i, es[i].t);
      assert DecidedBy(es, k, i);
      if OwnStatus(es, k, i) { assert EndedProperly(es, i); } else { assert StaleStore(es, i); }
    }
  }

  lemma StaleStoreEnds(es: seq<Event>, i: nat)
    requires i < |es| && StaleStore(es, i)
    ensures Ends(es, i) && !EndedProperly(es, i)
  {
    AtNext(es, i);
    var k :| 0 <= k < i && DecidedBy(es, k, i) && !OwnStatus(es, k, i);
    forall j | 0 <= j < i && DecidedBy(es, j, i) ensures j == k {}
  }

  /**
   Exactly when a whole history is sound: every run ends by RESET or by a status read after
   its own release, if and only if no poll stores on a status read before the release.
   */
  lemma RunsEndProperlyIff(es: seq<Event>)
    ensures (forall i :: 0 <= i < |es| && Ends(es, i) ==> EndedProperly(es, i))
       <==> (forall i :: 0 <= i < |es| ==> !StaleStore(es, i))
  {
    forall i | 0 <= i < |es| ensures StaleStore(es, i) ==> Ends(es, i) && !EndedProperly(es, i) {
      if StaleStore(es, i) { StaleStoreEnds(es, i); }
    }
    forall i | 0 <= i < |es| ensures Ends(es, i) ==> EndedProperly(es, i) || StaleStore(es, i) {
      if Ends(es, i) { HowRunsEnd(es, i); }
    }
  }

  /** No poll is between its status read and its store while a run is announced and not yet released. */
  ghost predicate QuietLaunches(es: seq<Event>) {
    forall i, t :: 0 <= i <= |es| && At(es, i).m.released < At(es, i).m.epoch ==> !PcOf(At(es, i), t).PollClear?
  }

  lemma ReleasedAtMost(es: seq<Event>, i: nat)
    requires i <= |es|
    ensures At(es, i).m.released <= At(es, i).m.epoch
  {
    AtInv(es, i);
  }

  lemma TagNext(s: State, e: Event, t: nat)
    requires s.m.released <= s.m.epoch && PcOf(Step(s, e), t).PollClear? && Step(s, e).m.released == Step(s, e).m.epoch
    ensures if ActorOf(e) == Thread(t) then PcOf(Step(s, e), t).tag == Step(s, e).m.epoch
            else PcOf(Step(s, e), t) == PcOf(s, t) && Step(s, e).m.epoch == s.m.epoch
  {}

  /** Then a poll that is about to store holds the tag of the present run. */
  lemma {:induction false} QuietTag(es: seq<Event>, i: nat, t: nat)
    requires QuietLaunches(es) && i <= |es| && PcOf(At(es, i), t).PollClear?
    ensures PcOf(At(es, i), t).tag == At(es, i).m.epoch
    decreases i
  {
    assert i > 0;
    AtNext(es, i - 1);
    ReleasedAtMost(es, i);
    ReleasedAtMost(es, i - 1);
    TagNext(At(es, i - 1), es[i - 1], t);
    if ActorOf(es[i - 1]) != Thread(t) { QuietTag(es, i - 1, t); }
  }

  /** So a launch that no poll straddles is enough for every run to end properly. */
  lemma QuietLaunchesSuffice(es: seq<Event>)
    requires QuietLaunches(es)
    ensures forall i :: 0 <= i < |es| && Ends(es, i) ==> EndedProperly(es, i)
  {
    forall i | 0 <= i < |es| ensures !StaleStore(es, i) { QuietStore(es, i); }
    RunsEndProperlyIff(es);
  }

  lemma QuietStore(es: seq<Event>, i: nat)
    requires QuietLaunches(es) && i < |es|
    ensures !StaleStore(es, i)
  {
    if es[i].Act? && PcOf(At(es, i), es[i].t).PollClear? {
      QuietTag(es, i, es[i].t);
      var k := PollReadBefore(es, i, es[i].t);
      forall j | 0 <= j < i && DecidedBy(es, j, i) ensures OwnStatus(es, j, i) { SameReader(es, j, k, i); }
    }
  }

  lemma SameReader(es: seq<Event>, j: nat, k: nat, i: nat)
    requires i < |es| && DecidedBy(es, j, i) && k < i && ActorOf(es[k]) == ActorOf(es[i])
    requires forall n :: k < n < i ==> ActorOf(es[n]) != ActorOf(es[i])
    ensures j == k
  {}

  // ---------------------------------------------------------------- two ways to lose a run

  function Times(e: Event, n: nat): (es: seq<Event>)
    ensures |es| == n && forall i :: 0 <= i < n ==> es[i] == e
  {
    if n == 0 then [] else [e] + Times(e, n - 1)
  }

  /** The number of actions a START takes that finds nothing running. */
  const START_ACTIONS: nat := 10

  /** A poll whose status read precedes START, and whose store follows it; later reads find nothing. */
  function StaleRun(): (es: seq<Event>)
    ensures forall i :: 2 < i < |es| ==> es[i] in {Act(2, false), Act(1, false), Fire, Work(false)}
  {
    [Enter(1, CallPoll), Act(1, true), Enter(2, CallStart)] + Times(Act(2, false), START_ACTIONS) +
    [Act(1, false), Fire, Work(false)]
  }

  lemma {:induction false} RunConcat(s: State, es: seq<Event>, fs: seq<Event>)
    ensures Run(s, es + fs) == Run(Run(s, es), fs)
    decreases |es|
  {
    if es == [] {
      assert es + fs == fs;
    } else {
      assert (es + fs)[1..] == es[1..] + fs;
      RunConcat(Step(s, es[0]), es[1..], fs);
    }
  }

  lemma RunThree(s: State, a: Event, b: Event, c: Event)
    ensures Run(s, [a, b, c]) == Step(Step(Step(s, a), b), c)
  {
    assert [a, b, c][1..] == [b, c] && [b, c][1..] == [c] && [c][1..] == [];
    assert Run(s, [a, b, c]) == Run(Step(s, a), [b, c]) == Run(Step(Step(s, a), b), [c]);
    assert Run(Step(Step(s, a), b), [c]) == Run(Step(Step(Step(s, a), b), c), []);
  }

  /** `n` actions of thread 2 in a row. */
  function Acts(s: State, n: nat): State
    decreases n
  {
    if n == 0 then s else Acts(Step(s, Act(2, false)), n - 1)
  }

  lemma {:induction false} RunActs(s: State, n: nat)
    ensures Run(s, Times(Act(2, false), n)) == Acts(s, n)
    decreases n
  {
    if n > 0 {
      assert Times(Act(2, false), n)[1..] == Times(Act(2, false), n - 1);
      RunActs(Step(s, Act(2, false)), n - 1);
    }
  }

  lemma StartReachesSet(s: State)
    requires PcOf(s, 2) == InStart(SLock) && s.m.lock.None? && !s.m.running && s.m.work.NotExecuting?
    ensures var a := Acts(s, 5);
            PcOf(a, 2) == InStart(SWritePc) && PcOf(a, 1) == PcOf(s, 1) &&
            a.m == s.m.(lock := Some(2), running := true, pending := false, canceling := false, epoch := s.m.epoch + 1)
  {}

  lemma StartFinishes(s: State)
    requires PcOf(s, 2) == InStart(SWritePc) && s.m.lock == Some(2) && !s.m.canceling
    ensures var a := Acts(s, 5);
            PcOf(a, 1) == PcOf(s, 1) && a.m == s.m.(lock := None, pending := true, inReset := false, released := s.m.epoch)
  {}

  lemma {:induction false} ActsSum(s: State, m: nat, n: nat)
    ensures Acts(s, m + n) == Acts(Acts(s, m), n)
    decreases m
  {
    if m > 0 { ActsSum(Step(s, Act(2, false)), m - 1, n); }
  }

  lemma StartRuns(s: State)
    requires PcOf(s, 2) == InStart(SLock) && s.m.lock.None? && !s.m.running && s.m.work.NotExecuting?
    ensures var a := Run(s, Times(Act(2, false), START_ACTIONS));
            PcOf(a, 1) == PcOf(s, 1) && a.m.lock.None? && a.m.running && a.m.pending && !a.m.inReset &&
            a.m.work.NotExecuting? && a.m.epoch == s.m.epoch + 1
  {
    StartReachesSet(s);
    StartFinishes(Acts(s, 5));
    ActsSum(s, 5, 5);
    RunActs(s, START_ACTIONS);
  }

  /** The poll's status read, and START on its way in. */
  lemma StaleHead()
    ensures var s := Run(INITIAL, [Enter(1, CallPoll), Act(1, true), Enter(2, CallStart)]);
            PcOf(s, 1).PollClear? && PcOf(s, 2) == InStart(SLock) && s.m == INITIAL.m
  {
    RunThree(INITIAL, Enter(1, CallPoll), Act(1, true), Enter(2, CallStart));
  }

  /** The poll's store, the timer, and the work function that finds nothing running. */
  lemma StaleTail(s: State)
    requires PcOf(s, 1).PollClear? && s.m.lock.None? && s.m.pending && s.m.work.NotExecuting?
    ensures Run(s, [Act(1, false), Fire, Work(false)]).m == s.m.(running := false, pending := false)
  {
    RunThree(s, Act(1, false), Fire, Work(false));
  }

  /**
   A stale poll does lose a run: the device is out of reset, no status read since START
   has found it done, nobody has reset it, and yet nothing is announced as running and no
   work is left to notice completion.
   */
  lemma StalePollLosesRun()
    ensures var m := Run(INITIAL, StaleRun()).m;
            m.epoch == 1 && !m.inReset && !m.running && !WorkerLive(m) && m.lock.None?
  {
    var head := [Enter(1, CallPoll), Act(1, true), Enter(2, CallStart)];
    var tail := [Act(1, false), Fire, Work(false)];
    StaleHead();
    StartRuns(Run(INITIAL, head));
    StaleTail(Run(Run(INITIAL, head), Times(Act(2, false), START_ACTIONS)));
    RunThrough(INITIAL, head, Times(Act(2, false), START_ACTIONS), tail);
  }

  /**
   The second way: the status read falls after START has announced the run and before it has
   written the reset register, while the device still shows the previous run's status.
   */
  function WindowRun(): seq<Event> {
    [Enter(1, CallPoll), Enter(2, CallStart)] + Times(Act(2, false), HALF_START) + [Act(1, true)] +
    Times(Act(2, false), HALF_START) + [Act(1, false), Fire, Work(false)]
  }

  const HALF_START: nat := 5

  lemma WindowHead()
    ensures var s := Run(INITIAL, [Enter(1, CallPoll), Enter(2, CallStart)]);
            PcOf(s, 1) == PollRead && PcOf(s, 2) == InStart(SLock) && s.m == INITIAL.m
  {
    var a, b := Enter(1, CallPoll), Enter(2, CallStart);
    assert [a, b][1..] == [b] && [b][1..] == [];
    assert Run(INITIAL, [a, b]) == Run(Step(INITIAL, a), [b]) == Step(Step(INITIAL, a), b);
  }

  lemma WindowRead(s: State)
    requires PcOf(s, 1) == PollRead
    ensures var a := Run(s, [Act(1, true)]);
            a.m == s.m && PcOf(a, 1) == PollClear(s.m.released) && PcOf(a, 2) == PcOf(s, 2)
  {
    assert [Act(1, true)][1..] == [];
  }

  /** A run lost although the poll read the status after `running` was set: the device was still in reset. */
  lemma WindowPollLosesRun()
    ensures var m := Run(INITIAL, WindowRun()).m;
            m.epoch == 1 && !m.inReset && !m.running && !WorkerLive(m) && m.lock.None?
  {
    var head := [Enter(1, CallPoll), Enter(2, CallStart)];
    var acts, read, tail := Times(Act(2, false), HALF_START), [Act(1, true)], [Act(1, false), Fire, Work(false)];
    WindowHead();
    var s0 := Run(INITIAL, head);
    StartReachesSet(s0);
    RunActs(s0, HALF_START);
    var s1 := Run(s0, acts);
    WindowRead(s1);
    var s2 := Run(s1, read);
    StartFinishes(s2);
    RunActs(s2, HALF_START);
    StaleTail(Run(s2, acts));
    RunThrough(INITIAL, head, acts, read);
    RunThrough(INITIAL, head + acts + read, acts, tail);
  }

  lemma RunThrough(s: State, es: seq<Event>, fs: seq<Event>, gs: seq<Event>)
    ensures Run(s, es + fs + gs) == Run(Run(Run(s, es), fs), gs)
  {
    RunConcat(s, es, fs);
    RunConcat(s, es + fs, gs);
  }
}
