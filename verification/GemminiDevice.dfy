/**
 The accelerator's control: programming registers, the operand fetches, the computation and
 the write-back, driven by memory replies.
 */
module GemminiDevice {
  import opened Bits

  /** The buffers a job allocates. */
  datatype Buffer = M | K | O

  /** What the device does, in order. */
  datatype Action =
    | Allocate(buffer: Buffer, bytes: nat)
    | ReadMemory(buffer: Buffer, addr: Addr, bytes: nat)
    | Compute(opcode: Addr)
    | WriteMemory(addr: Addr, bytes: nat)
    | Release(buffer: Buffer)

  /** The programming registers. */
  datatype Job = Job(addrM: Addr, addrK: Addr, addrO: Addr, sizeM: Addr, sizeK: Addr, opcode: Addr)

  const CONV2D: nat := 0
  const CONV2D_GEMM: nat := 1
  const CONV3D: nat := 2
  const CONV3D_GEMM: nat := 3
  const MAXPOOL: nat := 4
  const MAXPOOL_GEMM: nat := 5
  const MM: nat := 7
  const MM_GEMM: nat := 8

  /** Elements of each buffer, on 64-bit words; pooling divides twice by the window. */
  predicate Startable(j: Job) {
    j.opcode <= MM_GEMM && ((j.opcode == MAXPOOL || j.opcode == MAXPOOL_GEMM) ==> j.sizeK != 0)
  }

  function Mul64(x: nat, y: nat): (r: nat)
    ensures r < TWO64
  {
    x * y % TWO64
  }

  function Div(x: nat, y: nat): (r: nat)
    requires y > 0
  {
    x / y
  }

  function ElementsM(j: Job): nat {
    var square := Mul64(j.sizeM, j.sizeM);
    if j.opcode == CONV2D_GEMM then Mul64(square, Mul64(j.sizeK, j.sizeK))
    else if j.opcode == CONV3D then Mul64(square, j.sizeM)
    else if j.opcode == CONV3D_GEMM then Mul64(Mul64(square, j.sizeM), Mul64(Mul64(j.sizeK, j.sizeK), j.sizeK))
    else square
  }

  function ElementsK(j: Job): nat {
    if j.opcode == CONV2D || j.opcode == CONV2D_GEMM then Mul64(j.sizeK, j.sizeK)
    else if j.opcode == CONV3D || j.opcode == CONV3D_GEMM then Mul64(Mul64(j.sizeK, j.sizeK), j.sizeK)
    else if j.opcode == MM || j.opcode == MM_GEMM then Mul64(j.sizeM, j.sizeM)
    else 0
  }

  function ElementsO(j: Job): nat
    requires Startable(j)
  {
    var square := Mul64(j.sizeM, j.sizeM);
    if j.opcode == CONV3D || j.opcode == CONV3D_GEMM then Mul64(square, j.sizeM)
    else if j.opcode == MAXPOOL || j.opcode == MAXPOOL_GEMM then Div(Div(square, j.sizeK), j.sizeK)
    else square
  }

  /** A started job with the bytes of its buffers; `k` is 0 when there is no second operand. */
  datatype Plan = Plan(job: Job, m: nat, k: nat, o: nat)

  function PlanOf(j: Job): Plan
    requires Startable(j)
  {
    Plan(j, Mul64(ElementsM(j), 4), Mul64(ElementsK(j), 4), Mul64(ElementsO(j), 4))
  }

  /** Register `index` replaced. */
  function Programmed(j: Job, index: nat, data: Addr): Job
    requires index <= 5
  {
    Job(if index == 0 then data else j.addrM, if index == 1 then data else j.addrK, if index == 2 then data else j.addrO,
        if index == 3 then data else j.sizeM, if index == 4 then data else j.sizeK, if index == 5 then data else j.opcode)
  }

  // ---------------------------------------------------------------- what one job must do

  function Allocations(p: Plan): seq<Action> {
    [Allocate(M, p.m), Allocate(O, p.o)] + if p.k > 0 then [Allocate(K, p.k)] else []
  }

  function Fetches(p: Plan): seq<Action> {
    [ReadMemory(M, p.job.addrM, p.m)] + if p.k > 0 then [ReadMemory(K, p.job.addrK, p.k)] else []
  }

  function Releases(p: Plan): seq<Action> { [Release(M), Release(O)] + if p.k > 0 then [Release(K)] else [] }

  /** Allocate, fetch `m`, fetch `k` if there is one, compute once, write `o` back, release. */
  function Trace(p: Plan): seq<Action> {
    Allocations(p) + Fetches(p) + [Compute(p.job.opcode), WriteMemory(p.job.addrO, p.o)] + Releases(p)
  }

  function Traces(plans: seq<Plan>): seq<Action> {
    if plans == [] then [] else Traces(plans[..|plans| - 1]) + Trace(plans[|plans| - 1])
  }

  lemma TracesGrow(plans: seq<Plan>, p: Plan)
    ensures Traces(plans + [p]) == Traces(plans) + Trace(p)
  {
    assert (plans + [p])[..|plans|] == plans;
  }

  /** The replies a job gets before its last, which answers the write. */
  function Operands(p: Plan): nat { if p.k > 0 then 2 else 1 }

  /** What the job has done when `operands` fetches have been answered and it waits for the next answer. */
  function Partial(p: Plan, operands: nat): seq<Action> {
    Allocations(p) +
    if operands == 0 then [ReadMemory(M, p.job.addrM, p.m)]
    else if operands < Operands(p) then Fetches(p)
    else Fetches(p) + [Compute(p.job.opcode), WriteMemory(p.job.addrO, p.o)]
  }

  lemma PartialGrows(p: Plan, operands: nat)
    requires 0 < operands <= Operands(p)
    ensures Partial(p, operands) ==
              Partial(p, operands - 1) + (if operands < Operands(p) then [ReadMemory(K, p.job.addrK, p.k)]
                                          else [Compute(p.job.opcode), WriteMemory(p.job.addrO, p.o)])
  {}

  lemma PartialEnds(p: Plan)
    ensures Partial(p, Operands(p)) + Releases(p) == Trace(p)
  {}

  // ---------------------------------------------------------------- allocation accounting

  function Balance(log: seq<Action>, b: Buffer): int {
    if log == [] then 0
    else
      var last := log[|log| - 1];
      Balance(log[..|log| - 1], b)
      + (if last.Allocate? && last.buffer == b then 1 else if last.Release? && last.buffer == b then -1 else 0)
  }

  lemma {:induction false} BalanceConcat(s: seq<Action>, t: seq<Action>, b: Buffer)
    ensures Balance(s + t, b) == Balance(s, b) + Balance(t, b)
    decreases t
  {
    if t == [] {
      assert s + t == s;
    } else {
      assert (s + t)[..|s + t| - 1] == s + t[..|t| - 1];
      BalanceConcat(s, t[..|t| - 1], b);
    }
  }

  lemma BalanceOne(a: Action, b: Buffer)
    ensures Balance([a], b) == (if a.Allocate? && a.buffer == b then 1 else if a.Release? && a.buffer == b then -1 else 0)
  {
    assert [a][..0] == [];
  }

  lemma BalancePair(x: Action, y: Action, b: Buffer)
    ensures Balance([x, y], b) == Balance([x], b) + Balance([y], b)
  {
    BalanceConcat([x], [y], b);
    assert [x] + [y] == [x, y];
  }

  lemma AllocationBalance(p: Plan, b: Buffer)
    ensures Balance(Allocations(p), b) == if b == K && p.k == 0 then 0 else 1
    ensures Balance(Releases(p), b) == -Balance(Allocations(p), b)
  {
    var am, ao, ak := Allocate(M, p.m), Allocate(O, p.o), Allocate(K, p.k);
    BalancePair(am, ao, b);
    BalancePair(Release(M), Release(O), b);
    BalanceConcat([am, ao], if p.k > 0 then [ak] else [], b);
    BalanceConcat([Release(M), Release(O)], if p.k > 0 then [Release(K)] else [], b);
    BalanceOne(am, b);
    BalanceOne(ao, b);
    BalanceOne(ak, b);
    BalanceOne(Release(M), b);
    BalanceOne(Release(O), b);
    BalanceOne(Release(K), b);
  }

  lemma {:induction false} QuietBalance(s: seq<Action>, b: Buffer)
    requires forall i :: 0 <= i < |s| ==> !s[i].Allocate? && !s[i].Release?
    ensures Balance(s, b) == 0
    decreases s
  {
    if s != [] { QuietBalance(s[..|s| - 1], b); }
  }

  /** A whole job releases exactly what it allocates. */
  lemma TraceBalances(p: Plan, b: Buffer)
    ensures Balance(Trace(p), b) == 0
  {
    var work := Fetches(p) + [Compute(p.job.opcode), WriteMemory(p.job.addrO, p.o)];
    AllocationBalance(p, b);
    QuietBalance(work, b);
    BalanceConcat(Allocations(p), work, b);
    BalanceConcat(Allocations(p) + work, Releases(p), b);
    assert Trace(p) == Allocations(p) + work + Releases(p);
  }

  /** After any number of whole jobs nothing is left allocated. */
  lemma {:induction false} AllReleased(plans: seq<Plan>, b: Buffer)
    ensures Balance(Traces(plans), b) == 0
    decreases plans
  {
    if plans != [] {
      var n := |plans| - 1;
      AllReleased(plans[..n], b);
      TraceBalances(plans[n], b);
      BalanceConcat(Traces(plans[..n]), Trace(plans[n]), b);
    }
  }

  /** In the middle of a job exactly its buffers are allocated, once each. */
  lemma WorkingBalance(plans: seq<Plan>, p: Plan, operands: nat, b: Buffer)
    ensures Balance(Traces(plans) + Partial(p, operands), b) == if b == K && p.k == 0 then 0 else 1
  {
    var work := Partial(p, operands)[|Allocations(p)|..];
    assert Partial(p, operands) == Allocations(p) + work;
    AllReleased(plans, b);
    AllocationBalance(p, b);
    QuietBalance(work, b);
    BalanceConcat(Allocations(p), work, b);
    BalanceConcat(Traces(plans), Partial(p, operands), b);
  }

  // ---------------------------------------------------------------- every moment of a run

  lemma AllocationPrefix(p: Plan, n: nat, b: Buffer)
    requires n <= |Allocations(p)|
    ensures 0 <= Balance(Allocations(p)[..n], b) <= 1
  {
    var am, ao := Allocate(M, p.m), Allocate(O, p.o);
    if n == 1 {
      assert Allocations(p)[..1] == [am];
    } else if n == 2 {
      BalancePair(am, ao, b);
      BalanceOne(ao, b);
      assert Allocations(p)[..2] == [am, ao];
    } else if n == 3 {
      AllocationBalance(p, b);
      assert Allocations(p)[..3] == Allocations(p);
    }
    BalanceOne(am, b);
  }

  lemma ReleasePrefix(p: Plan, n: nat, b: Buffer)
    requires n <= |Releases(p)|
    ensures -Balance(Allocations(p), b) <= Balance(Releases(p)[..n], b) <= 0
  {
    AllocationBalance(p, b);
    if n == 1 {
      assert Releases(p)[..1] == [Release(M)];
    } else if n == 2 {
      BalancePair(Release(M), Release(O), b);
      BalanceOne(Release(O), b);
      assert Releases(p)[..2] == [Release(M), Release(O)];
    } else if n == 3 {
      assert Releases(p)[..3] == Releases(p);
    }
    BalanceOne(Release(M), b);
  }

  lemma TracePrefix(p: Plan, n: nat, b: Buffer)
    requires n <= |Trace(p)|
    ensures 0 <= Balance(Trace(p)[..n], b) <= 1
  {
    var work := Fetches(p) + [Compute(p.job.opcode), WriteMemory(p.job.addrO, p.o)];
    var held, quiet := |Allocations(p)|, |Allocations(p)| + |work|;
    assert Trace(p) == Allocations(p) + work + Releases(p);
    AllocationBalance(p, b);
    if n <= held {
      assert Trace(p)[..n] == Allocations(p)[..n];
      AllocationPrefix(p, n, b);
    } else if n <= quiet {
      assert Trace(p)[..n] == Allocations(p) + work[..n - held];
      QuietBalance(work[..n - held], b);
      BalanceConcat(Allocations(p), work[..n - held], b);
    } else {
      assert Trace(p)[..n] == Allocations(p) + work + Releases(p)[..n - quiet];
      QuietBalance(work, b);
      BalanceConcat(Allocations(p), work, b);
      BalanceConcat(Allocations(p) + work, Releases(p)[..n - quiet], b);
      ReleasePrefix(p, n - quiet, b);
    }
  }

  lemma {:induction false} TracesPrefix(plans: seq<Plan>, n: nat, b: Buffer)
    requires n <= |Traces(plans)|
    ensures 0 <= Balance(Traces(plans)[..n], b) <= 1
    decreases plans
  {
    if plans != [] {
      var last := |plans| - 1;
      var front := Traces(plans[..last]);
      if n <= |front| {
        TracesPrefix(plans[..last], n, b);
        assert Traces(plans)[..n] == front[..n];
      } else {
        assert Traces(plans)[..n] == front + Trace(plans[last])[..n - |front|];
        BalanceConcat(front, Trace(plans[last])[..n - |front|], b);
        AllReleased(plans[..last], b);
        TracePrefix(plans[last], n - |front|, b);
      }
    }
  }

  /** At no moment of any run is a buffer allocated while it is held, or released while it is not. */
  lemma NeverTwice(plans: seq<Plan>, p: Plan, operands: nat, n: nat, b: Buffer)
    requires n <= |Traces(plans) + Partial(p, operands)|
    ensures 0 <= Balance((Traces(plans) + Partial(p, operands))[..n], b) <= 1
  {
    assert Partial(p, operands) <= Trace(p);
    TracesGrow(plans, p);
    TracesPrefix(plans + [p], n, b);
    assert (Traces(plans) + Partial(p, operands))[..n] == Traces(plans + [p])[..n];
  }

  // ---------------------------------------------------------------- the device

  class Gemmini {
    var regs: Job
    var idle: bool
    var hasOperands: nat
    var mSize: nat
    var kSize: nat
    var oSize: nat
    /** The access whose reply is awaited: a read brings data, a write none. */
    var waiting: bool
    var awaitsData: bool
    ghost var log: seq<Action>
    ghost var plans: seq<Plan>

    ghost function Current(): Plan
      reads this
    {
      Plan(regs, mSize, kSize, oSize)
    }

    /**
     Every run so far is whole jobs in the order they were started, followed by what the
     current job has done; the device waits for exactly one reply while it works.
     */
    ghost predicate Valid()
      reads this
    {
      && (idle ==> !waiting && hasOperands == 0 && log == Traces(plans))
      && (!idle ==>
            && Startable(regs) && Current() == PlanOf(regs) && waiting && hasOperands <= Operands(Current())
            && awaitsData == (hasOperands < Operands(Current()))
            && log == Traces(plans) + Partial(Current(), hasOperands))
    }

    constructor (regs: Job)
      ensures Valid() && idle && plans == []
    {
      this.regs, idle, hasOperands, mSize, kSize, oSize := regs, true, 0, 0, 0, 0;
      log, plans, waiting, awaitsData := [], [], false, false;
    }

    /** One step of the control: fetch what is missing, else compute and write back. */
    method ProcessFsm()
      modifies this`log, this`waiting, this`awaitsData
      ensures waiting && awaitsData == (hasOperands == 0 || hasOperands < Operands(Current()))
      ensures log == old(log) + (if hasOperands == 0 then [ReadMemory(M, regs.addrM, mSize)]
                                 else if hasOperands < Operands(Current()) then [ReadMemory(K, regs.addrK, kSize)]
                                 else [Compute(regs.opcode), WriteMemory(regs.addrO, oSize)])
    {
      waiting := true;
      if hasOperands == 0 {
        log, awaitsData := log + [ReadMemory(M, regs.addrM, mSize)], true;
      } else if hasOperands == 1 && kSize > 0 {
        log, awaitsData := log + [ReadMemory(K, regs.addrK, kSize)], true;
      } else {
        log := log + [Compute(regs.opcode), WriteMemory(regs.addrO, oSize)];
        awaitsData := false;
      }
    }

    /** Size and allocate the buffers, and begin with the first fetch. */
    method Start()
      requires Startable(regs) && hasOperands == 0 && !idle && log == Traces(plans)
      modifies this`mSize, this`kSize, this`oSize, this`log, this`waiting, this`awaitsData
      ensures Valid()
    {
      mSize, kSize, oSize := Mul64(ElementsM(regs), 4), Mul64(ElementsK(regs), 4), Mul64(ElementsO(regs), 4);
      log := log + [Allocate(M, mSize), Allocate(O, oSize)];
      if kSize > 0 { log := log + [Allocate(K, kSize)]; }
      assert log == old(log) + Allocations(Current());
      ProcessFsm();
      assert log == old(log) + Partial(Current(), 0);
    }

    /** A register write; false stands for the panic of a busy device, a bad register or a bad opcode. */
    method WriteRegister(index: nat, data: Addr) returns (ok: bool)
      requires Valid()
      modifies this
      ensures ok <==> old(idle) && (index <= 5 || (index == 6 && Startable(old(regs))))
      ensures ok ==> Valid() && plans == old(plans)
      ensures ok && index <= 5 ==> idle && log == old(log) && regs == Programmed(old(regs), index, data)
      ensures ok && index == 6 ==> !idle && hasOperands == 0 && regs == old(regs)
      ensures !old(idle) ==> !ok && log == old(log) && regs == old(regs) && Valid()
    {
      if !idle { return false; }
      match index {
        case 0 => regs := regs.(addrM := data);
        case 1 => regs := regs.(addrK := data);
        case 2 => regs := regs.(addrO := data);
        case 3 => regs := regs.(sizeM := data);
        case 4 => regs := regs.(sizeK := data);
        case 5 => regs := regs.(opcode := data);
        case 6 =>
          idle := false;
          if !Startable(regs) { return false; }
          Start();
        case _ => return false;
      }
      ok := true;
    }

    /** The reply to the awaited access: data for a read, none for the write that ends the job. */
    method ReceiveData(data: bool)
      requires Valid() && waiting && data == awaitsData
      modifies this
      ensures Valid() && regs == old(regs)
      ensures data ==> !idle && plans == old(plans) && hasOperands == old(hasOperands) + 1
      ensures !data ==> idle && hasOperands == 0 && plans == old(plans) + [old(Current())]
    {
      if data { Advance(); } else { Finish(); }
    }

    method Advance()
      requires Valid() && waiting && awaitsData
      modifies this`hasOperands, this`log, this`waiting, this`awaitsData
      ensures Valid() && hasOperands == old(hasOperands) + 1
    {
      hasOperands := hasOperands + 1;
      ProcessFsm();
      NextLog(plans, Current(), hasOperands);
    }

    method Finish()
      requires log == Traces(plans) + Partial(Current(), Operands(Current()))
      modifies this`idle, this`hasOperands, this`log, this`waiting, this`plans
      ensures idle && !waiting && hasOperands == 0 && plans == old(plans) + [Current()] && log == Traces(plans)
    {
      ghost var p, before := Current(), log;
      LastLog(plans, p, before);
      FreeBuffers();
      assert log == before + Releases(p);
      plans := plans + [p];
      idle, waiting, hasOperands := true, false, 0;
    }

    method FreeBuffers()
      modifies this`log
      ensures log == old(log) + Releases(Current())
    {
      log := log + [Release(M), Release(O)];
      if kSize > 0 { log := log + [Release(K)]; }
    }
  }

  lemma NextLog(plans: seq<Plan>, p: Plan, operands: nat)
    requires 0 < operands <= Operands(p)
    ensures Traces(plans) + Partial(p, operands) ==
              (Traces(plans) + Partial(p, operands - 1)) +
              (if operands < Operands(p) then [ReadMemory(K, p.job.addrK, p.k)]
               else [Compute(p.job.opcode), WriteMemory(p.job.addrO, p.o)])
  {
    PartialGrows(p, operands);
  }

  lemma LastLog(plans: seq<Plan>, p: Plan, log: seq<Action>)
    requires log == Traces(plans) + Partial(p, Operands(p))
    ensures log + Releases(p) == Traces(plans + [p])
  {
    TracesGrow(plans, p);
    PartialEnds(p);
    assert log + Releases(p) == Traces(plans) + (Partial(p, Operands(p)) + Releases(p));
  }
}
