/** Dispatch: a submitted descriptor is validated, run by the kernel for its opcode and completed. */
module HybridDispatch {
  import opened Bits
  import opened Int8
  import opened HybridConv
  import opened HybridOperator
  import opened HybridDense
  import opened DenseOperator

  predicate IsConv(opcode: nat) { opcode == OP_CONV_2D || opcode == OP_DEPTHWISE_CONV_2D }

  predicate IsDense(opcode: nat) { opcode == OP_MATMUL || opcode == OP_FULLY_CONNECTED }

  /** The integer kernels. */
  predicate IsInteger(opcode: nat) { IsConv(opcode) || IsDense(opcode) || opcode == OP_ADD }

  predicate IsFloat(opcode: nat) { opcode == OP_SOFTMAX || opcode == OP_LAYER_NORM }

  predicate Depthwise(opcode: nat) { opcode == OP_DEPTHWISE_CONV_2D }

  predicate Connected(opcode: nat) { opcode == OP_FULLY_CONNECTED }

  /** What is assumed of a convolution; the other kernels need nothing. */
  predicate Assumed(opcode: nat, j: Job, base: nat, capacity: nat) {
    IsConv(opcode) ==> ConvAssumed(j, base, capacity, Depthwise(opcode))
  }

  /** The integer kernel accepts the job and the data. */
  predicate Runs(opcode: nat, j: Job, base: nat, m: seq<Byte>)
    requires IsInteger(opcode) && BodyOk(j, base, |m|) && Assumed(opcode, j, base, |m|)
  {
    if IsConv(opcode) then ConvRuns(j, base, m, Depthwise(opcode))
    else if IsDense(opcode) then DenseValid(j, Connected(opcode))
    else AddValid(j)
  }

  /** From memory `m` to memory `m'`: the kernel's output when it runs, nothing otherwise. */
  ghost predicate Left(opcode: nat, j: Job, base: nat, m: seq<Byte>, m': seq<Byte>)
    requires IsInteger(opcode) && BodyOk(j, base, |m|) && Assumed(opcode, j, base, |m|)
  {
    if IsConv(opcode) then ConvOutcome(j, base, m, m', Depthwise(opcode))
    else if IsDense(opcode) then DenseOutcome(j, base, m, m', Connected(opcode))
    else AddOutcome(j, base, m, m')
  }

  function Operations(opcode: nat, j: Job): nat {
    if IsConv(opcode) then ConvOperations(j, Depthwise(opcode))
    else if IsDense(opcode) && 3 <= j.tensorCount <= 4 then DenseOperations(j)
    else Count(j.tensors[2])
  }

  function BytesRead(opcode: nat, j: Job): nat {
    if IsConv(opcode) then ConvBytesRead(j) else if IsDense(opcode) then DenseBytesRead(j)
    else (j.tensors[0].size + j.tensors[1].size) % TWO32
  }

  /** Only the bytes of the job's last tensor, its output, may differ. */
  predicate OutputOnly(j: Job, base: nat, m: seq<Byte>, m': seq<Byte>) {
    && 0 < j.tensorCount <= MAX_TENSORS && j.tensors[j.tensorCount - 1].address >= base
    && SameOutside(m', m, j.tensors[j.tensorCount - 1].address - base, j.tensors[j.tensorCount - 1].size)
  }

  lemma ConvFrame(j: Job, base: nat, m: seq<Byte>, m': seq<Byte>, depthwise: bool)
    requires BodyOk(j, base, |m|) && ConvAssumed(j, base, |m|, depthwise) && ConvOutcome(j, base, m, m', depthwise)
    requires ConvRuns(j, base, m, depthwise)
    ensures OutputOnly(j, base, m, m')
  {
    assert TensorOk(j.tensors[3], base, |m|);
    AcceptedIsSound(j, base, |m|, depthwise);
    CountIsVolume(j.tensors[3]);
    var g := Geometry(j, base, depthwise);
    ConvRunFrame(g, m, g.output.n, 0, 0, 0);
  }

  lemma DenseFrame(j: Job, base: nat, m: seq<Byte>, m': seq<Byte>, connected: bool)
    requires BodyOk(j, base, |m|) && DenseValid(j, connected) && DenseOutcome(j, base, m, m', connected)
    ensures OutputOnly(j, base, m, m')
  {
    DenseIsSound(j, base, |m|, connected);
    var g := DenseGeometry(j, base, connected);
    DenseRunFrame(g, m, g.rows, 0);
  }

  lemma AddFrame(j: Job, base: nat, m: seq<Byte>, m': seq<Byte>)
    requires BodyOk(j, base, |m|) && AddValid(j) && AddOutcome(j, base, m, m')
    ensures OutputOnly(j, base, m, m')
  {
    AddIsSound(j, base, |m|);
    AddRunFrame(SumGeometry(j, base), m, SumGeometry(j, base).count);
  }

  /** A kernel that does not run leaves memory alone; one that runs changes the output tensor only. */
  lemma LeftFrame(opcode: nat, j: Job, base: nat, m: seq<Byte>, m': seq<Byte>)
    requires IsInteger(opcode) && BodyOk(j, base, |m|) && Assumed(opcode, j, base, |m|) && Left(opcode, j, base, m, m')
    ensures if Runs(opcode, j, base, m) then OutputOnly(j, base, m, m') else m' == m
  {
    if Runs(opcode, j, base, m) {
      if IsConv(opcode) {
        ConvFrame(j, base, m, m', Depthwise(opcode));
      } else if IsDense(opcode) {
        DenseFrame(j, base, m, m', Connected(opcode));
      } else {
        AddFrame(j, base, m, m');
      }
    }
  }

  /** The descriptor with the counts of a kernel that ran. */
  function Counted(d: Descriptor): Descriptor {
    d.(operationCount := Operations(d.opcode, d.job), bytesRead := BytesRead(d.opcode, d.job),
       bytesWritten := if 0 < d.job.tensorCount <= MAX_TENSORS then d.job.tensors[d.job.tensorCount - 1].size else 0)
  }

  /** The two floating-point kernels are not opened: what they return, leave in memory and count. */
  datatype Outcome = Outcome(success: bool, mem: seq<Byte>, operations: nat, bytesRead: nat, bytesWritten: nat)

  class Device {
    const base: nat
    const mem: array<Byte>
    var d: Descriptor

    constructor (base: nat, mem: array<Byte>, d: Descriptor)
      ensures this.base == base && this.mem == mem && this.d == d
    {
      this.base, this.mem, this.d := base, mem, d;
    }

    /** Either convolution kernel; on failure neither memory nor the descriptor changes. */
    method RunConv(depthwise: bool) returns (ok: bool)
      requires BodyOk(d.job, base, mem.Length) && ConvAssumed(d.job, base, mem.Length, depthwise)
      modifies this`d, mem
      ensures ok <==> ConvRuns(old(d.job), base, old(mem[..]), depthwise)
      ensures ConvOutcome(old(d.job), base, old(mem[..]), mem[..], depthwise)
      ensures d == if !ok then old(d)
                   else old(d).(operationCount := ConvOperations(old(d.job), depthwise), bytesRead := ConvBytesRead(old(d.job)),
                                bytesWritten := old(d.job).tensors[3].size)
    {
      var j := d.job;
      ok := ConvolveJob(j, base, mem, depthwise);
      if !ok { return; }
      assert TensorOk(j.tensors[1], base, mem.Length) && TensorOk(j.tensors[3], base, mem.Length);
      var count := CountConv(j, depthwise);
      var bytes := CountConvBytes(j);
      d := d.(operationCount := count, bytesRead := bytes, bytesWritten := j.tensors[3].size);
    }

    /** The matrix product, or the fully connected kernel; on failure nothing changes. */
    method RunDense(connected: bool) returns (ok: bool)
      requires BodyOk(d.job, base, mem.Length)
      modifies this`d, mem
      ensures ok <==> DenseValid(old(d.job), connected)
      ensures DenseOutcome(old(d.job), base, old(mem[..]), mem[..], connected)
      ensures d == if !ok then old(d)
                   else old(d).(operationCount := DenseOperations(old(d.job)), bytesRead := DenseBytesRead(old(d.job)),
                                bytesWritten := old(d.job).tensors[old(d.job).tensorCount - 1].size)
    {
      var j := d.job;
      ok := MultiplyJob(j, base, mem, connected);
      if !ok { return; }
      var count := CountDense(j, connected);
      var bytes := CountDenseBytes(j);
      d := d.(operationCount := count, bytesRead := bytes, bytesWritten := j.tensors[j.tensorCount - 1].size);
    }

    /** The addition; on failure nothing changes. */
    method RunAdd() returns (ok: bool)
      requires BodyOk(d.job, base, mem.Length)
      modifies this`d, mem
      ensures ok <==> AddValid(old(d.job))
      ensures AddOutcome(old(d.job), base, old(mem[..]), mem[..])
      ensures d == if !ok then old(d)
                   else old(d).(operationCount := Count(old(d.job).tensors[2]), bytesRead := BytesRead(OP_ADD, old(d.job)),
                                bytesWritten := old(d.job).tensors[2].size)
    {
      var j := d.job;
      ok := AddJob(j, base, mem);
      if !ok { return; }
      var count := ElementCount(j.tensors[2]);
      d := d.(operationCount := count, bytesRead := (j.tensors[0].size + j.tensors[1].size) % TWO32, bytesWritten := j.tensors[2].size);
    }

    method RunOther(o: Outcome)
      requires |o.mem| == mem.Length
      modifies this`d, mem
      ensures mem[..] == o.mem
      ensures d == old(d).(operationCount := d.operationCount, bytesRead := d.bytesRead, bytesWritten := d.bytesWritten)
    {
      forall i | 0 <= i < mem.Length { mem[i] := o.mem[i]; }
      if o.success { d := d.(operationCount := o.operations, bytesRead := o.bytesRead, bytesWritten := o.bytesWritten); }
    }

    /** The integer kernel for the opcode. */
    method RunInteger() returns (success: bool)
      requires IsInteger(d.opcode) && BodyOk(d.job, base, mem.Length) && Assumed(d.opcode, d.job, base, mem.Length)
      modifies this`d, mem
      ensures success <==> Runs(old(d.opcode), old(d.job), base, old(mem[..]))
      ensures Left(old(d.opcode), old(d.job), base, old(mem[..]), mem[..])
      ensures !success ==> d == old(d)
      ensures if success then OutputOnly(old(d.job), base, old(mem[..]), mem[..]) else mem[..] == old(mem[..])
      ensures success ==> d == Counted(old(d))
    {
      if d.opcode == OP_CONV_2D || d.opcode == OP_DEPTHWISE_CONV_2D {
        success := RunConv(d.opcode == OP_DEPTHWISE_CONV_2D);
      } else if d.opcode == OP_MATMUL || d.opcode == OP_FULLY_CONNECTED {
        success := RunDense(d.opcode == OP_FULLY_CONNECTED);
      } else {
        success := RunAdd();
      }
      LeftFrame(old(d.opcode), old(d.job), base, old(mem[..]), mem[..]);
    }

    /** The kernel for the opcode; an unknown opcode sets the error. */
    method RunKernel(o: Outcome) returns (success: bool)
      requires |o.mem| == mem.Length && BodyOk(d.job, base, mem.Length) && Assumed(d.opcode, d.job, base, mem.Length)
      requires d.error == ERROR_NONE
      modifies this`d, mem
      ensures d == old(d).(error := d.error, operationCount := d.operationCount, bytesRead := d.bytesRead, bytesWritten := d.bytesWritten)
      ensures d.error == if IsInteger(d.opcode) || IsFloat(d.opcode) then ERROR_NONE else ERROR_UNSUPPORTED
      ensures success ==> d.error == ERROR_NONE
      ensures IsInteger(d.opcode) ==>
                && (success <==> Runs(d.opcode, d.job, base, old(mem[..])))
                && Left(d.opcode, d.job, base, old(mem[..]), mem[..])
                && (if success then OutputOnly(d.job, base, old(mem[..]), mem[..]) && d == Counted(old(d)) else mem[..] == old(mem[..]))
      ensures d.error == ERROR_UNSUPPORTED ==> mem[..] == old(mem[..])
    {
      success := false;
      if d.opcode == OP_CONV_2D || d.opcode == OP_DEPTHWISE_CONV_2D || d.opcode == OP_MATMUL || d.opcode == OP_FULLY_CONNECTED || d.opcode == OP_ADD {
        success := RunInteger();
      } else if d.opcode == OP_SOFTMAX || d.opcode == OP_LAYER_NORM {
        RunOther(o);
        success := o.success;
      } else {
        d := d.(error := ERROR_UNSUPPORTED);
      }
    }

    /**
     Validate, run the kernel for the opcode and record the outcome.  A descriptor that was
     not submitted again is refused before any kernel runs.
     */
    method Dispatch(o: Outcome) returns (ok: bool)
      requires |o.mem| == mem.Length && Assumed(d.opcode, d.job, base, mem.Length)
      modifies this`d, mem
      ensures d == old(d).(state := d.state, error := d.error, operationCount := d.operationCount, modeledCycles := d.modeledCycles,
                           bytesRead := d.bytesRead, bytesWritten := d.bytesWritten)
      ensures ok ==> d.state == STATE_COMPLETE && d.error == ERROR_NONE && d.modeledCycles == d.operationCount
      ensures !ok ==> d.state == STATE_ERROR && d.error != ERROR_NONE
      ensures !Validates(old(d), base, mem.Length) ==>
                && !ok && mem[..] == old(mem[..])
                && d == old(d).(state := STATE_ERROR, error := ValidationError(old(d), base, mem.Length))
      ensures Validates(old(d), base, mem.Length) && IsInteger(d.opcode) ==>
                && (ok <==> Runs(d.opcode, d.job, base, old(mem[..])))
                && Left(d.opcode, d.job, base, old(mem[..]), mem[..])
                && (ok ==> OutputOnly(d.job, base, old(mem[..]), mem[..]))
                && (!ok ==> d.error == ERROR_EXECUTION && mem[..] == old(mem[..]))
      ensures Validates(old(d), base, mem.Length) && IsInteger(d.opcode) && ok ==> d == Counted(d)
      ensures Validates(old(d), base, mem.Length) && !IsInteger(d.opcode) && !IsFloat(d.opcode) ==>
                !ok && d.error == ERROR_UNSUPPORTED && mem[..] == old(mem[..])
    {
      var valid, error := Validate(d, base, mem.Length);
      if !valid {
        d := d.(state := STATE_ERROR, error := error);
        return false;
      }
      d := d.(state := STATE_RUNNING, error := ERROR_NONE, modeledCycles := 0, bytesRead := 0, bytesWritten := 0);
      var success := RunKernel(o);
      if !success && d.error == ERROR_NONE { d := d.(error := ERROR_EXECUTION); }
      if success && d.modeledCycles == 0 { d := d.(modeledCycles := d.operationCount); }
      d := d.(state := if success then STATE_COMPLETE else STATE_ERROR);
      ok := success;
    }

    /** Dispatching again without submitting again is refused, and changes nothing in memory. */
    method DispatchTwice(o: Outcome, o': Outcome) returns (first: bool, second: bool, ghost after: seq<Byte>, ghost done: Descriptor)
      requires |o.mem| == mem.Length == |o'.mem| && Assumed(d.opcode, d.job, base, mem.Length)
      modifies this`d, mem
      ensures !second && mem[..] == after
      ensures d == done.(state := STATE_ERROR, error := ERROR_BAD_DESCRIPTOR)
      ensures done.state == if first then STATE_COMPLETE else STATE_ERROR
    {
      first := Dispatch(o);
      after, done := mem[..], d;
      second := Dispatch(o');
    }
  }
}
