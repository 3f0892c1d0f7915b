# Verified models of the OpenNPUX simulator stack

OpenNPUX joins a small NPU stack (host runtime, kernel driver, an AXI bridge to a
simulated core, int8 operator kernels) to gem5 support code. This project models the
parts of it where correctness is not obvious from any one function, and proves what those
parts promise, in Dafny 4.11. `dafny verify dfyconfig.toml` checks everything.

What is modelled, in the system's own terms:

* **Interleaved address ranges** (`Bits`, `Sorting`, `Interleave`, `InterleaveAdd`,
  `AddrRanges`, `AddrOffsets`, `AddrExclude`). A range may be one stripe of an interleaved
  region: bit `i` of the stripe number is the parity of the address under mask `i`. Removing
  the interleave bits, adding them back, flat offsets, stripe merging, containment and list
  subtraction are proved on 64-bit words, including the places where the code works on a
  32-bit `int`.
* **The AXI bridge** (`DmaBuilder`, `AxiPorts`, `AxiBridge`, `AxiMeaning`, `AxiCauses`,
  `AxiAddresses`, `AxiHandle`, `AxiHost`). Two bus drivers
  clocked by falling edges, the callbacks that answer or defer a request, the single DMA slot
  they share, and the host's completion call, as a transition system over arbitrary
  valid/ready wires. Bursts follow section A3.4.1 and responses section A3.4.4 of ARM
  IHI 0022E.
* **The register bank** (`Registers`, `RegisterBanks`, `BankContents`). Registers of either byte order with
  write masks, read and written partly or across several, refine one flat byte array.
* **Hybrid int8 operators** (`Reference`, `Arith`, `FixedPoint`, `Int8`, `Tensors`,
  `HybridConv`, `ConvMath`, `ConvOutput`, `HybridDense`, `DenseExact`, `HybridOperator`,
  `DenseOperator`, `HybridDispatch`, `HybridMeaning`, `Staging`, `StagedConv`,
  `HybridInvoke`). Requantisation, the five
  integer kernels (two convolutions, matrix product, fully connected, addition) on external
  memory, descriptor validation and dispatch, and the firmware's staging allocator, joined
  end to end: the bytes an offloaded convolution returns are the convolution of the client's
  own buffers. What the kernels are meant to compute is written out once more in `Reference`,
  as sums over the bytes of the tensors that share nothing with the kernels.
* **The kernel driver** (`CoralDriver`, `CoralCalls`). START, RESET, poll, release and the delayed
  completion work as small steps, interleaved in every possible way.
* **The Gemmini device** (`GemminiDevice`, `GemminiKernels`, `GemminiConv3`,
  `GemminiMeaning`). The control state machine over whole runs, the buffer sizes of every
  opcode, and the kernels against plain sums and against their matrix forms over exact
  numbers.

Main results:

* `AddAfterRemove`, `RemoveAfterAdd` and `AlwaysMatchesIff`: adding and removing interleave
  bits are inverse, and adding lands in the stripe for every input exactly when no mask holds
  the lowest bit of a later mask and a mask whose lowest bit is 31 is that bit alone.
  Pairwise disjoint masks with low bits below 31 always qualify (`DisjointIsTriangular`).
* `OffsetIncreases`, `OffsetBelowSize`, `OffsetReached`: offsets of one stripe are an order
  preserving bijection onto `[0, size)`, so the offset is the rank of the address.
* `ReadsAnswered`, `WritesAnswered`, `OneSlotExact`: over all runs every taken address and
  every beat is answered or submitted exactly once, and a step keeps this exactly when it does
  not overwrite a held request. `LostReadReachable` and `LostForever` show the loss, and
  `HostSafeIff` what a host that only steps and completes must be spared: a clock in which
  both ports take the slot.
* `ReadRepliesJustified`, `WriteResponsesJustified`, `HostSees`: over all those runs each
  reply is the one its cause calls for. A request the host completed gets response 2 exactly
  when the host reported an error, and a completed read otherwise carries the host's bytes,
  each in its lane; refused bursts get 2; local reads carry the bytes of the memory, and
  registers their word. What the host is asked to move is what the core asked for.
* `LocalWrite`, `ReadAfterWrite`, `StepMemory`: a write the local memory takes puts every byte
  of every beat at its address and changes no other byte, a read of the same burst returns
  them, and along a run nothing else changes the memory but operator commands and enabling.
* `NothingDroppedIff`: the read driver takes every address that handshakes if and only if
  between any two handshakes some edge finds valid low; `DroppedReachable` is a run of four
  edges that drops one.
* `Perform`, `UnwritableKept`, `PlaceAllTilesIff`: any sequence of register accesses is a flat
  array's, and placing a list of registers leaves a tiled bank exactly when each starts at, or
  less than 2 GB past, the end of the ones before it. `PlaceAllContents` says what such a bank
  holds: every register's bytes in bus order at its offset, and the chosen filler between.
* `CellIsReference`, `RunConvolves`, `ConvCellExact`: every cell the convolution kernels
  compute is the reference cell, a strided sum over the zero-padded input with each index
  written out, on 32-bit words; an output apart from what is read holds these cells of the
  memory before, in two's complement; and where the zero points (`ProductExactIff`) and the
  coordinates fit, they are the cells of the exact convolution.
* `ValueIsAffine`, `ProductFitsIff`: the matrix product and the fully connected kernel write
  the clamped bias plus dot product plus zero point, over the matrices' own rows and columns,
  modulo 2^32, and the exact one for all data if and only if the
  least and the greatest possible value wrap together. `DepthLimits` puts that at depth 33025
  for zero points of -128 and at 131071 for zero points of 0. `SumFitsIff` is the same for
  addition.
* `Dispatch`: for all five integer opcodes, a kernel that fails leaves memory as it was and one
  that succeeds changes its output tensor only; `LeftMeans` says to what, in terms of the
  descriptor's dimensions, zero points and bytes.
* `Invoke` with `OutputIsMath`: the offloaded call stages exactly when the client's buffers,
  each rounded up, fit the arena, succeeds exactly when the kernels accept the client's
  convolution, and then returns it.
* `RunningHasWorker`, `StartsWithoutWorker`, `ResetLeavesDeviceQuiet`, `RunsEndProperlyIff`:
  the driver's lock and work discipline; every run ends by RESET or by a status read after its
  own release from reset, if and only if no poll stores on a status read before that release.
  `StalePollLosesRun` and `WindowPollLosesRun` are the two ways in which one does, and a
  caller is safe when no poll straddles a launch (`QuietLaunchesSuffice`).
* `StartReturns`, `ResetReturns`, `ReleaseReturns`, `PollReturns`: over all histories, what
  each call has done when it returns; in particular a release that finds a run announced
  leaves a quiet device in reset, and one that finds none changes nothing.
* `GemmConvolves2`, `GemmConvolves3`, `GemmIsProduct`, `PlanSizes`: the matrix kernels compute
  the convolutions and products of the loop kernels, and every opcode's buffers have the sizes
  its kernel reads and writes.

Conventions. Machine words are natural numbers below a power of two and every wrap-around is
written out. Bit operations are defined by halving, with `sim/gem5/src/base/bitfield.hh`
not part of this model: `ctz64`, `popCount`, `bits` and `insertBits` are given by their
documented meaning, and a field of width zero is empty. Code that updates state is modelled
by methods proved against functions of the old state; the properties are then proved about
those functions over all inputs or all runs. Panics, fatal errors and error codes are
results, not preconditions. Environment choices (wires, replies, device status, register
contents, the outcome of kernels outside the model) are parameters.

## Model

| member | source | states |
|---|---|---|
| Interleave.RemoveIntlvBits | sim/gem5/src/base/addr_range.hh:535-565 | Each turn over the sorted bit positions discards one bit, lower by the turns before; for masks with distinct lowest bits that squeezes out exactly those bits. |
| Interleave.RemovedIncreases | sim/gem5/src/base/addr_range.hh:535-565 | Removal is strictly increasing on the addresses of one stripe, although it forgets bits that differ between them. |
| Interleave.DisjointIsTriangular | sim/gem5/src/base/addr_range.hh:566-572 | Pairwise disjoint masks satisfy the ordering condition the round trips need. |
| InterleaveAdd.SpreadBits | sim/gem5/src/base/addr_range.hh:588-601 | The first loop opens one gap per mask, lowest position first. |
| InterleaveAdd.AddIntlvBits | sim/gem5/src/base/addr_range.hh:573-613 | Both loops together: gaps opened, then each gap bit set from the match value and the parity of the rest, with the `int` complement of line 607 kept as it is. |
| InterleaveAdd.AddedMatches | sim/gem5/src/base/addr_range.hh:573-613 | Whatever word goes in, the address that comes out selects the stripe. |
| InterleaveAdd.RemoveAfterAdd | sim/gem5/src/base/addr_range.hh:535-613 | Removing after adding is the identity on every word that fits 64 bits less one per mask. |
| InterleaveAdd.AddAfterRemove | sim/gem5/src/base/addr_range.hh:535-613 | Adding after removing is the identity on every address of the stripe. |
| InterleaveAdd.RemovedBound | sim/gem5/src/base/addr_range.hh:535-565 | A removed address fits the words the other direction takes. |
| InterleaveAdd.ForwardBitDefeats | sim/gem5/src/base/addr_range.hh:603-610 | A mask holding the lowest bit of a later mask makes some address miss its stripe. |
| InterleaveAdd.HighBitDefeats | sim/gem5/src/base/addr_range.hh:603-610 | A mask whose lowest bit is 31 and which has a higher bit makes some address miss its stripe. |
| InterleaveAdd.AlwaysMatchesIff | sim/gem5/src/base/addr_range.hh:573-613 | Adding lands in the stripe for all words and match values if and only if the masks are ordered and none starts at bit 31 with company. |
| AddrRanges.Contains | sim/gem5/src/base/addr_range.hh:488-508 | The parity loop decides membership: bounds plus every selector bit as the match value asks. |
| AddrRanges.SelIsTheMatch | sim/gem5/src/base/addr_range.hh:488-508 | The computed selector is the one match value whose stripe holds the address. |
| AddrRanges.StripesPartition | sim/gem5/src/base/addr_range.hh:488-508 | With up to eight masks each address of the bounds lies in exactly one stripe. |
| AddrRanges.FromMasks | sim/gem5/src/base/addr_range.hh:183-192 | The mask constructor refuses a match value that does not fit, and otherwise holds exactly the addresses with that selector. |
| AddrRanges.Merge | sim/gem5/src/base/addr_range.hh:107-142 | The merging constructor: empty, single, refused, or the plain range of the common bounds. |
| AddrRanges.MergedIsUnion | sim/gem5/src/base/addr_range.hh:107-142 | The merged range holds an address exactly when one of its stripes does. |
| AddrRanges.FromLegacy | sim/gem5/src/base/addr_range.hh:220-256 | The legacy constructor's refusals, and membership by the exclusive or of its two address fields. |
| AddrRanges.LegacySelector | sim/gem5/src/base/addr_range.hh:220-256 | The masks it builds compute that selector. |
| AddrOffsets.GetOffset | sim/gem5/src/base/addr_range.hh:628-640 | Inside the bounds the distance of the two reduced addresses, which for masks with distinct lowest bits is the offset; outside, the maximal address. |
| AddrOffsets.OffsetInjective | sim/gem5/src/base/addr_range.hh:628-640 | No two addresses of a stripe share an offset. |
| AddrOffsets.OffsetIncreases | sim/gem5/src/base/addr_range.hh:628-640 | Between bounds aligned above the highest mask bit a higher address of the stripe has a higher offset. |
| AddrOffsets.OffsetBelowSize | sim/gem5/src/base/addr_range.hh:325-329 | Between bounds aligned above the highest mask bit every offset is below `size()`. |
| AddrOffsets.OffsetReached | sim/gem5/src/base/addr_range.hh:628-640 | Every number below `size()` is the offset of an address of the stripe. |
| AddrOffsets.RemovedOnto | sim/gem5/src/base/addr_range.hh:535-565 | Every word that fits is the removed form of an address of the stripe, for masks that merely have distinct lowest bits. |
| AddrOffsets.Granularity | sim/gem5/src/base/addr_range.hh:293-306 | A power of two for the lowest bit used by any mask, defined exactly when some mask uses one of the low 32 bits. |
| AddrOffsets.EndPointsSuffice | sim/gem5/src/base/addr_range.hh:444-456 | Both end points in a stripe and a size of at most one block put the whole range in. |
| AddrOffsets.IsSubset | sim/gem5/src/base/addr_range.hh:444-478 | A true answer against an interleaved range means every address is contained; a false one means an address is missing or the range is larger than a block. |
| AddrExclude.Exclude | sim/gem5/src/base/addr_range.hh:656-696 | Sorted, disjoint, non-empty pieces that cover exactly the addresses in the range and in no excluded range. |
| AddrExclude.ExcludeList | sim/gem5/src/base/addr_range.hh:783-793 | The list form is set difference, address by address. |
| DmaBuilder.LanesFitIff | sim/coralnpu/hw_sim/gem5_bridge/gem5_dma_request_builder.h:27-35 | The lane loop accepts exactly bursts aligned to the beat or lying in one sixteen-byte line. |
| DmaBuilder.AlignedAccepted | sim/coralnpu/hw_sim/gem5_bridge/gem5_dma_request_builder.h:11-35 | An aligned incrementing burst is accepted if and only if a beat is at most sixteen bytes and no 4 KB boundary is crossed. |
| DmaBuilder.BuildReadRequest | sim/coralnpu/hw_sim/gem5_bridge/gem5_dma_request_builder.h:10-45 | Succeeds exactly on accepted bursts, with the request and the beat geometry. |
| DmaBuilder.WriteAcceptedIff | sim/coralnpu/hw_sim/gem5_bridge/gem5_dma_request_builder.h:47-96 | A write is built exactly when a read at its address would be, the last flags frame one burst and every transferred byte is strobed. |
| DmaBuilder.BuildWriteRequest | sim/coralnpu/hw_sim/gem5_bridge/gem5_dma_request_builder.h:47-96 | Success exactly on accepted writes, the bytes of all beats in order, and the slot kept, overwritten or half overwritten on each failure. |
| DmaBuilder.SplitIntoBeats | sim/coralnpu/hw_sim/gem5_bridge/coralnpu_gem5_abi.cc:793-811 | The beat loop places each group of bytes in its lanes, numbers the beats and marks the last. |
| DmaBuilder.SplitThenGather | sim/coralnpu/hw_sim/gem5_bridge/gem5_dma_request_builder.h:11-96 | Beats sent back fully strobed build a write request with the original bytes, for every accepted burst. |
| AxiMeaning.TransferableIff | sim/coralnpu/hw_sim/gem5_bridge/gem5_dma_request_builder.h:10-35 | A burst is accepted if and only if it is incrementing, its beats have at most sixteen bytes, it stays in its 4 KB page and no beat crosses the end of the bus, with every lane written as (address + k * width) mod 16. |
| AxiMeaning.WritableIff | sim/coralnpu/hw_sim/gem5_bridge/gem5_dma_request_builder.h:47-96 | A write is accepted if and only if its burst is, it has one beat per transfer, the last flag is on the last beat and every lane that carries a byte is strobed. |
| AxiPorts.ReadAccounting | sim/coralnpu/hw_sim/gem5_bridge/gem5_axi_master_drivers.h:54-99 | Accepted addresses equal delivered last beats plus one while a request is pending. |
| AxiPorts.PopKeeps | sim/coralnpu/hw_sim/gem5_bridge/gem5_axi_master_drivers.h:55-66 | A response handshake removes the beat that was on the wire and ends the request exactly at its last beat. |
| AxiPorts.AnswerKeeps | sim/coralnpu/hw_sim/gem5_bridge/gem5_axi_master_drivers.h:47-49 | Queueing a well-formed reply to the one outstanding address restores the port's invariant. |
| AxiPorts.CaptureKeeps | sim/coralnpu/hw_sim/gem5_bridge/gem5_axi_master_drivers.h:201-213 | No address that handshakes is dropped. |
| AxiPorts.CollectKeeps | sim/coralnpu/hw_sim/gem5_bridge/gem5_axi_master_drivers.h:215-222 | No beat that handshakes is dropped, and only a complete burst ends in a last beat. |
| AxiPorts.SubmitKeeps | sim/coralnpu/hw_sim/gem5_bridge/gem5_axi_master_drivers.h:224-228 | Submission hands over one address with one whole burst, once. |
| AxiPorts.PopResponseKeeps | sim/coralnpu/hw_sim/gem5_bridge/gem5_axi_master_drivers.h:181-191 | A delivered write response frees the port for the next transaction. |
| AxiBridge.DataBeats | sim/coralnpu/hw_sim/gem5_bridge/coralnpu_gem5_abi.cc:427-445 | A data reply has one beat per transfer under the request's identifier, no error, last only at the end. |
| AxiBridge.ReadReply | sim/coralnpu/hw_sim/gem5_bridge/coralnpu_gem5_abi.cc:365-465 | Every immediate answer, from a register, an error or local memory, is a proper reply to its address. |
| AxiBridge.ReadEffect | sim/coralnpu/hw_sim/gem5_bridge/coralnpu_gem5_abi.cc:418-464 | A read callback takes a free slot exactly when it gives no immediate answer. |
| AxiBridge.WriteEffect | sim/coralnpu/hw_sim/gem5_bridge/coralnpu_gem5_abi.cc:623-657 | The same for writes, with the gathered bytes in the slot. |
| AxiMeaning.ReadReplyIs | sim/coralnpu/hw_sim/gem5_bridge/coralnpu_gem5_abi.cc:365-465 | A read is passed to the host exactly when it is no register, transferable and not local; otherwise the answer is the register word in its lanes (error for anything but an aligned word), one beat with response 2, or one beat per transfer with the bytes of the local memory. |
| AxiMeaning.LocalWrite | sim/coralnpu/hw_sim/gem5_bridge/coralnpu_gem5_abi.cc:623-652 | A write the local memory takes puts byte i of beat k at its address, from lane (address + k * width) mod 16 + i, changes no other byte, and gets response 0. |
| AxiMeaning.OtherWrite | sim/coralnpu/hw_sim/gem5_bridge/coralnpu_gem5_abi.cc:466-657 | Every other write leaves the memory as it was, but for an operator command that is strobed and taken. |
| AxiMeaning.ReadAfterWrite | sim/coralnpu/hw_sim/gem5_bridge/coralnpu_gem5_abi.cc:427-652 | A local read of the burst just written returns, beat by beat, the lanes that were written. |
| AxiBridge.StepKeeps | sim/coralnpu/hw_sim/gem5_bridge/coralnpu_gem5_abi.cc:365-658 | Every edge, completion and enable call keeps the bridge's invariant unless it overwrites a held request. |
| AxiBridge.OneSlotExact | sim/coralnpu/hw_sim/gem5_bridge/coralnpu_gem5_abi.cc:365-658 | The invariant survives a step if and only if the step does not overwrite a held request. |
| AxiBridge.RunKeeps | sim/coralnpu/hw_sim/gem5_bridge/coralnpu_gem5_abi.cc:365-831 | The invariant holds at every point of every run under the one-slot rule. |
| AxiBridge.ReadsAnswered | sim/coralnpu/hw_sim/gem5_bridge/gem5_axi_master_drivers.h:54-99 | In every such run replies match taken addresses in order, full burst or single error beat; delivered beats are a prefix of the replies; no pop hits an empty queue. |
| AxiBridge.WritesAnswered | sim/coralnpu/hw_sim/gem5_bridge/gem5_axi_master_drivers.h:178-234 | In every such run each address and beat is in exactly one callback, in order, and each callback gets one response under its identifier. |
| AxiCauses.ReadRepliesJustified | sim/coralnpu/hw_sim/gem5_bridge/coralnpu_gem5_abi.cc:365-831 | In every such run the reply to each read taken is the one its cause calls for: what the bridge owes at once, or for a completed request one beat with response 2 exactly when the host reported an error and otherwise one beat per transfer carrying the host's bytes in their lanes. |
| AxiCauses.WriteResponsesJustified | sim/coralnpu/hw_sim/gem5_bridge/coralnpu_gem5_abi.cc:466-831 | In every such run each call's response is 2 for a refused burst, a masked word, a command not taken or a completion with an error, and 0 otherwise. |
| AxiCauses.HostSees | sim/coralnpu/hw_sim/gem5_bridge/coralnpu_gem5_abi.cc:418-657 | A pending request has the address, identifier and byte count of the last read taken, or of the last call with its bytes in order and zeros after them. |
| AxiCauses.CompletionTakes | sim/coralnpu/hw_sim/gem5_bridge/coralnpu_gem5_abi.cc:779-831 | A completion is taken exactly with a request pending and, for a read without error, data of its size; it then frees the slot and answers the request, and otherwise changes nothing. |
| AxiCauses.StepMemory | sim/coralnpu/hw_sim/gem5_bridge/coralnpu_gem5_abi.cc:466-848 | Along any run the local memory changes by the calls that store in it, by commands taken and by enabling, which clears it, and by nothing else. |
| AxiCauses.ReadWires | sim/coralnpu/hw_sim/gem5_bridge/gem5_axi_master_drivers.h:54-99 | A read edge delivers the beat that was taken from the wire, drives the next one, and raises ready exactly when every read taken has had its last beat. |
| AxiCauses.WriteWires | sim/coralnpu/hw_sim/gem5_bridge/gem5_axi_master_drivers.h:178-234 | A write edge acknowledges the response taken from the wire, drives the next one, leaves no whole burst with its address waiting, and raises each ready exactly when that channel is free. |
| AxiBridge.LastFlagNeverFails | sim/coralnpu/hw_sim/gem5_bridge/gem5_dma_request_builder.h:61-76 | For every burst the driver submits, the builder's last-flag test is redundant once the beat count is right. |
| AxiAddresses.SeenIsHeld | sim/coralnpu/hw_sim/gem5_bridge/gem5_axi_master_drivers.h:67-98 | In every run the driver's private flag is set exactly when valid was high at every read edge since the last taken address. |
| AxiAddresses.AddressTaken | sim/coralnpu/hw_sim/gem5_bridge/gem5_axi_master_drivers.h:67-98 | A read address handshake starts a request if and only if valid was low at some edge since the last taken address. |
| AxiAddresses.NothingDroppedIff | sim/coralnpu/hw_sim/gem5_bridge/gem5_axi_master_drivers.h:54-99 | Up to any point of a run the addresses that handshook are the addresses taken, if and only if between any two handshakes some read edge finds valid low. |
| AxiAddresses.DroppedReachable | sim/coralnpu/hw_sim/gem5_bridge/gem5_axi_master_drivers.h:54-99 | Four edges from reset with valid held hand over two addresses of which one is taken. |
| AxiBridge.OverwriteLosesRead | sim/coralnpu/hw_sim/gem5_bridge/coralnpu_gem5_abi.cc:623-657 | A deferred write over a deferred read leaves the read with no beat and no slot once it completes. |
| AxiBridge.LostForever | sim/coralnpu/hw_sim/gem5_bridge/coralnpu_gem5_abi.cc:365-831 | In no continuation does a lost read get a beat, nor is another read taken. |
| AxiBridge.LostReadReachable | sim/coralnpu/hw_sim/gem5_bridge/coralnpu_gem5_abi.cc:365-831 | Four steps from reset lose a read, for every pair of deferred requests in one clock. |
| AxiBridge.LocalAgreesWithDeferred | sim/coralnpu/hw_sim/gem5_bridge/coralnpu_gem5_abi.cc:427-445 | Local memory and a completed deferred read over the same bytes queue the same beats. |
| AxiHandle.Handle.OnRead | sim/coralnpu/hw_sim/gem5_bridge/coralnpu_gem5_abi.cc:365-465 | The read callback's whole new state. |
| AxiHandle.Handle.OnWrite | sim/coralnpu/hw_sim/gem5_bridge/coralnpu_gem5_abi.cc:466-658 | The write callback's whole new state, local memory included; what that state is byte by byte is `LocalWrite` and `OtherWrite`. |
| AxiHandle.Handle.ReadFalls | sim/coralnpu/hw_sim/gem5_bridge/gem5_axi_master_drivers.h:54-99 | The read driver's edge, callback included. |
| AxiHandle.Handle.WriteFalls | sim/coralnpu/hw_sim/gem5_bridge/gem5_axi_master_drivers.h:178-234 | The write driver's edge, callback included. |
| AxiHandle.Handle.DmaComplete | sim/coralnpu/hw_sim/gem5_bridge/coralnpu_gem5_abi.cc:779-831 | Completion's return code and whole new state; which answer that is, is `CompletionTakes` and the two theorems on causes. |
| AxiHandle.Handle.ExtmemEnable | sim/coralnpu/hw_sim/gem5_bridge/coralnpu_gem5_abi.cc:833-848 | Refused while a request is pending; enabling clears the memory. |
| AxiHandle.Handle.Step | sim/coralnpu/hw_sim/gem5_bridge/coralnpu_gem5_abi.cc:727-757 | Returns 2 exactly when a request is pending, clocks only while none is, stops at the first fault (4) or halt (1) line before or after a clock, and otherwise runs every clock (0, or 3 waiting for an interrupt). |
| AxiHost.ClockKeepsIff | sim/coralnpu/hw_sim/gem5_bridge/coralnpu_gem5_abi.cc:727-757 | A clock given with no request pending accounts for every request if and only if the two ports do not both take the slot in it. |
| AxiHost.HostSafeIff | sim/coralnpu/hw_sim/gem5_bridge/coralnpu_gem5_abi.cc:727-831 | A run of step and completion calls accounts for every request throughout, if and only if no clock lets both ports take the slot. |
| AxiHost.BothTakeReachable | sim/coralnpu/hw_sim/gem5_bridge/coralnpu_gem5_abi.cc:727-831 | A quiet clock from reset, a clock with a deferred read and write, and one answer are such a run, and lose the read. |
| AxiHost.StepIsHostRun | sim/coralnpu/hw_sim/gem5_bridge/coralnpu_gem5_abi.cc:727-757 | The clocks of one step call are a run of that host over the same states. |
| Registers.PartialRead | sim/gem5/src/dev/reg_bank.hh:828-841 | A partial read returns the addressed bytes of the whole, for either byte order and the filler and buffer registers. |
| Registers.FullRead | sim/gem5/src/dev/reg_bank.hh:820-826 | A full read returns the register's bytes in bus order. |
| Registers.FullWrite | sim/gem5/src/dev/reg_bank.hh:844-851 | A full write changes exactly the writable bits. |
| Registers.PartialWrite | sim/gem5/src/dev/reg_bank.hh:853-869 | A partial write changes exactly the writable bits of the addressed bytes, for either byte order. |
| BankContents.ReadAllIs | sim/gem5/src/dev/reg_bank.hh:820-826 | A whole read gives the bytes most significant first for a big-endian register, least first otherwise, zeros or ones for a filler. |
| RegisterBanks.AppendAllTiles | sim/gem5/src/dev/reg_bank.hh:957-981 | Appending registers keeps the tiling. |
| RegisterBanks.PlaceTilesIff | sim/gem5/src/dev/reg_bank.hh:996-1020 | Placing a register keeps the tiling if and only if it starts at or less than 2 GB past the end. |
| RegisterBanks.PlaceAllTilesIff | sim/gem5/src/dev/reg_bank.hh:983-1022 | Placing a sorted list succeeds with a tiled bank if and only if each register starts at, or less than 2 GB past, the end of those before it; no later register repairs a misplaced one. |
| RegisterBanks.FarPlacementLeavesHole | sim/gem5/src/dev/reg_bank.hh:1005-1015 | A register 4 GB past the end is accepted and leaves a hole. |
| RegisterBanks.Lookup | sim/gem5/src/dev/reg_bank.hh:1041-1043 | The map search finds the register that holds the address. |
| RegisterBanks.ReplaceStores | sim/gem5/src/dev/reg_bank.hh:1089-1114 | Writing a piece of one register stores it at its place in the flat array and keeps the tiling and the masks. |
| RegisterBanks.RegisterBank.AddRegisters | sim/gem5/src/dev/reg_bank.hh:957-981 | Accepts exactly non-empty lists whose expected offsets are the running end, and appends them. |
| RegisterBanks.RegisterBank.AddRegistersAt | sim/gem5/src/dev/reg_bank.hh:983-1022 | Sorts, fills holes, refuses overlaps, and ends tiled exactly for lists so spaced. |
| BankContents.AppendAllContents | sim/gem5/src/dev/reg_bank.hh:957-981 | Added registers extend the flat array by their bytes and masks, in order, and change nothing before. |
| BankContents.PlaceAllContents | sim/gem5/src/dev/reg_bank.hh:983-1022 | Placed registers extend it by each register at its offset and, in the holes between, the chosen filler, which cannot be written. |
| RegisterBanks.TestExactIff | sim/gem5/src/dev/reg_bank.hh:1037-1039 | The 64-bit bounds test tells in bounds from out of bounds except where its sum wraps to no more than the size; the three ways are listed. |
| RegisterBanks.BelowBasePasses | sim/gem5/src/dev/reg_bank.hh:1037-1039 | Every access that ends just below the bank passes the test. |
| RegisterBanks.RegisterBank.Read | sim/gem5/src/dev/reg_bank.hh:1030-1072 | A slice of the flat array, refused exactly out of bounds. |
| RegisterBanks.RegisterBank.Write | sim/gem5/src/dev/reg_bank.hh:1074-1117 | A masked store into the flat array, refused without effect exactly out of bounds. |
| RegisterBanks.RegisterBank.Perform | sim/gem5/src/dev/reg_bank.hh:1030-1117 | Any sequence of accesses gives the answers and the final bytes of the flat array. |
| RegisterBanks.BytesIndependent | sim/gem5/src/dev/reg_bank.hh:1030-1117 | Each byte depends only on the writes that cover it. |
| RegisterBanks.UnwritableKept | sim/gem5/src/dev/reg_bank.hh:807-812 | No run changes a bit outside the write masks. |
| FixedPoint.HighMulRounds | sim/coralnpu/hw_sim/gem5_bridge/gem5_hybrid_kernels.cc:12-20 | Off the one saturating pair the product is scaled by 2^31 and rounded, ties upward. |
| FixedPoint.HighMulError | sim/coralnpu/hw_sim/gem5_bridge/gem5_hybrid_kernels.cc:12-20 | Its error is at most half a unit. |
| FixedPoint.RoundingShiftFloor | sim/coralnpu/hw_sim/gem5_bridge/gem5_hybrid_kernels.cc:22-30 | The mask and threshold form is one floor division. |
| FixedPoint.RoundingShiftNearest | sim/coralnpu/hw_sim/gem5_bridge/gem5_hybrid_kernels.cc:22-30 | It rounds to nearest, ties away from zero. |
| FixedPoint.MultiplierMonotone | sim/coralnpu/hw_sim/gem5_bridge/gem5_hybrid_kernels.cc:32-42 | The composition keeps order for non-negative multipliers and every accepted shift, saturation included. |
| FixedPoint.MultiplierError | sim/coralnpu/hw_sim/gem5_bridge/gem5_hybrid_kernels.cc:32-42 | When the left shift does not saturate the scaled result is within 2^30 + 2^(30+e) of the exact product. |
| Int8.ProductExactIff | sim/coralnpu/hw_sim/gem5_bridge/gem5_hybrid_kernels.cc:187-191 | The 32-bit product of two int8 values off their zero points is the product for all operands, if and only if the four extreme products fit. |
| Int8.LargeZeroPointWraps | sim/coralnpu/hw_sim/gem5_bridge/gem5_hybrid_kernels.cc:187-191 | A zero point of 100000000, which no test refuses, makes some product wrap. |
| Int8.RunningIsSum | sim/coralnpu/hw_sim/gem5_bridge/gem5_hybrid_kernels.cc:254-261 | However often a 32-bit accumulator and its terms wrap, it holds the exact sum modulo 2^32. |
| HybridConv.CellsInside | sim/coralnpu/hw_sim/gem5_bridge/gem5_hybrid_kernels.cc:182-186 | Every input and filter cell a tap reads lies in its tensor, depthwise or not. |
| HybridConv.AccumulateWindow | sim/coralnpu/hw_sim/gem5_bridge/gem5_hybrid_kernels.cc:173-194 | The three accumulation loops add the window sum, each product in 32 bits, skipping out-of-range taps. |
| HybridConv.ComputeCell | sim/coralnpu/hw_sim/gem5_bridge/gem5_hybrid_kernels.cc:172-202 | One output value: bias, window, clamp, requantisation, zero point, activation range. |
| HybridConv.Convolve | sim/coralnpu/hw_sim/gem5_bridge/gem5_hybrid_kernels.cc:164-209 | Fails, writing nothing, exactly when a shift is out of range; otherwise writes the cells in order, each from the memory its predecessors left. `CellIsReference` says what each cell is. |
| ConvMath.WindowIsReference | sim/coralnpu/hw_sim/gem5_bridge/gem5_hybrid_kernels.cc:173-194 | The skipping loops compute the sum over filter rows, columns and channels of the zero-padded input times the filter, with every index of both written out as row-major arithmetic, on 32-bit words, depthwise or not. |
| ConvMath.RescaledIs | sim/coralnpu/hw_sim/gem5_bridge/gem5_hybrid_kernels.cc:12-42 | Requantisation is the clipped left shift, the floor of the product plus 2^30 over 2^31 with its one saturating pair, and the right shift rounded away from zero at ties. |
| ConvMath.CellIsReference | sim/coralnpu/hw_sim/gem5_bridge/gem5_hybrid_kernels.cc:168-208 | Every cell is the reference cell of the bytes of the tensors and tables, wherever they lie. |
| ConvMath.ConvCellExact | sim/coralnpu/hw_sim/gem5_bridge/gem5_hybrid_kernels.cc:173-194 | Where the zero points and the coordinates fit, the reference cell on 32-bit words is that of the exact convolution. |
| ConvOutput.RunConvolves | sim/coralnpu/hw_sim/gem5_bridge/gem5_hybrid_kernels.cc:164-209 | An output that overlaps nothing read holds, at the row-major index of every cell, the reference cell of the memory before modulo 256, and no other byte changes. |
| HybridConv.AccumulatorFits | sim/coralnpu/hw_sim/gem5_bridge/gem5_hybrid_kernels.cc:172-194 | The 64-bit accumulator never overflows, whatever the zero points. |
| HybridDense.Multiply | sim/coralnpu/hw_sim/gem5_bridge/gem5_hybrid_kernels.cc:249-267 | The matrix product and fully connected loops write the outputs in order, each from the memory its predecessors left, wherever the tensors lie. `ValueIsAffine` says what each output is. |
| HybridDense.RunMultiplies | sim/coralnpu/hw_sim/gem5_bridge/gem5_hybrid_kernels.cc:249-267 | An output that overlaps no operand holds, at row * columns + column, the reference product of the memory before modulo 256, and no other byte changes. |
| HybridDense.DenseCellsInside | sim/coralnpu/hw_sim/gem5_bridge/gem5_hybrid_kernels.cc:254-260 | Every operand cell read lies in its tensor, for either layout of the right operand. |
| HybridDense.ValueIsAffine | sim/coralnpu/hw_sim/gem5_bridge/gem5_hybrid_kernels.cc:325-341 | Every output is the clamped bias plus dot product plus zero point modulo 2^32, the dot product over row * depth + k of the left and k * columns + column (or column * depth + k) of the right operand, and exact exactly when the wrap does not show through the clamp. |
| DenseExact.FittingProductExact | sim/coralnpu/hw_sim/gem5_bridge/gem5_hybrid_kernels.cc:249-267 | Wherever the tensors lie, the value is exact when the least and greatest possible values wrap together. |
| DenseExact.ProductFitsIff | sim/coralnpu/hw_sim/gem5_bridge/gem5_hybrid_kernels.cc:325-341 | With operands apart and a given bias, the value is exact for all operands if and only if the activation range is one value or the least and greatest possible values wrap together, to the side of the range they lie on. |
| DenseExact.Int8ProductFitsIff | sim/coralnpu/hw_sim/gem5_bridge/gem5_hybrid_kernels.cc:325-341 | With int8 zero points, and a bias and output zero point whose sum fits, that means both extremes fit an `int32_t`. |
| DenseExact.DepthLimits | sim/coralnpu/hw_sim/gem5_bridge/gem5_hybrid_kernels.cc:249-267 | An unbiased product is exact for all operands exactly up to depth 33025 with zero points -128, and up to 131071 with zero points 0. |
| DenseExact.LongProductWraps | sim/coralnpu/hw_sim/gem5_bridge/gem5_hybrid_kernels.cc:249-267 | At depth 33026 the largest possible product comes out as the least activation. |
| HybridDense.Add | sim/coralnpu/hw_sim/gem5_bridge/gem5_hybrid_kernels.cc:379-388 | Writes the clamped sums in order, each from the memory its predecessors left, wherever the tensors lie. |
| HybridDense.RunAdds | sim/coralnpu/hw_sim/gem5_bridge/gem5_hybrid_kernels.cc:379-388 | In place, or wherever no output byte lands on an operand byte still to be read, byte i of the output is the clipped sum modulo 2^32 of bytes i before, and no other byte changes. |
| HybridDense.ElementIsSum | sim/coralnpu/hw_sim/gem5_bridge/gem5_hybrid_kernels.cc:381-387 | The 32-bit sum is the exact sum modulo 2^32, and exact exactly when the wrap does not show through the clamp. |
| DenseExact.SumFitsIff | sim/coralnpu/hw_sim/gem5_bridge/gem5_hybrid_kernels.cc:381-387 | The addition of two tensors is exact for all data if and only if the activation range is one value or its two extremes wrap together. |
| HybridOperator.ElementCount | sim/coralnpu/hw_sim/gem5_bridge/gem5_hybrid_kernels.cc:44-55 | The guarded loop returns the product of the dimensions, or 0 for a bad rank, an empty dimension or a count above 64 bits. |
| DenseOperator.TensorBytesMatch | sim/coralnpu/hw_sim/gem5_bridge/gem5_hybrid_kernels.cc:79-84 | The size is the element count in bytes, in 32 bits. |
| DenseOperator.CheckDense | sim/coralnpu/hw_sim/gem5_bridge/gem5_hybrid_kernels.cc:221-248 | The tests of the matrix product and of the fully connected kernel. |
| DenseOperator.DenseIsSound | sim/coralnpu/hw_sim/gem5_bridge/gem5_hybrid_kernels.cc:278-323 | A validated, accepted product or layer keeps every access inside memory, bias included. |
| DenseOperator.DenseOperationsFit | sim/coralnpu/hw_sim/gem5_bridge/gem5_hybrid_kernels.cc:268-269 | Its 64-bit operation count does not wrap. |
| DenseOperator.CountDense | sim/coralnpu/hw_sim/gem5_bridge/gem5_hybrid_kernels.cc:268-269 | The 64-bit product is one operation per output and element of the dot product. |
| DenseOperator.CheckAdd | sim/coralnpu/hw_sim/gem5_bridge/gem5_hybrid_kernels.cc:355-373 | The tests of the addition kernel. |
| DenseOperator.AddIsSound | sim/coralnpu/hw_sim/gem5_bridge/gem5_hybrid_kernels.cc:355-378 | A validated, accepted addition keeps every access inside memory. |
| HybridOperator.CheckConv | sim/coralnpu/hw_sim/gem5_bridge/gem5_hybrid_kernels.cc:95-131 | The shared convolution tests, on those counts. |
| HybridOperator.AcceptedIsSound | sim/coralnpu/hw_sim/gem5_bridge/gem5_hybrid_operator.cc:17-66 | A validated, accepted descriptor whose bias covers the channels keeps every access inside memory. |
| HybridOperator.Validate | sim/coralnpu/hw_sim/gem5_bridge/gem5_hybrid_operator.cc:17-66 | Accepts exactly valid descriptors and names the first failed group of tests. |
| HybridOperator.RangeValidIff | sim/coralnpu/hw_sim/gem5_bridge/gem5_hybrid_operator.cc:9-13 | The range test accepts exactly the non-empty intervals that lie in memory. |
| HybridOperator.OperationsFit | sim/coralnpu/hw_sim/gem5_bridge/gem5_hybrid_kernels.cc:210-211 | The 64-bit operation count of an accepted convolution does not wrap. |
| HybridOperator.CountConv | sim/coralnpu/hw_sim/gem5_bridge/gem5_hybrid_kernels.cc:210-211 | The 64-bit product of the seven factors is one operation per output cell and filter tap. |
| HybridDispatch.Device.RunConv | sim/coralnpu/hw_sim/gem5_bridge/gem5_hybrid_kernels.cc:544-627 | Either convolution as called: runs exactly when accepted and in range, convolves, counts operations and bytes, and on failure changes neither memory nor descriptor. |
| HybridDispatch.Device.RunDense | sim/coralnpu/hw_sim/gem5_bridge/gem5_hybrid_kernels.cc:278-353 | The matrix product or fully connected kernel as called: runs exactly when accepted, multiplies, counts, and on failure changes nothing. |
| HybridDispatch.Device.RunAdd | sim/coralnpu/hw_sim/gem5_bridge/gem5_hybrid_kernels.cc:355-397 | The addition as called: runs exactly when accepted, adds, counts, and on failure changes nothing. |
| HybridDispatch.LeftFrame | sim/coralnpu/hw_sim/gem5_bridge/gem5_hybrid_kernels.cc:133-397 | What any integer kernel leaves differs from the memory before in the output tensor only, and not at all when it does not run. |
| HybridMeaning.ConvRunsIff | sim/coralnpu/hw_sim/gem5_bridge/gem5_hybrid_kernels.cc:95-163 | A convolution runs exactly when its descriptor is accepted and every shift word in memory lies between -31 and 30. |
| HybridMeaning.ConvJobMeans | sim/coralnpu/hw_sim/gem5_bridge/gem5_hybrid_kernels.cc:133-209 | With its output tensor apart from the other tensors and tables, a convolution leaves the reference convolution of the descriptor's bytes before, with the descriptor's dimensions, strides, padding and zero points. |
| HybridMeaning.DenseJobMeans | sim/coralnpu/hw_sim/gem5_bridge/gem5_hybrid_kernels.cc:221-341 | The same for the matrix product and the fully connected kernel, with or without bias. |
| HybridMeaning.AddJobMeans | sim/coralnpu/hw_sim/gem5_bridge/gem5_hybrid_kernels.cc:355-388 | The same for the addition, in place included. |
| HybridMeaning.LeftMeans | sim/coralnpu/hw_sim/gem5_bridge/gem5_hybrid_kernels.cc:133-397 | For every integer opcode, what the kernel leaves is that reference function of the memory before. |
| HybridDispatch.Device.Dispatch | sim/coralnpu/hw_sim/gem5_bridge/gem5_hybrid_operator.cc:68-139 | True ends COMPLETE without error and with the counts, false ends ERROR with the error's name; an invalid descriptor or unknown opcode reaches no kernel; a failed integer kernel leaves memory as it was. |
| HybridDispatch.Device.DispatchTwice | sim/coralnpu/hw_sim/gem5_bridge/gem5_hybrid_operator.cc:23-83 | A second dispatch without a new submission is refused as a bad descriptor, whatever the first did, and leaves memory as it was. |
| Staging.PowerOfTwoTest | sim/coralnpu/hw_sim/gem5_bridge/coral_operator_client.h:62-65 | The mask test accepts exactly the powers of two. |
| Staging.RoundedSum | sim/coralnpu/hw_sim/gem5_bridge/coral_operator_client.h:66-71 | The masked 32-bit sum is the rounded cursor, or falls below the cursor when rounding leaves the address space. |
| Staging.AlignUpIsLeast | sim/coralnpu/hw_sim/gem5_bridge/coral_operator_client.h:66-67 | Rounding up passes over no aligned offset. |
| Staging.Allocator.Allocate | sim/coralnpu/hw_sim/gem5_bridge/coral_operator_client.h:59-74 | Succeeds exactly when sensible and roomy, returns an aligned block; in every sequence of calls blocks stay in the arena and apart; failure changes nothing. |
| Staging.TensorBytes | sim/coralnpu/hw_sim/gem5_bridge/gem5_mobilenet.cc:71-88 | Bytes of a tensor, or 0 exactly when a dimension or the 32-bit size is bad. |
| StagedConv.StageTensor | sim/coralnpu/hw_sim/gem5_bridge/gem5_mobilenet.cc:100-119 | Succeeds exactly when the tensor has a size and room is left: one more block holding its bytes and the descriptor's tensor set, or nothing changed. |
| StagedConv.StageConv | sim/coralnpu/hw_sim/gem5_bridge/gem5_mobilenet.cc:159-208 | Submits exactly when every tensor has a size and the aligned blocks fit; then the whole job is the client's, its tensors and tables lie in six blocks of one arena holding the client's bytes, and the descriptor passes validation. |
| StagedConv.StagedValidates | sim/coralnpu/hw_sim/gem5_bridge/gem5_hybrid_operator.cc:17-66 | A staged job in a submitted descriptor passes every test. |
| StagedConv.OutputSeparate | sim/coralnpu/hw_sim/gem5_bridge/gem5_mobilenet.cc:159-180 | The staged output overlaps no input, no table and not the descriptor. |
| StagedConv.StagedAssumed | sim/coralnpu/hw_sim/gem5_bridge/gem5_mobilenet.cc:159-208 | All that dispatch assumes holds of a staged job whose bias has an entry per channel. |
| HybridInvoke.ValidIff | sim/coralnpu/hw_sim/gem5_bridge/gem5_hybrid_kernels.cc:95-131 | The kernels accept the staged job exactly when the client's ranks, shapes, strides and activation range are right. |
| HybridInvoke.StagedOperands | sim/coralnpu/hw_sim/gem5_bridge/gem5_mobilenet.cc:159-208 | What the kernels read of the staged job are the client's own buffers, byte for byte. |
| HybridInvoke.Invoke | sim/coralnpu/hw_sim/gem5_bridge/gem5_mobilenet.cc:121-224 | Not offloaded exactly when staging fails; otherwise done exactly when the kernels accept the client and its shifts, and then every byte returned is its cell of the reference convolution of the client's buffers; only the arena changes. |
| HybridInvoke.OutputIsMath | sim/coralnpu/hw_sim/gem5_bridge/gem5_mobilenet.cc:121-224 | With int8 zero points and coordinates that fit, that is the exact convolution, requantised. |
| CoralDriver.StepKeepsInv | runtime/kernel/opennpux_coral.c:90-144 | Every step of every thread and of the work function keeps the driver's invariant; what each call achieves by the time it returns is stated in `CoralCalls`. |
| CoralDriver.MutualExclusion | runtime/kernel/opennpux_coral.c:113-144 | At most one thread is inside the state lock. |
| CoralDriver.RunningHasWorker | runtime/kernel/opennpux_coral.c:90-134 | Running with the lock free implies the completion work is queued or executing. |
| CoralDriver.StartsWithoutWorker | runtime/kernel/opennpux_coral.c:113-134 | Running goes from 0 to 1 only with no work queued or executing. |
| CoralDriver.ResetLeavesDeviceQuiet | runtime/kernel/opennpux_coral.c:136-144 | When RESET unlocks, nothing runs, no work is left and reset is asserted. |
| CoralCalls.StartReturns | runtime/kernel/opennpux_coral.c:113-134 | In every history a START that returns either found a run announced and only took and gave back the lock, or announced one run, held the device in reset and let it out for that run, with completion work live while it is announced. |
| CoralCalls.ResetReturns | runtime/kernel/opennpux_coral.c:136-144 | In every history a RESET returns with nothing running, no work, the lock free and reset asserted. |
| CoralCalls.ReleaseReturns | runtime/kernel/opennpux_coral.c:275-283 | In every history a release that finds a run announced returns with the device so reset; one that finds none returns at once and leaves the shared state unchanged. |
| CoralCalls.PollReturns | runtime/kernel/opennpux_coral.c:230-244 | In every history a poll that finds the device done clears `running` and nothing else with its last action; one that does not changes nothing. |
| CoralCalls.WorkEndsRun | runtime/kernel/opennpux_coral.c:90-111 | A work function that reads a finished status ends the run with its next action. |
| CoralDriver.WorkerNeverStale | runtime/kernel/opennpux_coral.c:90-111 | The work function never ends a run on a status from before its release from reset. |
| CoralDriver.FlushWaitsForWorkOnly | runtime/kernel/opennpux_coral.c:123-124 | A waiting cancel can always be released by the work function. |
| CoralDriver.HowRunsEnd | runtime/kernel/opennpux_coral.c:230-244 | In every history a run ends by RESET, by a status read after its own release, or by a poll that stores on a status read before it. |
| CoralDriver.RunsEndProperlyIff | runtime/kernel/opennpux_coral.c:113-244 | Every run of a history ends by RESET or by a status read after its own release, if and only if no poll stores on an earlier one. |
| CoralDriver.QuietLaunchesSuffice | runtime/kernel/opennpux_coral.c:113-244 | If no poll is between its status read and its store while a run is announced and not yet released, every run ends properly. |
| CoralDriver.StalePollLosesRun | runtime/kernel/opennpux_coral.c:230-244 | A poll that read the status before START does end a run that is still going, with no work left to notice. |
| CoralDriver.WindowPollLosesRun | runtime/kernel/opennpux_coral.c:125-129 | So does one that read it after `running` was set but before the device was put through reset. |
| GemminiDevice.Gemmini.WriteRegister | sim/gem5/src/gemmini_dev_a/gemmini_dev_a.cc:26-118 | Refused while busy, for a bad register or opcode; otherwise stores the data in the register of that index and no other, or starts a job. |
| GemminiDevice.Gemmini.ProcessFsm | sim/gem5/src/gemmini_dev_a/gemmini_dev_a.cc:143-204 | The next fetch, or the computation and the write-back. |
| GemminiDevice.Gemmini.ReceiveData | sim/gem5/src/gemmini_dev_a/gemmini_dev_a.cc:120-141 | Each reply keeps the run a list of whole jobs plus the current one's part; the write's reply ends the job idle with no operands. |
| GemminiMeaning.PlanSizes | sim/gem5/src/gemmini_dev_a/gemmini_dev_a.cc:61-101 | By opcode, the bytes of the three buffers: four times the product of the programmed sizes the kernel needs, modulo 2^64; no second operand for pooling and rectification. |
| GemminiDevice.TraceBalances | sim/gem5/src/gemmini_dev_a/gemmini_dev_a.cc:103-141 | A whole job releases exactly what it allocates. |
| GemminiDevice.AllReleased | sim/gem5/src/gemmini_dev_a/gemmini_dev_a.cc:26-204 | After any number of jobs nothing is left allocated. |
| GemminiDevice.NeverTwice | sim/gem5/src/gemmini_dev_a/gemmini_dev_a.cc:26-204 | At every moment of every run each buffer is held at most once, and none is released that is not held. |
| GemminiDevice.WorkingBalance | sim/gem5/src/gemmini_dev_a/gemmini_dev_a.cc:26-204 | In the middle of a job exactly its buffers are allocated, once each. |
| GemminiKernels.BaseConvGemm | sim/gem5/src/gemmini_dev_a/gemmini_dev_a.cc:265-275 | Every output is the product of its matrix row with the kernel. |
| GemminiMeaning.GemmRowIs | sim/gem5/src/gemmini_dev_a/gemmini_dev_a.cc:265-275 | That product is the sum over t of a[i * size + t] * k[t]. |
| GemminiKernels.BaseConv2D | sim/gem5/src/gemmini_dev_a/gemmini_dev_a.cc:208-232 | Every output is the centred, zero-padded convolution. |
| GemminiMeaning.Convolved2Is | sim/gem5/src/gemmini_dev_a/gemmini_dev_a.cc:208-232 | Output i * n + j is the sum over the kernel of m[(i + w - ks / 2) * n + j + x - ks / 2] * k[w * ks + x], taking 0 outside the image. |
| GemminiKernels.GemmIsConv2 | sim/gem5/src/gemmini_dev_a/gemmini_dev_a.cc:208-275 | On the unrolled image the matrix kernel computes the two-dimensional convolution, for all sizes. |
| GemminiMeaning.Im2col2Is | sim/gem5/src/gemmini_dev_a/gemmini_dev_a.cc:265-275 | The unrolled image: row i * n + j lists, row by row, the pixels under the kernel centred at (i, j). |
| GemminiMeaning.GemmConvolves2 | sim/gem5/src/gemmini_dev_a/gemmini_dev_a.cc:208-275 | On it the matrix kernel leaves that sum in every output. |
| GemminiKernels.Multiply | sim/gem5/src/gemmini_dev_a/gemmini_dev_a.cc:328-352 | Both product kernels compute every entry of the product they read. |
| GemminiMeaning.MultipliedIs | sim/gem5/src/gemmini_dev_a/gemmini_dev_a.cc:328-352 | Entry i * n + j is the sum over w of a[i * n + w] times b[w * n + j], or times b[j * n + w] in the column form. |
| GemminiKernels.GemmIsProduct | sim/gem5/src/gemmini_dev_a/gemmini_dev_a.cc:328-352 | On a transposed right operand the column form computes the product. |
| GemminiConv3.BaseConv3D | sim/gem5/src/gemmini_dev_a/gemmini_dev_a.cc:234-262 | Every output is the centred, zero-padded three-dimensional convolution. |
| GemminiMeaning.Convolved3Is | sim/gem5/src/gemmini_dev_a/gemmini_dev_a.cc:234-262 | Every output is the sum over the kernel of the volume around it times the kernel, with all three indices written out. |
| GemminiConv3.GemmIsConv3 | sim/gem5/src/gemmini_dev_a/gemmini_dev_a.cc:234-275 | On the unrolled volume the matrix kernel computes the three-dimensional convolution, for all sizes. |
| GemminiMeaning.Im2col3Is | sim/gem5/src/gemmini_dev_a/gemmini_dev_a.cc:234-275 | The unrolled volume: one row per element, listing the volume under the kernel centred there. |
| GemminiMeaning.GemmConvolves3 | sim/gem5/src/gemmini_dev_a/gemmini_dev_a.cc:234-275 | On it the matrix kernel leaves that sum in every output. |

## Left out

- Interleave.RemoveIntlvBits: so many masks sharing a lowest bit that a turn counts a negative bit position are outside the contract; `insertBits` has no meaning there.
- InterleaveAdd.AddIntlvBits: a mask whose lowest bit is above 31 is outside the contract, because line 607 of addr_range.hh then shifts a 32-bit one out of range.
- AddrRanges.Merge: the union is stated for at most eight masks, since the match value is eight bits wide.
- AddrOffsets.IsSubset: an interleaved left-hand range, which the code refuses with a panic, is excluded by the precondition.
- AddrExclude.Exclude: an exclusion with its start after its end is covered where the loop skips it; one that passes the intersection test, with both its bounds inside the range, is outside the contract, since the next start can then move backwards.
- DmaBuilder.BuildReadRequest: null pointers are not modelled.
- AxiHandle.Handle.OnRead: what the operator and MAC registers hold, and what an operator command does to memory, come in as parameters; access statistics and logging are not modelled.
- AxiHandle.Handle.DmaComplete: called with a request whose beat geometry was overwritten it could read past the data; the precondition excludes that, and the one-slot rule gives it (`SlotReadableFromInv`).
- AxiHandle.Handle.Step: the order in which the two drivers see an edge is a parameter, and the core's fault, halt and wait-for-interrupt lines are parameters. `hw_sim/hw_primitives.h` is not part of this model.
- RegisterBanks.RegisterBank.Read: an access for which the 64-bit bounds test is not exact (`TestExactIff`) is excluded by the precondition, because the map search then steps before the first register or the loop past the last; one register object added twice is two registers here. A zero-byte access of an empty bank succeeds here, where the source first steps back from the end of an empty map.
- Registers.PartialWrite: custom readers and writers, and checkpointing, are not modelled.
- FixedPoint.MultiplierError: nothing is stated when the left shift saturates, beyond monotonicity.
- HybridConv.Convolve: an output that overlaps the shift table, a bias shorter than the channels, and memories of 2 GB or more are excluded by preconditions; ordinary and depthwise kernels are one method with a flag.
- ConvMath.ConvCellExact: stated where the zero points and the last window fit an `int32_t`; `CellIsReference`, on 32-bit words, needs neither. Signed 32-bit overflow is taken as two's complement wrap-around throughout.
- HybridDense.Multiply: the matrix product and the fully connected kernel are one method with a flag.
- DenseExact.ProductFitsIff: the necessary half is stated for zero points up to 2^31 - 257 in size and for operands that lie apart; the sufficient half (`FittingProductExact`) holds for all.
- DenseExact.SumFitsIff: adding a tensor to itself, which reaches even sums only, is outside the necessary half.
- HybridDispatch.Device.Dispatch: the descriptor is kept apart from the memory bytes; the two floating-point kernels, softmax and layer normalisation, are an outcome given from outside; host time is not modelled.
- HybridInvoke.Invoke: ringing is one call of the dispatcher, and a bias shorter than the channels is excluded by the precondition; adding the counts to the execution descriptor is not modelled.
- CoralDriver.HowRunsEnd: `coral_run` takes `running` without the lock and is not part of the interleavings; open counting, the ioctl plumbing and register dumps are not either.
- GemminiDevice.Gemmini.ReceiveData: exactly one reply per access is assumed, so an access of zero bytes, which gets none, is not covered.
- GemminiKernels.BaseConv2D: numbers are exact, not floating point, and index arithmetic does not wrap; max pooling and ReLU kernels are not modelled.
- The vector-add command protocol between host and firmware, host runtime range checks and file handling.
- gem5 configuration, statistics, memoizers, reference counting and decode caches.
