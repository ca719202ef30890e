# EclipseNPU, modelled and proved in Dafny

EclipseNPU compiles bufferized linalg programs to a text instruction stream, runs that stream on an
instruction-level reference machine, checks it with a static hazard checker, and has a few of its
units in RTL. What makes the stack work is that these layers agree, so most theorems here relate two
of them. All of them share one memory model: SRAM and DDR as bytes at 32-bit addresses.

`dafny verify dfyconfig.toml` checks the whole project.

## The layers and the theorems between them

**DMA engine** (`DmaEngine`, `DmaTransfer`, `DmaRun`, `DmaController`, `DmaOverCrossbar`, `DmaReference`).
The engine's registers are a value (`Regs`), one clock edge is the function `Next`, and the class
`Controller` holds the registers as fields and is proved to perform `Next`. For every legal descriptor,
every DDR latency and every pattern on `desc_start`, one run writes every word of the rectangle exactly
once, in order, in exactly `IssueCycles + 3 + DDR_LATENCY` cycles, with no bubble in the issue phase. Run
through the banked SRAM, no write is lost, and the memory afterwards is what the reference machine's
`memcpy` rows leave. A misaligned descriptor is dropped without `done`, and after a reset in the middle of a
transfer nothing more is written and the next jobs run as ever.

**Banked SRAM** (`Crossbar`, `CrossbarDrain`, `BankedSram`, `StrideConflicts`, `HashedStrides`). Under the
plain and the hashed mapping the banks behave as one flat memory. A batch of writes drains to what the
writes do one after the other in slot order, a batch of reads takes exactly as many cycles as the busiest
bank has requests. Equally spaced reads follow the gcd law under the plain mapping; under the hashed one a
pitch of 2^s words is free up to the number of banks, then halves the banks it reaches with every doubling,
and serialises once it has left the window of the hash. The six measurements of section 6.3 of
`docs/notes/design/rtl-r2.md` are instances.

**Pipe slices** (`PipeSlice`). A chain of any length under any handshake pattern is a bounded FIFO with
stable stalled data, full throughput, and one cycle of latency per slice.

**Reference machine** (`Machine`, `CModel`, `IsaContract`). An instruction is a list of steps; a step reads
words, evaluates an operation and stores the result. The class `Chip` executes the loops of the original
over byte arrays and is proved equal to it, aborts included. `IsaContract` says what MATMUL, ELEMENTWISE,
ACT and REDUCE leave in SRAM in the terms of the instruction set description, kind codes as numbers.
Floating-point operations are parameters (the record `Fpu`). `Rounding`, `RoundingCorrect` and `ReduceFold`
prove what the fp16 conversions and the MAX/ARGMAX folds mean: roundTiesToEven (section 4.3.1 of IEEE
754-2019) and `maximum` (section 9.6).

**Hazard checker** (`HazardChecker`, `Reach`, `BroadcastFootprint`, `Footprints`, `Commutation`,
`HazardSoundness`, `Interleavings`, `HazardLimits`, `CommandQueue`, `QueueLimit`). The checker reports
exactly the overlapping access pairs without a SYNC between them. A clean report makes the order between two
SYNCs irrelevant, aborts included, and so is any overlap in time: every interleaving of the loop iterations
of the instructions between two SYNCs ends in the memory of the in-order run. The checker does not look at
descriptors; `OverwrittenDescriptor` shows a program it passes whose result depends on order, and
`OwnDescriptor` a store that overwrites the row count it is being run with.

**Compiler and loader** (`EclipseIR`, `Lowering`, `Emission` and the modules that follow them,
`EclipseRun`). The lowered IR has a semantics on tensors. The K-tiled matmul, broadcast elementwise,
activation and reduction lowerings compute what they should, emission refines the IR on the machine, and
eliding copies preserves every returned root and every buffer of exactly the chains that lose no root
(`LostRoots`, `ElidedRuns`, `ElisionExact`). `ChainMeaning.Meaning` says what a chain of linalg operations
means with no buffers, tiles or copies; `CompiledChain.FileRuns` says that lowering, elision, placement,
printing, parsing, loading and running it on input files leaves exactly that in the returned root, for the
tensors in those files, or aborts if the chain divides by zero and so means nothing (`DivisionTraps`), and
`ReorderedFileRuns` and `OverlappedStreamRuns` that any order or overlap the SYNCs allow does too. The
addresses are not assumed to agree: `Emission.PlaceAll` is the pass that hands them out, and
`EclipseRun.RunFile` the program that writes the inputs, the descriptors and the output file.
`CompiledChain.ToolRuns`: for a chain that returns its last result, that output file is the tensor the chain
means. A compiled chain is any list of matmul, elementwise, activation and reduction operations with the
operand types their verifiers require, whose tensors fit.

### What turned out false, and exactly when it holds

- The comment in `EclipseElideCopies.cpp` (line 52) promises a recursive search through views; the
  code (lines 34-44) looks one level deep, so it erases stores that a matmul's tile loads still need. The
  code is modelled. A root is lost if it is not returned, has one store, is read whole behind that store
  and not before it, and is read in tiles behind it. `ElisionExact.ElisionExactly`: eliding the copies of a
  chain keeps its meaning, whatever the arithmetic and the memory, if and only if no root is lost.
  `ElisionLimit.LostChainBreaks` is a failing chain of two activations and a matmul, with the
  wrong result it returns.
- A matmul that tiles the root its immediate predecessor stores is emitted with no SYNC between that
  store and its loads. `ChainClean.CleanExactly`: a compiled chain passes the checker if and only if
  it has no such pair, pairs whose store elision erased aside. In program order it still computes the
  right result.
- The checker's intervals hold every access of an instruction that gets through its range checks
  (`Footprints.FootprintSound`) with two exceptions. Its interval for a broadcast operand is right if and
  only if there is one row or the row pitch, modulo 2^31, does not exceed the block
  (`BroadcastFootprint.RhsSizeExact`); if the number of elements wraps around in 32 bits, fewer elements
  run, and a wider pitch is right too as long as their words stay inside. Its intervals for the rows of
  a DMA are right if and only if no row start wraps around in 32 bits (`Footprints.RowRangesExact`).
  `HazardLimits` has a pair of instructions for each that passes the checker and depends on the order. The
  compiler only emits pitch 0 or the block itself, and rows that do not wrap around.
- The emitter never checks how many descriptors it writes. `EasmFiles.SlotsFitExactly`: they end at or
  before the first tensor if and only if there are at most 1020; the next one lands on that tensor.
- The SRAM allocator adds in 32 bits. `Emission.PlacementExactly`: the walk over the buffers goes through
  with all of them inside the SRAM if and only if they fit there without wrapping around;
  `Emission.OversizedAccepted` is a buffer it accepts although it is larger than the memory.
- The pass looks at the end of DDR only behind the function arguments. `Emission.SlotsInsideExactly`: the
  roots all lie inside DDR if and only if there are at most 0x7FFF; `Emission.AllocationsUnchecked` is a function
  with one more that is accepted.
- `eclipse-run` dumps the tensor of the last DMA_STORE in the file. `CompiledChain.DumpsResultExactly`: that is
  the returned root if and only if the last operation computes it. Its usage line calls input files optional;
  without one it only prints that line (`EclipseRun.RunFile`).
- A window load succeeds on the machine if and only if its DDR address is 16-byte aligned
  (`EmittedMoves.LoadWindow`); the windows the matmul lowering creates always are.

## Model

| member | source | states |
|---|---|---|
| DmaRun.TransferCompletes | rtl/dma/dma.sv:59-225 | from idle, a started legal transfer is in CHECK, then RUN, and DONE after exactly IssueCycles + 3 + latency cycles; its log then has every word of the rectangle once, row by row, and nothing else; the pipeline is empty again |
| DmaRun.IssueTiming | rtl/dma/dma.sv:92-99 | lane 0 issues burst 2t and lane 1 burst 2t+1 in running cycle t exactly while such bursts remain: ceil(bursts/2) consecutive cycles, no bubble at row ends |
| DmaRun.MisalignedIsDropped | rtl/dma/dma.sv:182-195 | a misaligned descriptor is in CHECK after one cycle and idle again after two, so that done is never raised, with nothing written |
| DmaRun.JobsComplete | rtl/dma/dma.sv:177-198 | any list of legal descriptors run back to back writes the concatenation of their transfers |
| DmaRun.ResetRecovers | rtl/dma/dma.sv:111-116 | a reset in any state, answers of DDR still on their way, leaves the engine idle with an empty pipeline and nothing written in any number of cycles without a start; once those answers are in, any list of jobs is completed as from power-up |
| DmaRun.RunningStep | rtl/dma/dma.sv:111-135 | every running cycle keeps the invariant that ties cursor, write pointer, pipeline stages, DDR answers in flight and log to the burst sequence |
| DmaTransfer.CursorAfter | rtl/dma/dma.sv:59-89 | after k bursts the cursor lies inside the row and the bursts left are the per-row counts' sum minus k; after the last it stands behind the last row |
| DmaController.Controller.Posedge | rtl/dma/dma.sv:111-225 | the register file after a rising edge is the transition function's value, or the reset value |
| DmaController.Controller.ClockEdge | rtl/dma/dma.sv:182-225 | the field-by-field update with both bursts' next state equals the transition function |
| DmaController.Controller.ResetEdge | rtl/dma/dma.sv:112-116 | reset clears state, cursor and both valid bits of every stage |
| DmaController.Controller.ShiftIn | rtl/dma/dma.sv:125-133 | the pipeline moves one stage in place, taking the new command in front and losing the oldest |
| DmaController.Controller.IsPipeEmpty | rtl/dma/dma.sv:137-141 | the scan finds exactly whether any stage holds a valid lane |
| DmaController.Controller.DriveWritePort | rtl/dma/dma.sv:148-174 | the port driven word by word from the oldest stage is the specified write port, idle slots included |
| DmaController.Controller.DriveLaneA | rtl/dma/dma.sv:155-163 | lane A drives only slots 0 to 7, with the address and data of its burst |
| DmaOverCrossbar.NothingIsLost | rtl/dma/dma.sv:144-174 | in every cycle of a transfer every driven write wins its bank, and the banks hold the flat memory after exactly the writes logged so far |
| DmaOverCrossbar.TransferThroughCrossbar | rtl/bank/bank_xbar.sv:92-118 | after the transfer the flat memory has all its writes applied in order, although the engine never looks at wr_grant |
| DmaReference.EngineRefinesMachine | runtime/lib/cmodel_exec.cpp:41-51 | for every DMA_LOAD descriptor inside both memories, the engine's writes leave the same SRAM words as the row copies of the reference machine |
| DmaReference.BankedEngineRefinesMachine | runtime/lib/cmodel_exec.cpp:41-51 | the same for the engine writing through the crossbar into the banks |
| DmaReference.CyclesDma | runtime/lib/cmodel_cycles.cpp:10-23 | for any descriptor the loop's 32-bit and 64-bit arithmetic gives the specified count, and for a legal one that is the number of cycles the engine spends issuing, plus 16 |
| DmaReference.CyclesMatchEngine | runtime/lib/cmodel_cycles.cpp:10-23 | for a legal descriptor, start to done and that count differ by exactly latency + 3 - 16 |
| DmaReference.ChargeOfShortRows | runtime/lib/cmodel_cycles.cpp:10-23 | in numbers: one or two aligned rows of 8 words are charged 17 cycles, three of them 18 |
| Crossbar.MappingInjective | rtl/bank/bank_xbar.sv:45-49 | under either mapping, bank and local address determine the address |
| Crossbar.MappingSurjective | rtl/bank/bank_xbar.sv:45-49 | every cell of every bank is the home of an address |
| CrossbarDrain.GrantedReadIsFlat | rtl/bank/bank_xbar.sv:53-88 | a granted slot's data one cycle later is the flat memory's word at its address before that edge's writes |
| CrossbarDrain.EdgeIsFlat | rtl/bank/sram.sv:17-24 | one edge applies exactly the winning writes to the flat memory |
| CrossbarDrain.ResetIsFlat | rtl/bank/bank_xbar.sv:72-118 | an edge in reset grants no read and returns 0, while its winning writes reach the flat memory as at any other edge |
| CrossbarDrain.WriteDrainLinearizable | rtl/bank/bank_xbar.sv:92-118 | re-presenting the ungranted writes in slot order ends in the memory that applying all writes one by one in slot order gives |
| CrossbarDrain.OvertakingIsHarmless | rtl/bank/bank_xbar.sv:109-117 | winners first, losers later is the same as slot order: a winner only overtakes writes to other addresses |
| CrossbarDrain.DrainTimeIsBusiestBank | rtl/bank/bank_xbar.sv:43-70 | the drain takes exactly the largest bank load: no bank exceeds it and some bank has it |
| CrossbarDrain.LosersAreUngranted | rtl/bank/bank_xbar.sv:109-117 | what the drain presents again is exactly what the hardware did not grant |
| CrossbarDrain.UnservedAreWaiting | rtl/tb/bank/tb_bank_xbar.cpp:35-37 | compacting the ungranted low slots gives the unserved requests, whatever fillers stand behind them |
| BankedSram.Sram.Edge | rtl/bank/bank_xbar.sv:53-118 | the arrays after an edge are the specified next state: banks, read registers, grants and bank numbers |
| BankedSram.Sram.ResetEdge | rtl/bank/bank_xbar.sv:72-77 | an edge in reset clears read registers, grants and bank numbers, but the write port is not gated: the arbitrated writes still reach the banks |
| BankedSram.Sram.ArbitrateReads | rtl/bank/bank_xbar.sv:53-70 | a slot is served iff no lower slot names its bank, and each bank gets that slot's local address, or 0 |
| BankedSram.Sram.ServeBank | rtl/bank/bank_xbar.sv:62-69 | the inner loop serves the first requester of one bank and disturbs no other bank |
| BankedSram.Sram.ArbitrateWrites | rtl/bank/bank_xbar.sv:92-118 | each bank's write is the first valid one that names it |
| BankedSram.Sram.LatchReads | rtl/bank/sram.sv:17-20 | the read registers take the words from before the edge's writes; grants and bank numbers are delayed with them |
| BankedSram.Sram.CommitWrites | rtl/bank/sram.sv:22-24 | exactly the arbitrated writes reach the banks and nothing else of the state changes |
| BankedSram.Sram.RunReads | rtl/tb/bank/tb_bank_xbar.cpp:25-42 | the loop that re-presents ungranted reads with address-0 fillers takes exactly the busiest bank's load in cycles |
| BankedSram.Sram.RunWrites | rtl/bank/bank_xbar.sv:92-118 | re-presenting ungranted writes until all are granted has applied the batch in slot order |
| StrideConflicts.PeriodIsBanksOverGcd | docs/notes/design/rtl-r2.md:158-168 | the period of a stride times the greatest common divisor of stride and bank count is the bank count |
| StrideConflicts.StrideLaw | docs/notes/design/rtl-r2.md:158-168 | n reads at multiples of k drain in exactly ceil(n / period) cycles under the plain mapping |
| StrideConflicts.PitchExtremes | docs/notes/design/rtl-r2.md:166 | odd pitches never conflict, pitches divisible by the bank count serialise fully |
| HashedStrides.HashedStrideLaw | rtl/bank/bank_xbar.sv:45-49 | with banks at least as deep as there are banks, as the slice of the address needs, n reads at a pitch of 2^s words under the XOR mapping of 2^bw banks drain in exactly ceil(n / p) cycles, where p is 2^bw up to s = bw, 2^(2bw-s) up to s = 2bw and 1 beyond |
| HashedStrides.WideLaw | rtl/bank/bank_xbar.sv:45-49 | under the XOR mapping, any pitch that is h times the number of banks takes as long as a pitch of h takes under the plain one |
| HashedStrides.HashWindow | docs/notes/design/rtl-r2.md:167 | with no more reads than banks: one cycle up to a pitch of NBANK, ceil(n / 2^(2bw-s)) inside the window of the hash, n cycles once the pitch has left it |
| HashedStrides.OncePerBlock | rtl/bank/bank_xbar.sv:45-49 | at a fine pitch, every block of NBANK consecutive steps goes to every bank exactly once, at a position given in closed form |
| HashedStrides.OperandsCollide | docs/notes/design/rtl-r2.md:168 | two batches that are both busiest in bank 0 take exactly as long together as one after the other, under any mapping |
| HashedStrides.StridesCollide | docs/notes/design/rtl-r2.md:168 | and strided reads from address 0 on are such batches under both mappings |
| HashedStrides.PlainTable | rtl/tb/bank/tb_bank_xbar.cpp:104-116 | 16 and 17 cycles at pitch 128, 1 and 2 cycles at pitch 129 |
| HashedStrides.HashedTable | rtl/tb/bank/tb_bank_xbar.cpp:104-116 | 2 and 3 cycles at pitch 128 with the hash, 16 cycles at pitch 1024 |
| PipeSlice.SliceIsFifo | rtl/pip/pipe_slice.sv:16-34 | an edge removes the taken word in front and appends the accepted word behind; stalled output stays |
| PipeSlice.Registers.Posedge | rtl/pip/pipe_slice.sv:16-28 | the clocked registers perform that step; reset empties them |
| PipeSlice.ChainIsFifo | rtl/pip/pipe_slice.sv:16-34 | one edge of a chain, seen from any slice on, is one FIFO step |
| PipeSlice.ChainConserves | docs/notes/design/rtl-r1.md:124-135 | over any run and handshake pattern, what was in the chain and was accepted is what was delivered and is still inside, in order, with at most two words a slice |
| PipeSlice.DeliveredIsPrefix | docs/notes/design/rtl-r1.md:124-135 | from empty slices the output is always a prefix of the accepted input, at most 2N words behind |
| PipeSlice.StalledDataIsStable | docs/notes/design/rtl-r1.md:137-143 | a word offered and not taken is offered unchanged in the next cycle |
| PipeSlice.FullThroughput | rtl/pip/pipe_slice.sv:16-34 | with source and sink always ready, one word is delivered in every cycle from cycle N on, from any starting fill |
| PipeSlice.Latency | rtl/pip/pipe_slice.sv:16-34 | from empty slices the first word takes N cycles and no slice ever holds two |
| CModel.Chip.ExecDmaLoad | runtime/lib/cmodel_exec.cpp:41-51 | the alignment assertion and the row copies over the byte array agree with the instruction's meaning, aborts included |
| CModel.Chip.ExecDmaStore | runtime/lib/cmodel_exec.cpp:53-62 | the loop that reads every field through the descriptor pointer again in each row, from the memory it is writing, agrees with the queue entry's meaning, a store over its own descriptor included |
| CModel.Chip.ExecMatmul | runtime/lib/cmodel_exec.cpp:64-90 | the overlap assertion and the three loops agree with the meaning of MATMUL, reading what earlier iterations wrote |
| CModel.Chip.MatmulElement | runtime/lib/cmodel_exec.cpp:75-87 | one output element: the k loop in order, then the old value if accumulating, one rounding |
| CModel.Chip.ExecElementwise | runtime/lib/cmodel_exec.cpp:92-117 | the four elementwise operations with rhsBlk and rhsStride, assertions and the zero-divisor abort agree with the instruction's meaning |
| CModel.Chip.ExecAct | runtime/lib/cmodel_exec.cpp:119-155 | the activation loop, by the number of its kind, aborting on an unknown one |
| CModel.Chip.ExecReduce | runtime/lib/cmodel_exec.cpp:157-204 | all four reductions row by row, by the number of their kind, with the rows/cols and idxAddr assertions |
| CModel.Chip.ReduceMaxRow | runtime/lib/cmodel_exec.cpp:164-172 | the loop's result for a row is the fold from the first element |
| CModel.Chip.ReduceSumRow | runtime/lib/cmodel_exec.cpp:174-187 | sums and square sums accumulate from the first element and round once |
| CModel.Chip.ReduceArgmaxRow | runtime/lib/cmodel_exec.cpp:188-199 | value and 32-bit index of the fold are stored for a row |
| CModel.Chip.ExecInstruction | runtime/lib/cmodel_exec.cpp:208-237 | dispatch on the opcode, with the range check of the descriptor pointer and the descriptor read from DDR at execution time, row by row for DMA_STORE |
| CModel.Chip.ReadDescriptor | runtime/include/eclipse_isa.h:57-105 | the fields of each descriptor struct, little endian, from memory |
| CModel.Chip.RunAll | runtime/lib/simulator.cpp:13-23 | popping and executing until the queue is empty is the run of the queue |
| CModel.Chip.WriteDdr | runtime/lib/simulator.cpp:7-9 | the host's copy into DDR: it fails on an address outside and otherwise changes exactly the bytes of the block |
| IsaContract.MatmulLeaves | docs/spec/isa.md:85-102 | for operands inside SRAM that do not overlap, every element (i, j) of the output is the inner product of row i and column j, transposed operands read the other way round, accumulated from zero in order, plus the old element if accumulating, rounded once; all other words stay |
| IsaContract.EwiseLeaves | docs/spec/isa.md:104-118 | dst[i] = lhs[i] op rhs[s(i)] with s(i) = row * rhsStride + column mod rhsBlk, for operands that the output does not overwrite too early, in place included; a division aborts if and only if some divisor is zero |
| IsaContract.ActLeaves | runtime/include/eclipse_isa.h:49 | kind 0 leaves relu of every element, 1 exp, 2 the reciprocal square root, 3 silu, and any other kind aborts |
| IsaContract.ReduceLeaves | docs/spec/isa.md:132-162 | dst[r] is the fold of row r, rounded once, in place included, and a kind other than 3 with an index address aborts |
| IsaContract.MaxLeaves | docs/spec/isa.md:132-162 | kind 0 leaves the maximum of every row, +0 rather than -0, NaN if there is one |
| IsaContract.SumLeaves | runtime/lib/cmodel_exec.cpp:174-187 | with exact arithmetic kind 1 leaves the encoded sum of every row and kind 2 that of the squares |
| IsaContract.ArgmaxLeaves | docs/spec/isa.md:132-162 | kind 3 leaves the maximum and, as a 32-bit number, the index of its first occurrence or of the first NaN |
| Rounding.Fp16ToFp32 | runtime/include/dtype.h:15-40 | the normalisation loop yields the widened bits |
| Rounding.Fp32ToFp16 | runtime/include/dtype.h:43-86 | the branches with rounding and carry yield the narrowed bits |
| Rounding.RoundSubnormal | runtime/include/dtype.h:62-73 | dropping `shift` bits and bumping on a tie or above gives the subnormal rank, carry into the first normal included |
| RoundingCorrect.NarrowIsNearest | runtime/include/dtype.h:43-86 | for every non-NaN fp32 the result's magnitude is nearest among all fp16 ranks, ties to the even one, and the sign is kept |
| RoundingCorrect.NoCloserValue | runtime/include/dtype.h:43-86 | no finite fp16 value is closer to the input than a finite result, and if another is as close the result's significand is even |
| RoundingCorrect.OverflowThreshold | runtime/include/dtype.h:59-60 | the result is infinite if and only if the magnitude reaches the midpoint above the largest finite value |
| RoundingCorrect.NarrowMonotone | runtime/include/dtype.h:43-86 | the conversion is monotone on every pair of non-NaN inputs |
| RoundingCorrect.NearestMonotone | runtime/include/dtype.h:43-86 | the nearest rank is unique and grows with the magnitude |
| RoundingCorrect.WidenIsExact | runtime/include/dtype.h:15-40 | widening keeps sign and exact value of every finite input, and infinities |
| RoundingCorrect.NarrowInvertsWiden | runtime/include/dtype.h:15-86 | narrowing undoes widening on every non-NaN value |
| RoundingCorrect.NaNsStayNaNs | runtime/include/dtype.h:50-54 | NaNs stay NaNs with their sign in both directions, and narrowing makes them quiet |
| ReduceFold.FoldMeaning | runtime/lib/cmodel_exec.cpp:164-199 | the fold of a row is NaN iff the row has one, else its greatest element with +0 above -0; the index is the first NaN's, else the first numerically equal element's |
| ReduceFold.TopJoin | runtime/lib/cmodel_exec.cpp:20-30 | reduceMax of the maxima of two neighbouring ranges is the maximum of both |
| ReduceFold.FirstJoin | runtime/lib/cmodel_exec.cpp:34-39 | reduceArgmax of two neighbouring ranges keeps the first index and agrees with reduceMax on the value |
| ReduceFold.TopUnique | runtime/lib/cmodel_exec.cpp:20-30 | that meaning determines the value |
| ReduceFold.TreeMeaning | runtime/lib/cmodel_exec.cpp:20-39 | every binary tree over contiguous splits of a range has the same meaning |
| ReduceFold.TreeIsFold | runtime/lib/cmodel_exec.cpp:164-199 | any such tree over a row gives exactly what the sequential fold gives |
| ReduceFold.StoredAgree | runtime/lib/cmodel_exec.cpp:32-39 | MAX and ARGMAX store the same value, and the stored index words denote the first element equal to it |
| ReduceFold.IeeeOrdered | runtime/lib/cmodel_exec.cpp:20-30 | comparisons of decoded bit patterns as IEEE 754 defines them meet the order laws these results need |
| HazardChecker.Check | tools/hazard_check.py:151-190 | the loop over the active list reports a violation if and only if two accesses overlap that way with no SYNC between |
| HazardChecker.CheckInstruction | tools/hazard_check.py:167-185 | for one instruction, exactly its RAW, WAR and WAW pairs against the active accesses |
| HazardChecker.RangesOverlap | tools/hazard_check.py:32-37 | true if and only if some two half-open intervals share a byte |
| Footprints.FootprintSound | tools/hazard_check.py:59-148 | every address any step of an instruction that passes its range checks reads or stores lies in the checker's read or write intervals, unless a DMA row start wraps around or a broadcast pitch does not fit |
| BroadcastFootprint.RhsSizeExact | tools/hazard_check.py:112-117 | the addresses a running instruction reads its broadcast operand at all lie in the checker's interval if and only if there is one row, or the pitch modulo 2^31 is at most the block, or the element count wraps around and the last word of the elements that run lies inside |
| Footprints.RowRangesExact | tools/hazard_check.py:23-29 | the rows of one side of a DMA that passes its range checks stay inside the checker's intervals if and only if no row start wraps around in 32 bits |
| Reach.Aborts | runtime/lib/cmodel_exec.cpp:41-204 | an instruction with any access outside its memory aborts, whatever memory holds |
| HazardLimits.WrappedRowsPass | tools/hazard_check.py:23-29 | a DMA_LOAD with a negative pitch and a load over its second row pass the checker, and the two orders leave different words |
| HazardLimits.WidePitchPasses | tools/hazard_check.py:112-117 | a load into the word the second row of a wide-pitch operand reads passes the checker, and the two orders give different sums |
| Commutation.ExecFrame | tools/hazard_check.py:59-148 | an instruction changes no byte outside its write intervals |
| Commutation.ExecLocal | tools/hazard_check.py:59-148 | abort or not, and every stored byte, depend only on the bytes in its intervals |
| Commutation.IndependentCommute | docs/spec/isa.md:54 | instructions whose intervals do not conflict commute, aborts included |
| HazardSoundness.CleanMeansOrderFree | tools/hazard_check.py:151-204 | if the report is empty, every reordering inside the SYNC-free segments ends in the same memory as program order, or aborts with it |
| HazardSoundness.OrderIrrelevant | docs/spec/isa.md:54 | pairwise clear instructions give the same result in every order |
| Interleavings.CleanMeansOverlapFree | docs/spec/isa.md:54 | if the report is empty, every interleaving of the iterations of the instructions between two SYNCs ends in the memory of the in-order run, or aborts with it |
| Interleavings.OverlapIrrelevant | docs/spec/isa.md:54 | the iterations of pairwise clear instructions may overlap in any way |
| CommandQueue.DescriptorRoundTrip | runtime/include/eclipse_isa.h:57-105 | a descriptor written for any instruction reads back as that instruction |
| CommandQueue.DescriptorLayout | runtime/include/eclipse_isa.h:57-105 | every field of a written descriptor stands at its byte offset in the struct, the two bools of MatmulParam at 28 and 29 |
| CommandQueue.FieldsAreBytes | tools/eclipse-run.cpp:112-179 | writing the fields is copying the struct's bytes, lowest first, four to a field |
| CommandQueue.DescriptorsSurvive | tools/eclipse-run.cpp:112-187 | if every descriptor is in DDR, no instruction writes into that of a later one and no store into its own, the queue runs as the program it denotes at the start |
| CommandQueue.StoreRunsAsDecoded | runtime/lib/cmodel_exec.cpp:53-62 | a store that leaves its own descriptor alone runs as the instruction decoded once, although it reads its fields again in every row |
| CommandQueue.OnlyStoresWriteDdr | runtime/lib/cmodel_exec.cpp:41-204 | at every point of any other instruction DDR, and with it every descriptor, is what it was at the start |
| CommandQueue.QueueOrderFree | tools/hazard_check.py:151-204 | order freedom for the queue itself, with descriptors read at execution time, if neither order overwrites a descriptor still to be read |
| CommandQueue.LoadedDecodes | tools/eclipse-run.cpp:112-185 | with slots a descriptor apart, every instruction decodes to what was loaded, whatever was written to the other slots |
| CommandQueue.LoadedRuns | tools/eclipse-run.cpp:112-187 | running the loaded queue is running the program |
| QueueLimit.OverwrittenDescriptor | tools/hazard_check.py:59-190 | a DMA_STORE over another instruction's descriptor passes the checker, yet one order aborts and the other does not |
| QueueLimit.OwnDescriptor | runtime/lib/cmodel_exec.cpp:53-62 | a DMA_STORE over its own descriptor passes the checker, yet ends after the row that replaces its row count and leaves another memory than the instruction it decodes to |
| Emission.SramAllocator.Allocate | compiler/lib/Dialect/Eclipse/Transforms/EclipseAllocate/SramAllocator.cpp:15-23 | 32-bit sums included, which requests are granted and where, and that the blocks stay inside the memory and apart as long as no sum wraps around; on failure nothing changes |
| Emission.PlaceAll | compiler/lib/Dialect/Eclipse/Transforms/EclipseAllocate/EclipseAllocate.cpp:28-129 | the walk over arguments and allocations, in 32 bits: memref arguments and then the allocations outside the SRAM get consecutive 64 KB slots from 0x40010000 on, buffers get the allocator's blocks, and the pass succeeds exactly if the arguments end inside DDR and no buffer is refused |
| Emission.PlaceArguments | compiler/lib/Dialect/Eclipse/Transforms/EclipseAllocate/EclipseAllocate.cpp:35-48 | each memref argument gets the next 64 KB slot, other arguments none |
| Emission.WalkMeetsPlacement | compiler/lib/Dialect/Eclipse/Transforms/EclipseAllocate/EclipseAllocate.cpp:35-128 | for a function whose tensors fit, the walk succeeds and gives every buffer and root the address the emitter uses, roots numbered by the memref arguments and then the other allocations |
| Emission.SlotsInsideExactly | compiler/lib/Dialect/Eclipse/Transforms/EclipseAllocate/EclipseAllocate.cpp:35-56 | the first n slots all lie inside DDR if and only if n is at most 0x7FFF |
| Emission.AllocationsUnchecked | compiler/lib/Dialect/Eclipse/Transforms/EclipseAllocate/EclipseAllocate.cpp:50-56 | the end of DDR is not looked at behind the allocations: a function with 0x8000 of them is accepted and its last root lies behind DDR |
| Emission.PlacementExactly | compiler/lib/Dialect/Eclipse/Transforms/EclipseAllocate/EclipseAllocate.cpp:78-123 | for any buffer sizes, the walk goes through with every buffer inside the SRAM if and only if the aligned sizes fit, and then the addresses are those of the placement function |
| Emission.OversizedAccepted | compiler/lib/Dialect/Eclipse/Transforms/EclipseAllocate/SramAllocator.cpp:15-23 | a buffer whose end wraps around to address 0 is accepted although it is larger than the SRAM |
| Emission.PlacedApart | compiler/lib/Dialect/Eclipse/Transforms/EclipseAllocate/SramAllocator.cpp:15-23 | distinct buffers never share a byte, for any sequence of allocations |
| Emission.PlacedTight | compiler/include/eclipse/Dialect/Eclipse/EclipseConstants.h:10 | every buffer starts at the first multiple of 32 behind the one before it, the first at 0x10000000 |
| Emission.PlacedInside | compiler/lib/Dialect/Eclipse/Transforms/EclipseAllocate/SramAllocator.cpp:15-23 | buffers lie inside the SRAM at 16-byte addresses |
| Emission.RootsApart | compiler/lib/Dialect/Eclipse/Transforms/EclipseAllocate/EclipseAllocate.cpp:35-48 | roots that fit their 64 KB slots never share a byte |
| DmaOps.LoadMoves | runtime/lib/cmodel_exec.cpp:41-51 | a DMA_LOAD of a pitched rectangle leaves it packed in SRAM and every other range of words unchanged |
| DmaOps.StoreMoves | runtime/lib/cmodel_exec.cpp:53-62 | a DMA_STORE of a packed buffer leaves it packed in DDR and every other range of words unchanged |
| EmissionCorrect.ComputesResult | runtime/lib/cmodel_exec.cpp:64-204 | in-order steps that each compute their element from unwritten words leave exactly those elements and nothing else changed |
| EmittedMoves.LoadWhole | compiler/lib/Dialect/Eclipse/Transforms/EclipseToEasm/DmaEmit.cpp:43-68 | the emitted load of a whole root runs and matches the IR load on every tensor |
| EmittedMoves.LoadWindow | compiler/lib/Dialect/Eclipse/Transforms/EclipseToEasm/DmaEmit.cpp:70-111 | the emitted load of a subview succeeds if and only if its address is 16-byte aligned, and then loads exactly the window |
| EmittedMoves.StoreWhole | compiler/lib/Dialect/Eclipse/Transforms/EclipseToEasm/DmaEmit.cpp:116-139 | the emitted store runs and matches the IR store |
| EclipseIR.TransposedOperands | compiler/lib/Dialect/Eclipse/Transforms/EclipseToEasm/MatmulEmit.cpp:21-29 | M, K and N are the sizes of an M x K by K x N product into M x N, whichever operands are stored transposed, and its words are the entries (i, k) and (k, j), or (k, i) and (j, k) |
| EmittedCompute.MatmulRefines | compiler/lib/Dialect/Eclipse/Transforms/EclipseToEasm/MatmulEmit.cpp:13-38 | the emitted MATMUL, transposed or accumulating or not, computes the IR product on placed buffers |
| EmittedCompute.EwiseRefines | compiler/lib/Dialect/Eclipse/Transforms/EclipseToEasm/EwiseEmit.cpp:22-46 | the emitted rows, cols, blk and stride address the broadcast operand as the IR does |
| EmittedCompute.ActRefines | compiler/lib/Dialect/Eclipse/Transforms/EclipseToEasm/ActEmit.cpp:13-31 | the emitted ACT computes the IR activation of the whole buffer |
| EmittedCompute.ReduceRefines | compiler/lib/Dialect/Eclipse/Transforms/EclipseToEasm/ReduceEmit.cpp:13-37 | the emitted REDUCE computes the IR reduction row by row |
| EmissionRefines.OpRefines | compiler/lib/Dialect/Eclipse/Transforms/EclipseToEasm/EclipseToEasm.cpp:54-68 | each emitted operation that runs in the IR runs on the machine iff its DMA address is aligned, and keeps memory and tensors matched |
| EmissionRefines.StreamRefines | compiler/lib/Dialect/Eclipse/Transforms/EclipseToEasm/EclipseToEasm.cpp:46-68 | so does a stream of any length |
| EmissionRefines.StreamAborts | runtime/lib/cmodel_exec.cpp:111-114 | where the IR reaches a division by zero, the machine aborts on the emitted stream |
| Lowering.Rewriter.Lower | compiler/lib/Conversion/ConvertLinalgToEclipse/MatmulLowering.cpp:23-138 | a pattern fails exactly on a K that is no multiple of 16, changing nothing; otherwise it appends its buffers and its operations behind what is there |
| Lowering.Rewriter.LowerMatmul | compiler/lib/Conversion/ConvertLinalgToEclipse/MatmulLowering.cpp:50-131 | the builder calls, insertion point moves included, create the peeled block, the loop if there is more than one tile, and the store |
| Lowering.Rewriter.EmitEwiseSequence | compiler/lib/Conversion/ConvertLinalgToEclipse/EwiseLowering.cpp:24-47 | the sequence's three buffers and six operations, in creation order, end up behind what is there |
| Lowering.Rewriter.CreateLoop | compiler/lib/Conversion/ConvertLinalgToEclipse/MatmulLowering.cpp:85-125 | operations created inside the guard become the loop body and the insertion point ends up behind the loop |
| Lowering.Rewriter.LowerAll | compiler/lib/Conversion/ConvertLinalgToEclipse/EwiseLowering.cpp:24-64 | a function body lowers if and only if each operation does, each with buffers of its own |
| MatmulCorrect.LoweredMatmul | compiler/lib/Conversion/ConvertLinalgToEclipse/MatmulLowering.cpp:50-131 | whatever C and SRAM held, C ends as the block recurrence v0 = rd(S0), vt = rd(St + v(t-1)), and no other root or buffer changes |
| MatmulCorrect.LoopRuns | compiler/lib/Conversion/ConvertLinalgToEclipse/MatmulLowering.cpp:85-125 | after every number of loop iterations the result tile holds the recurrence so far |
| MatmulEndToEnd.MatmulOnTheMachine | compiler/lib/Conversion/ConvertLinalgToEclipse/MatmulLowering.cpp:50-131 | lowered, unrolled and emitted, the matmul runs on the machine without an abort and leaves the recurrence in C and every other root unchanged |
| MatmulEndToEnd.MatmulIsProduct | compiler/lib/Conversion/ConvertLinalgToEclipse/MatmulLowering.cpp:50-131 | with exact arithmetic C[i,j] is the sum over all k of A[i,k]*B[k,j] |
| LoweredOps.LoweredEwise | compiler/lib/Conversion/ConvertLinalgToEclipse/EwiseLowering.cpp:24-47 | the sequence succeeds iff no divisor is zero, and then stores the broadcast combination into the output root and nothing else |
| LoweredOps.LoweredUnary | compiler/lib/Conversion/ConvertLinalgToEclipse/ReduceLowering.cpp:22-56 | the activation and reduction sequences always run and store relu, exp, rsqrt or silu of every element, or the maximum, the sum or the sum of squares from the left of every row, rounded once, and change nothing else |
| Broadcast.MatchAndRewrite | compiler/lib/Conversion/ConvertLinalgToEclipse/EwiseLowering.cpp:128-227 | the checks in the pattern's order, with their early returns, accept exactly the generics that meet the acceptance condition as a whole, and only then are buffers and operations created |
| Broadcast.SmallMapAddresses | compiler/lib/Conversion/ConvertLinalgToEclipse/EwiseLowering.cpp:91-108 | every accepted affine map selects, at every (r, c), the word that blk and stride address |
| Broadcast.AcceptedElement | compiler/lib/Conversion/ConvertLinalgToEclipse/EwiseLowering.cpp:169-203 | at every (r, c) the arith operation of the generic's body on its mapped operands equals the descriptor's combination, swapped commutative bodies included |
| Broadcast.BroadcastSound | compiler/lib/Conversion/ConvertLinalgToEclipse/EwiseLowering.cpp:124-228 | running the lowering of any accepted generic leaves in every output element what the generic defines, and other roots unchanged |
| Broadcast.PositionInBlock | compiler/lib/Dialect/Eclipse/Transforms/EclipseToEasm/EwiseEmit.cpp:35-38 | (r*cols + c) mod blk = c mod blk when blk divides cols |
| ElideCopies.FunctionBody.Walk | compiler/lib/Dialect/Eclipse/Transforms/EclipseElideCopies/EclipseElideCopies.cpp:73-89 | the walk with its lastStore map collects the match list |
| ElideCopies.MatchesAre | compiler/lib/Dialect/Eclipse/Transforms/EclipseElideCopies/EclipseElideCopies.cpp:73-89 | every match is a store and a later load of the same root with no store to that root in between |
| ElideCopies.FunctionBody.ForwardMatches | compiler/lib/Dialect/Eclipse/Transforms/EclipseElideCopies/EclipseElideCopies.cpp:91-94 | the in-place loop that replaces buffers and erases loads |
| ElideCopies.FunctionBody.EraseDead | compiler/lib/Dialect/Eclipse/Transforms/EclipseElideCopies/EclipseElideCopies.cpp:96-103 | the in-place loop that erases a store iff its root is dead, looking at each once |
| ElideCopies.FunctionBody.RunOnOperation | compiler/lib/Dialect/Eclipse/Transforms/EclipseElideCopies/EclipseElideCopies.cpp:68-104 | the whole pass on the function body |
| ElisionCorrect.SlotForm | compiler/lib/Dialect/Eclipse/Transforms/EclipseElideCopies/EclipseElideCopies.cpp:68-104 | closed form of the pass: matched loads vanish, everything but dead stores stays under one renaming, dead stores have no reader the scan can see |
| Renaming.OpRelated | compiler/lib/Dialect/Eclipse/Transforms/EclipseElideCopies/EclipseElideCopies.cpp:91-94 | an operation and its renamed form, run on states that agree up to the renaming, end in such states |
| ElisionCorrect.Simulates | compiler/lib/Dialect/Eclipse/Transforms/EclipseElideCopies/EclipseElideCopies.cpp:68-104 | from any point on, the elided program follows the original one |
| ElisionCorrect.ElisionPreserves | compiler/lib/Dialect/Eclipse/Transforms/EclipseElideCopies/EclipseElideCopies.cpp:24-104 | for any program whose kept loads never read an erased root through a view of a view, the elided program runs, every returned root has the same contents, and buffers agree up to the renaming |
| ElisionCorrect.ReadWholeSuffices | compiler/lib/Dialect/Eclipse/Transforms/EclipseElideCopies/EclipseElideCopies.cpp:34-60 | it is enough that forwarded roots are read through casts only |
| ElisionCorrect.ReturnedAlive | compiler/lib/Dialect/Eclipse/Transforms/EclipseElideCopies/EclipseElideCopies.cpp:46-60 | a returned root's stores are never erased |
| ElisionCorrect.DeadRootIsStale | compiler/lib/Dialect/Eclipse/Transforms/EclipseElideCopies/EclipseElideCopies.cpp:46-60 | a root whose store was erased keeps its initial contents throughout, so a reader the scan missed reads those |
| LostRoots.StoreErased | compiler/lib/Dialect/Eclipse/Transforms/EclipseElideCopies/EclipseElideCopies.cpp:46-60 | in a lowered chain the pass erases the one store of a root that is not returned and is read whole, and only behind it |
| LostRoots.OnlyErased | compiler/lib/Dialect/Eclipse/Transforms/EclipseElideCopies/EclipseElideCopies.cpp:46-60 | and it erases no other store |
| LostRoots.NoDeepReaderExactly | compiler/lib/Dialect/Eclipse/Transforms/EclipseElideCopies/EclipseElideCopies.cpp:34-60 | a kept load of a chain reads an erased root if and only if some root is lost: erased and also read in tiles |
| LostRoots.ElidedChain | compiler/lib/Dialect/Eclipse/Transforms/EclipseElideCopies/EclipseElideCopies.cpp:68-104 | eliding a chain that loses no root keeps its returned root and all buffers, for any arithmetic |
| ElidedRuns.ElidedChainRuns | compiler/lib/Dialect/Eclipse/Transforms/EclipseElideCopies/EclipseElideCopies.cpp:68-104 | lost roots or not, the elided program of a chain runs if no arithmetic traps |
| ElisionExact.LostBreaks | compiler/lib/Dialect/Eclipse/Transforms/EclipseElideCopies/EclipseElideCopies.cpp:34-60 | for every lost root there are arithmetic and contents with which the matmul that tiles it computes another product after elision |
| ElisionExact.ElisionExactly | compiler/lib/Dialect/Eclipse/Transforms/EclipseElideCopies/EclipseElideCopies.cpp:24-104 | eliding a chain keeps its meaning for all arithmetic and contents if and only if no root is lost |
| ElisionLimit.LostReturns | compiler/lib/Dialect/Eclipse/Transforms/EclipseElideCopies/EclipseElideCopies.cpp:34-60 | a chain that ends in the product of a lost root returns another tensor after elision |
| ElisionLimit.LostChainBreaks | compiler/lib/Dialect/Eclipse/Transforms/EclipseElideCopies/EclipseElideCopies.cpp:34-44 | in a concrete lowered chain of two activations and a matmul the returned root is 0 before elision and 1 after it |
| ChainElision.ChainDisciplined | compiler/lib/Conversion/ConvertLinalgToEclipse/EwiseLowering.cpp:24-47 | every chain of lowered operations has the fresh-buffer discipline the elision theorem needs |
| ChainMeaning.LoweredMeans | compiler/lib/Conversion/ConvertLinalgToEclipse/ActLowering.cpp:18-45 | each lowering on its own buffers runs iff the operation's tensor meaning is defined, and then updates exactly the output root to it |
| ChainMeaning.ChainComputes | compiler/lib/Conversion/ConvertLinalgToEclipse/MatmulLowering.cpp:23-138 | so does a lowered chain of any length; it fails exactly where the chain divides by zero |
| DivisionTraps.UndefinedChainStops | compiler/lib/Conversion/ConvertLinalgToEclipse/EwiseLowering.cpp:24-47 | the elided program of a chain that means nothing and loses no root reaches a division by zero |
| StreamHazards.OpTouches | tools/hazard_check.py:59-148 | the checker's intervals for an emitted operation lie inside the tensors the operation names |
| StreamHazards.StreamIsClean | compiler/lib/Dialect/Eclipse/Transforms/EclipseAllocate/SramAllocator.cpp:15-23 | operations whose unfenced pairs share no written tensor pass the checker once placed and emitted |
| ChainHazards.LoopHazardFree | compiler/lib/Conversion/ConvertLinalgToEclipse/MatmulLowering.cpp:85-125 | any number of unrolled K blocks is hazard free and ends fenced |
| ChainHazards.ChainHazardFree | compiler/lib/Conversion/ConvertLinalgToEclipse/EwiseLowering.cpp:35-42 | after every group of the elided operations of a chain without such a handover, what has been emitted is hazard free and only that group's store, if elision kept it, is unfenced |
| ChainClean.CleanExactly | tools/hazard_check.py:160-190 | for all shapes that fit, a compiled chain passes the checker if and only if no matmul tiles the root its immediate predecessor stores, unless elision erased that store |
| ChainClean.HandoverIsHazard | compiler/lib/Conversion/ConvertLinalgToEclipse/MatmulLowering.cpp:77-127 | where elision keeps such a store, it and the tile load stand unfenced and overlap: a RAW violation is reported |
| AsmText.NumbersReadBack | tools/eclipse-run.cpp:17-21 | hexadecimal and decimal renderings of every number parse back |
| AsmText.OctalReadsBack | tools/eclipse-run.cpp:17-21 | digits behind a leading zero are read as octal |
| AsmText.Tokenize | tools/eclipse-run.cpp:53-64 | the pos/end scan yields the maximal runs of non-blanks |
| AsmText.SpreadTokens | tools/eclipse-run.cpp:53-64 | splitting printed words gives the words back, for both readers' notion of a blank |
| AsmText.TabsSeparate | tools/eclipse-run.cpp:54-63 | a tab separates two words as a blank does, for both readers |
| AsmText.FieldsFound | tools/eclipse-run.cpp:67-69 | distinct key=value words are all found in the field map with their values |
| Assembly.WriteListing | compiler/lib/Dialect/Eclipse/Transforms/EclipseToEasm/EclipseToEasm.cpp:54-68 | the walk that threads the descriptor address writes one line per instruction, advancing by a descriptor except at SYNC |
| Assembly.LineRecord | tools/eclipse-run.cpp:39-76 | both readers see every emitted line's mnemonic and fields |
| Assembly.RecordLoads | tools/eclipse-run.cpp:112-185 | the record of an emitted line decodes to the instruction and its descriptor address, for all field values |
| Assembly.NamesAgree | docs/spec/isa.md:69-164 | every line carries the name the instruction set gives its instruction, and a record loads only as an instruction of its name |
| EasmFiles.ParseEasm | tools/eclipse-run.cpp:39-76 | the file loop with its trimming skips blank lines and yields the records in order |
| EasmFiles.FileRoundTrip | compiler/lib/Dialect/Eclipse/Transforms/EclipseToEasm/EclipseToEasm.cpp:54-68 | for every instruction list, the written file reads back as exactly those instructions with their descriptor addresses |
| EasmFiles.CarriageReturns | tools/eclipse-run.cpp:49 | a line that ends in carriage return and newline reads as the one without |
| EasmFiles.SlotsFit | compiler/lib/Dialect/Eclipse/Transforms/EclipseToEasm/EclipseToEasm.cpp:24 | at most 1020 descriptors occupy disjoint slots that end before the first tensor |
| EasmFiles.SlotsFitExactly | compiler/lib/Dialect/Eclipse/Transforms/EclipseToEasm/EclipseToEasm.cpp:24 | all descriptors end at or before the first tensor if and only if there are at most 1020 |
| EasmFiles.FirstTooMany | compiler/lib/Dialect/Eclipse/Transforms/EclipseToEasm/EmitHelpers.h:13 | with more, one of them starts exactly at the first tensor's address |
| EasmFiles.CheckerSees | tools/hazard_check.py:59-148 | the checker's parser gives every emitted line exactly the instruction's accesses |
| EasmFiles.CheckerRoundTrip | tools/hazard_check.py:40-56 | the same from the line's text, with Python's strip and split |
| EasmFiles.CommentsSkipped | tools/hazard_check.py:45-47 | the checker takes no record from a line that starts with # or //, whatever follows |
| EclipseRun.PlaceInputs | tools/eclipse-run.cpp:92-107 | the loop over argv writes the k-th input file, counted from 0, to 0x40010000 + 0x10000 * k, and fails if one does not fit into DDR |
| EclipseRun.FilesPlaced | tools/eclipse-run.cpp:92-107 | if no file is larger than its slot, every slot holds its file, padded with zeros, whatever the later files are |
| EclipseRun.LoadProgram | tools/eclipse-run.cpp:109-185 | the loop over the instructions fails on an unknown opcode, a missing field or a descriptor outside DDR, and otherwise leaves all descriptors in memory, the queue in order, and address and size of the last DMA_STORE's tensor |
| EclipseRun.RunFile | tools/eclipse-run.cpp:80-202 | the whole program on the lines of the file and the input files: usage error, inputs, loading, run and output file give the specified result |
| CompiledChain.StreamRuns | compiler/lib/Dialect/Eclipse/Transforms/EclipseToEasm/EclipseToEasm.cpp:46-68 | the compiled stream of a chain that loses no root, run in order on any memory, leaves in the returned root what the linalg chain means for the tensors in memory, and aborts if and only if the chain divides by zero |
| CompiledChain.ReorderedStreamRuns | docs/spec/isa.md:54 | so does every reordering between SYNCs, if no matmul tiles the root its immediate predecessor stores |
| CompiledChain.OverlappedStreamRuns | docs/spec/isa.md:54 | and so does every interleaving of the iterations between SYNCs |
| CompiledChain.FileRuns | tools/eclipse-run.cpp:89-187 | so does writing the stream as text and running it with `eclipse-run`, for the tensors in the input files: argument r is file r at the addresses that program writes, not those the compiler assumes; with at most 1020 descriptors, aborts included |
| CompiledChain.ReorderedFileRuns | tools/eclipse-run.cpp:89-187 | and so does running the loaded queue in any other order between SYNCs |
| CompiledChain.FileLoads | tools/eclipse-run.cpp:89-185 | the written file loads: every queue entry decodes to its instruction, none of them writes into a descriptor, and the roots hold the tensors of the input files |
| CompiledChain.InputsFound | tools/eclipse-run.cpp:92-107 | the words at the address the emitter uses for root r are those of input file r |
| CompiledChain.ToolDumps | tools/eclipse-run.cpp:132-135 | for any chain the program writes the bytes that the run leaves in the last operation's output root, whose store elision never erases |
| CompiledChain.ToolRuns | tools/eclipse-run.cpp:80-202 | for a chain that returns its last result and loses no root, the program writes exactly the bytes of the tensor the chain means for the input files, or fails if the chain divides by zero |
| CompiledChain.DumpsResultExactly | tools/eclipse-run.cpp:132-135 | the tensor dumped is the returned root if and only if the last operation computes it |
| CompiledChain.StreamBehaves | compiler/lib/Dialect/Eclipse/Transforms/EclipseToEasm/DmaEmit.cpp:43-139 | every compiled instruction fits the text format and the checker's assumptions and writes no byte of the descriptor area |

## Left out

- ElisionPreserves: for programs that are no lowered chains its condition is sufficient only, because a stale read need not reach a returned root (a program may store back what it loaded); for chains `ElisionExactly` is exact.
- ElisionExactly: is about all buffers, not the returned root alone. `LostReturns` covers the chains that return the product of a lost root. That such a product reaches the returned root through further operations is not enough to change it: words have 16 bits, so a chain that multiplies by the same matrix often enough takes the stale and the stored contents to the same tensor, whatever the arithmetic.
- FileRuns: covers at most 1020 instructions with a descriptor, for which `SlotsFitExactly` says why, and input files no larger than their 64 KB slots.
- DescriptorsSurvive: the condition on descriptors still to be read is sufficient, not necessary, because an instruction may overwrite a descriptor with the same bytes or with fields that do not matter.
- QueueOrderFree: as `DescriptorsSurvive`.
- LoadedRuns: as `DescriptorsSurvive`.
- CleanMeansOrderFree: DMA rows that wrap around in 32 bits and broadcast pitches that do not fit are excluded, because there the checker's intervals are wrong (`HazardLimits`).
- CleanMeansOverlapFree: as `CleanMeansOrderFree`.
- OrderIrrelevant: as `CleanMeansOrderFree`.
- OverlapIrrelevant: as `CleanMeansOrderFree`.
- IndependentCommute: as `CleanMeansOrderFree`.
- ExecFrame: as `CleanMeansOrderFree`.
- ExecLocal: as `CleanMeansOrderFree`.
- FootprintSound: as `CleanMeansOrderFree`.
- ExecDmaLoad: a DMA row that starts inside a memory and ends outside it is an abort in the model; the reference machine checks only the first byte of a row and then copies past the end of the array.
- ExecDmaStore: as `ExecDmaLoad`.
- WriteDdr: a block that starts inside DDR and ends outside it fails in the model; the host copies past the end of the array.
- PlaceAll: one function, fp16 elements and no alignment attribute on a buffer, which the lowerings never set.
- FilesPlaced: files larger than a slot, which overwrite the next input.
- ReadDescriptor: a descriptor that starts inside DDR and ends outside it reads as zeros there; the reference machine reads past the end of the array.
- CyclesMatchEngine: only for descriptors the engine accepts.
- TransferCompletes: the descriptor inputs stay stable from start to done, DDR answers exactly DDR_LATENCY cycles after a request, and a descriptor has aligned bases, an even byte stride, at least one row and column and no 32-bit wrap.
- EngineRefinesMachine: the packed rectangles that lie inside both memories, with an even byte stride.
- BroadcastSound: assumes that addition and multiplication commute, which IEEE 754 leaves open only for NaN payloads.
- MatmulIsProduct: assumes that the rounded partial sums are representable; the recurrence of `MatmulOnTheMachine` has no such assumption.
- The MLIR machinery (bufferization, canonicalization, conversion driver, TableGen) is not part of this model; it starts from the bufferized operations the lowerings see, with views as values.
- Stores inside an scf.for, forwarding inside one loop body and stores through subviews, which the lowerings never create.
- A store whose root is a function argument: the emitter only handles allocated roots there; the model gives every root an address.
- Deallocation operations, which have no instruction.
- Empty tensors: every dimension is at least 1.
- The patterns that recognise activation and reduction bodies, the expand_shape path of named reductions, and reduction init values, which the machine ignores.
- ARGMAX in the lowered IR: no lowering creates it. It is modelled in the machine, the checker and the text format.
- The `golden-mirror` layout, in which buffers of different operations may overlap.
- File handling, process arguments and the 4096-byte line buffer: the .easm file is a list of lines, the other files are byte sequences.
- Results of exp, rsqrt and silu, which are uninterpreted functions of the element, and the accuracy of fp32 sums.
- The cycle formulas of MATMUL, ELEMENTWISE, ACT and REDUCE and the simulator's cycle log, which are single expressions and a sum.
- bf16, DMA_LOAD_ASYNC and WAIT, which nothing executes.
- Descriptor fetch and DMA_STORE in RTL, which do not exist, and the counter module.
