# A scatter-gather DMA engine and a tiled matrix accelerator, verified

The repository multiplies int8 matrices on an FPGA card. A host program writes two operands into the
card's block RAMs through a DMA driver, starts the accelerator by reading a register, polls another
register, and reads the int16 product back. Two parts of that chain turn a simple meaning into a staged,
stateful machine, and this project models both and proves that the meaning survives.

## The accelerator (`Powers` and `Words` to `HostRuns`, and `StaleReset` to `ResetOutcome`)

Four controllers (`compute_control`, `scatter_a`, `scatter_b`, `gather_c`) and a weight-stationary array of
16 x 16 processing elements exchange one-cycle pulses. Every register of the design is in the model. Each
Verilog module is a class whose `Clock` method is proved against a next-state function; `MatrixMultiply.Step`
wires the next-state functions together: one clock edge, every block seeing the others before the edge.
The tile width N is 16, as the adder tree is written for it; the matrix size is 16r. What is said of the
controllers holds for every r > 0; what is said of data, for every r whose addresses fit, which is 1 to 4.

`Timeline` gives, in closed form, the value every controller register has at every cycle of a run; the
controllers are proved to follow it, and `DataFlow` proves what the buffers, the shift chain, the broadcast
slice, the accumulator and BRAM C hold at each of those cycles, for arbitrary operands. The main results:

- `AcceleratorRun.RunComputesProduct`: whatever `start` does after its first cycle, a fixed number of cycles
  later Finish is up, the design is ready for the next run and BRAM C holds the product.
- `AcceleratorRun.Lockstep`, `NoPulseLost`, `FinishOnlyAtEnd`, `CountersFitIff`: for every size the controllers agree
  on the tile at every start_cal, no handshake pulse is lost, Finish rises once, and all counters stay in their
  declared widths if and only if 16r + 1 < 65536. `EveryWordWrittenOnce`: each word of C is written once.
- `HostReference.HostReadsMirroredProduct` and `PlainProductIff`: the accelerator against the host's triple loop
  and byte decoder.
- `UsrControl.ReadByAddress`, `HostRuns.LaunchIffAccepted`, `AcceptedRunFinishes`, `StatusTwoIff`: which read addresses do
  what, over every sequence of host reads, and of host writes to the operand BRAMs between runs.
- `ResetOutcome.ResetOutcomeIff`, `ResetInRunIff`: when the run that follows a reset comes out right.

What the proofs found in the code:

- The first tile column loaded ends up in the last PE row, so the columns of every 16-wide tile of the result
  come out in reversed order. The data the repository ships is constant along rows and cannot show it.
  `PlainProductIff` proves that the host reads the plain product for every int8 operand A if and only if every
  16-wide tile of B is the same read from either side; `ReversalShows` gives a pair on which it does not.
- The 13-bit address pointers hold sizes up to 64. `SizesThatFit` proves that two words of C share an
  address exactly when r is above 4, so the theorems about data ask for r from 1 to 4 and nothing else.
- `rst` clears neither Final in `scatter_b` nor write_back in `gather_c`. `ResetDuringRun` says in which cycles of a
  run one of them is up. `ResetOutcomeIff` proves that every run started one idle clock after a reset comes out
  right if and only if a Final that was up meets a single tile and a write_back that was up at most two tiles a
  side; `SomeResetSpoils` has the reset, and the operands, for every larger size. What happens instead:
  - Final up, two tiles a side or more: `scatter_b` fetches the first tile twice and stays one tile behind. The run
    takes 19 cycles more and multiplies A by B moved on by one tile (`LateRunFinishes`, `LateRunComputes`).
  - write_back up: `gather_c` writes 16r rows nobody asked for, and from three tiles a side on its done pulse is
    taken for that of the first tile. With three, and with more if Final is up too, Finish never rises
    (`NeverFinishes`); with four and Final down it rises 32r + 23 cycles early, over a last column block that was
    never written (`FinishesEarly`).
- A read taken while an earlier response is left waiting gets no response of its own (`UsrControl.ReadIsAnswered`);
  two status reads after a reset, with rready low, are enough (`ResponseIsLost`).
- Finish is not cleared by a start that arrives in the Finish cycle; `Ready` therefore leaves Finish open.
- `scatter_a`, `scatter_b` and `gather_c` update counters with blocking assignments inside clocked blocks that
  other clocked blocks read. The model takes the hardware meaning: every read sees the value before the edge.
- Accesses to a packed array outside its bounds do nothing (IEEE 1800-2017, sections 7.4.6 and 11.5.1); this is what
  happens to `buffer_B` and `buffer` when their counter is 0 or past the last row.

## The DMA driver (`Extents` to `Pipeline`, `ApertureCut` to `ApertureFailures`)

The driver is a small compiler plus an executor. A user buffer is cut into page pieces (`UserBuffer`), those
into software descriptors of bounded length (`Request`), and those are packed run by run into a ring of
32-byte descriptors linked by bus address (`Ring`). `Walker` is the hardware: it joins the address words of a
descriptor, moves the bytes, and follows `next` until a descriptor carries STOPPED; a wrong magic, a stray
address or a missing STOPPED make it get lost.

`EngineQueue` is the locked protocol that decides from one hardware counter which transfers completed,
`QueueProtocol` what it keeps, `Completion` its accounting, `Counting` when that agrees with what the hardware did,
and `Waiting` one synchronous wait: a transfer is queued, service calls and offline requests happen, and the
submitter finds it finished or aborts it. `Submit` drives a request through ring and queue against a hardware
that may stop anywhere, even inside a descriptor, and is only bound not to report a descriptor as completed whose
bytes it has not moved. `Pipeline` puts the stages together. The `Aperture` modules do the same for requests
wrapped around a window of addresses.

- `Ring.Engine.TransferInit` with `Walker.WalkFromPiece` and `Walker.PlacedMoves`: what the loops leave in the ring,
  walked by the hardware, moves byte k of the run to or from consecutive end-point addresses, in order, each
  once, and stops at the transfer's last slot.
- `Submit.XferSubmit`, `Pipeline.SubmitScatterlist`, `WriteCopiesPrefix`, `ReadCopiesPrefix`: whatever the hardware
  does, the result counts exactly the bytes of the completed transfers, or is the error of the first one that
  did not complete, if and only if the completed ones are shorter than 2^32 bytes; their bytes are copied, those
  of the transfer that did not complete are old or copied, and nothing else changes.
- `Waiting.FateIs` and `CompletedIff`: a transfer is COMPLETED if and only if the first service call to see any of
  its descriptors done saw all of them, without an error.
- `Counting.RunSoundIff`: over a whole run of the engine, COMPLETED always means that the hardware passed the whole
  transfer if and only if no service call has a count below what was already dequeued.
- `QueueProtocol.NextKeeps`, `LeavesOnce`, `Completion.ServiceAccounts`, `ServiceCallsMerge`: the queue protocol over
  all interleavings, and exact completion accounting, also over a sequence of service calls that each end
  between transfers.
- `ApertureRun.RequestIff`: exactly which whole aperture requests come out right.
- `UserBuffer.MapUserBuf`, `Pipeline.AlignedIff`, `Walker.AnnouncedBurstStays`, `Request.TableFitsIff`.

What the proofs found in the code:

- An error or a short result does not mean that nothing more was written: a transfer that failed or timed out may
  have moved any part of its bytes (`Submit.FailedMayMove`).
- The software descriptor table is sized with `len + desc_blen_max - 1` in 32 bits. `TableFitsIff` proves that the
  table is large enough if and only if that sum wraps for no entry; the check for an overrun comes after the
  writes. `OverrunExample` has 17 pieces for one slot at the default maximum.
- `xdma_desc_adjacent` keeps bits 12 and 13, which belong to the 6-bit count. `AdjacentDecodes` gives the exact
  condition under which the new count decodes; both callers start from a fresh control word and meet it.
- `char_sgdma_map_user_buf_to_sgl` cuts each piece to 32 bits, so it succeeds only below 2^32 bytes; the
  leftover-length error is reached exactly from there on.
- The aperture path begins every turn of its loop with the first scatterlist entry again. `TurnFitsIff` proves that
  a turn continues the stream if and only if the driver is still in that entry and the mask of the offset is
  its remainder, which always holds for a power of two (`PowerOfTwoFits`). `RequestIff` is the condition for a
  whole request, in descriptor counts a caller can work out beforehand; `SecondEntryIsLost` fails it in a ring of
  any size, `MaskMisplaces` one whose aperture is three, and `NothingIsMade` reaches a turn without descriptors,
  where `desc_cnt - 1` wraps around.
- A service call judges its queue right if and only if the hardware count exceeds desc_dequeued
  (`ServiceSettlesIff`). A count equal to it marks the head FAILED (`RepeatedCountFails`). A count below it wraps
  around and calls everything COMPLETED that is queued, up to nearly 2^32 descriptors (`UndercountCompletes`). That
  can happen because a half-done transfer is counted off as a whole: `FalseCompletion` is a run from the initial
  state in which the hardware does one descriptor in all and a transfer it never came to is COMPLETED.
- A service call that sees an idle engine and a count of 0 leaves it stopped over its work (`ServiceRunsIff`), and no
  later service call changes that (`IdleReportStrands`).
- The length of a transfer is kept in 32 bits: of a transfer of 2^32 bytes or more the submission counts too little,
  and nothing of one of exactly 2^32 (`CountedIff`, `LengthVanishes`).
- A count that falls inside a transfer spoils what later calls do: two calls come to what the later one would have
  done if and only if the first ended between transfers (`TwoCallsMergeIff`).
- A transfer that the queue refuses keeps its share of desc_used (`Submit.XferSubmit`).
- Aborting a transfer that is not at the head leaves it queued in state ABORTED (`AbortKeepsIff`).

## Model

| member | source | states |
|---|---|---|
| `ProcessingArray.PE.Clock` | FPGA/RTL/src/PE.sv:18-23 | the stationary register clears on reset, loads while stationaryCtrl is up, and holds otherwise |
| `ProcessingArray.ArrayRow` | FPGA/RTL/src/PE_array.sv:24-45 | one clock moves the whole array down by one PE row, or leaves it |
| `ProcessingArray.ShiftChain` | FPGA/RTL/src/PE_array.sv:24-45 | after any burst of shifts row m holds the vector that entered m shifts before the last one, or what it held before |
| `ProcessingArray.LoadPhaseReversesColumns` | FPGA/RTL/src/scatter_B.sv:119-182 | a zero vector and sixteen tile columns leave column 15 - m in PE row m, whatever the array held |
| `ProcessingArray.TreeLevelWraps` | FPGA/RTL/src/PE_array.sv:53-74 | one 16-bit level of the adder tree over wrapped values is the wrapped level of unbounded pairwise sums |
| `ProcessingArray.AdderTreeIsSum` | FPGA/RTL/src/PE_array.sv:46-78 | the four-level tree of 16-bit adders equals the wrapped plain sum of its sixteen inputs |
| `ProcessingArray.ArrayOutIsDot` | FPGA/RTL/src/PE_array.sv:46-78 | every c_out lane is the wrapped dot product of the broadcast slice with its PE row |
| `ComputeControl.Controller.Clock` | FPGA/RTL/src/compute_control.sv:37-100 | one clock of compute_control, all six registers |
| `ComputeControl.PulsesAfter` | FPGA/RTL/src/compute_control.sv:46-99 | from any state: when b_load, start_cal and finish are up after an edge, and which state is reached |
| `ScatterA.Scatter.Clock` | FPGA/RTL/src/Scatter_A.sv:54-103 | one clock of scatter_a, all five registers |
| `ScatterB.Scatter.Clock` | FPGA/RTL/src/scatter_B.sv:67-182 | one clock of scatter_b: control registers, tile buffer and output vector, all from the values before the edge |
| `ScatterB.ResetLeaves` | FPGA/RTL/src/scatter_B.sv:68-75 | a reset leaves everything but state, column and load count, Final among it |
| `ScatterB.Scatter.ClockData` | FPGA/RTL/src/scatter_B.sv:151-182 | the tile buffer takes the word read for the previous count, the output vector the next tile column |
| `ScatterB.Scatter.ClockControl` | FPGA/RTL/src/scatter_B.sv:67-147 | the prefetch state machine |
| `GatherC.Gather.Clock` | FPGA/RTL/src/Gather_C.sv:71-202 | one clock of gather_c: both state machines and the accumulation buffer, all from the values before the edge |
| `GatherC.ResetLeaves` | FPGA/RTL/src/Gather_C.sv:75-125 | a reset clears every control register but write_back |
| `GatherC.FlagsAfter` | FPGA/RTL/src/Gather_C.sv:84-171 | from any state: when recieve_done, write_back and write_back_done are up after an edge, and that an accepted gather_done goes before start_cal |
| `GatherC.Gather.ClockBuffer` | FPGA/RTL/src/Gather_C.sv:186-202 | the buffer is cleared, takes a wrapped sum into the row before the count, or stays |
| `GatherC.Gather.ClockGather` | FPGA/RTL/src/Gather_C.sv:118-174 | the receiving state machine |
| `GatherC.Gather.ClockBram` | FPGA/RTL/src/Gather_C.sv:74-116 | the write-back state machine |
| `MatrixMultiply.ResetReady` | FPGA/RTL/src/Gather_C.sv:74-133 | one idle clock after a reset every register is at its resting value if and only if Final and write_back were clear; Finish is down |
| `AcceleratorRun.ResetDuringRun` | FPGA/RTL/src/scatter_B.sv:68-75 | for every size, a reset in any cycle of a run leaves the design at rest if and only if that cycle is not one of those, given in closed form, in which Final or write_back is up |
| `AcceleratorRun.ResetCanSpoil` | FPGA/RTL/src/Gather_C.sv:118-125 | every run has a cycle with Final up and one with write_back up, after a reset in which the design is not at rest |
| `ResetOutcome.ResetOutcomeIff` | FPGA/RTL/src/Gather_C.sv:74-133 | every run started one idle clock after a reset that finds Final and write_back at given values comes to Finish with the product in BRAM C, if and only if Final up implies one tile and write_back up at most two tiles a side |
| `ResetOutcome.ResetInRunIff` | FPGA/RTL/src/scatter_B.sv:68-75 | the same for a reset in cycle n of a run: the next run comes out right for all operands if and only if Final is down in that cycle or there is one tile, and write_back is down or there are at most two tiles a side |
| `ResetOutcome.SomeResetSpoils` | FPGA/RTL/src/scatter_B.sv:130-142 | from two tiles a side on there are a cycle, operands and a start after which the run that follows the reset comes out wrong |
| `ResetOutcome.LateRightIff` | FPGA/RTL/src/scatter_B.sv:92-142 | a run of more than one tile with Final up too early comes out right if and only if B moved on by one tile has the same product |
| `StaleReset.HarmlessReset` | FPGA/RTL/src/Gather_C.sv:84-116 | with a single tile a stale Final, and with up to two tiles a side a stale write_back, is over before it matters: Finish rises at the usual cycle, over the product |
| `LateRun.LateRunComputes` | FPGA/RTL/src/scatter_B.sv:77-144 | with Final up too early the run of more than one tile computes the product of A and an operand whose first two tiles are the first of B and every other the one before |
| `LateRun.LateRunFinishes` | FPGA/RTL/src/scatter_B.sv:77-144 | it raises Finish exactly 19 cycles late and not before |
| `Desync.NeverFinishes` | FPGA/RTL/src/compute_control.sv:57-86 | after a spurious write-back a run of three tiles a side, or of more if Final was up too, never raises Finish |
| `Desync.FinishesEarly` | FPGA/RTL/src/compute_control.sv:57-86 | a run of four tiles a side or more with Final down first raises Finish 32r + 23 cycles early, when the last column block of C is as it was |
| `MatrixMultiply.IdleKeepsReady` | FPGA/RTL/src/compute_control.sv:47-56 | an idle clock keeps a ready design ready, drops Finish and keeps the three BRAMs |
| `Timeline.WiresAgree` | FPGA/RTL/src/Matrix_Multiply.sv:74-203 | the pulses of the schedule are the outputs of the scheduled registers |
| `Timeline.ControlFollows` | FPGA/RTL/src/compute_control.sv:46-99 | compute_control, driven by the scheduled pulses, goes from each scheduled state to the next |
| `Timeline.ScatterAFollows` | FPGA/RTL/src/Scatter_A.sv:54-103 | the same for scatter_a |
| `Timeline.ScatterBFollows` | FPGA/RTL/src/scatter_B.sv:67-147 | the same for scatter_b, whose fetch of the next tile overlaps the current one |
| `Timeline.GatherFollows` | FPGA/RTL/src/Gather_C.sv:74-174 | the same for the two coupled machines of gather_c |
| `Timeline.PhaseKeepsTime` | FPGA/RTL/src/compute_control.sv:67-86 | the closed form of elapsed cycles is right at every cycle, and the run is over after exactly RunLength cycles |
| `DataFlow.ScatterBAddress` | FPGA/RTL/src/scatter_B.sv:59-64 | the 13-bit pointer names the word of row 16 * row_cnt + count, column block col_cnt |
| `DataFlow.ScatterAAddress` | FPGA/RTL/src/Scatter_A.sv:47-52 | the 13-bit pointer names the word of row count, column block col_cnt |
| `DataFlow.ResultAddress` | FPGA/RTL/src/Gather_C.sv:67-68 | the 13-bit pointer names the word of the row written back, column block col_cnt |
| `DataFlow.AddressesWrap` | FPGA/RTL/src/Gather_C.sv:67-68 | for every size and count the three address slices are word indices modulo 512, 512 and 256 |
| `DataFlow.SizesThatFit` | FPGA/RTL/src/Gather_C.sv:67-68 | no two words of C share an address if and only if the matrices are at most 64 wide |
| `DataFlow.TileBufferFollows` | FPGA/RTL/src/scatter_B.sv:151-167 | at every cycle buffer_B holds the rows of the next tile fetched so far |
| `DataFlow.ChainInputFollows` | FPGA/RTL/src/scatter_B.sv:169-182 | during a load phase the vector fed to the array is the tile column of that cycle |
| `DataFlow.ArrayFollows` | FPGA/RTL/src/PE_array.sv:24-45 | at every cycle of a visit the array holds the tile columns shifted in so far, newest first |
| `DataFlow.BroadcastFollows` | FPGA/RTL/src/Scatter_A.sv:47-112 | one cycle after its address the broadcast slice is the row of A that the visit is at |
| `DataFlow.AccumulateSlice` | FPGA/RTL/src/Gather_C.sv:195-196 | adding c_outs to a row that holds n terms of sixteen dot products gives n + 16 terms of each, despite the wraps |
| `DataFlow.AccumulatorFollows` | FPGA/RTL/src/Gather_C.sv:186-202 | at every cycle each buffer row holds the wrapped partial dot products of the tiles gathered, and zero before a column block begins |
| `DataFlow.WrittenGrows` | FPGA/RTL/src/Gather_C.sv:84-116 | the written words grow by exactly the word gather_c puts out, and only when its row has taken in all 16r terms |
| `DataFlow.ResultsFollow` | FPGA/RTL/src/Gather_C.sv:66-116 | each word already written back holds finished dot products, and no later write disturbs it |
| `AcceleratorRun.StepFollows` | FPGA/RTL/src/Matrix_Multiply.sv:74-203 | one clock of the whole design keeps every control and data register on schedule, whatever start does during a run |
| `AcceleratorRun.RunFollows` | FPGA/RTL/src/Matrix_Multiply.sv:74-203 | n cycles into any run every register is where the schedule puts it and the operands are untouched |
| `AcceleratorRun.RunComputesProduct` | FPGA/RTL/src/Matrix_Multiply.sv:74-203 | RunLength cycles after start Finish is up, the next run can begin, and BRAM C holds the wrapped product, columns reversed within each tile |
| `AcceleratorRun.FinishOnlyAtEnd` | FPGA/RTL/src/compute_control.sv:67-91 | for every size, Finish is up at the last cycle of a run and at none before |
| `AcceleratorRun.Lockstep` | FPGA/RTL/src/compute_control.sv:37-100 | start_cal is up in exactly one cycle per tile, and there, for every size, the controllers hold the same tile and scatter_b is fetching the next one or has none left; if the size fits, the array holds exactly that tile reversed |
| `Timeline.PhaseAtItsTime` | FPGA/RTL/src/compute_control.sv:67-86 | every cycle of every tile visit is reached, at the cycle its closed form says |
| `AcceleratorRun.NoPulseLost` | FPGA/RTL/src/scatter_B.sv:77-144 | for every size, every B_load, start_cal, load_done and gather_done pulse meets its receiver in a state that takes it, is acted on, and is down one cycle later |
| `AcceleratorRun.CountersFitIff` | FPGA/RTL/src/Gather_C.sv:52-57 | every counter of the four controllers stays in its declared width throughout a run if and only if 16r + 1 < 65536, gather_c's inblock_cnt being the one that sets the bound |
| `AcceleratorRun.EveryWordWrittenOnce` | FPGA/RTL/src/Gather_C.sv:66-116 | in a run every word of C is written and none twice |
| `HostReference.MatrixMultiplyLoop` | linux/Final/compare2.c:12-24 | the triple loop with its 16-bit accumulator computes the wrapped integer dot product in every element |
| `HostReference.ConvertToInt16Array` | linux/Final/matrix_top2.c:74-81 | every output has the first of its two input bytes as its low and the second as its high byte; the input stays |
| `HostReference.BytesRoundTrip` | linux/Final/matrix_top2.c:74-81 | decoding the two sign-extended bytes of an int16 gives it back; the low one is it modulo 256, the high one the rest |
| `HostReference.DecodedIsStored` | linux/Final/matrix_top2.c:74-81 | what the host decodes for element (i, j) is that element of BRAM C |
| `HostReference.HostReadsMirroredProduct` | linux/Final/compare2.c:12-24 | after a run every decoded element equals the reference's element in the mirrored column of its tile |
| `HostReference.PlainProductIff` | linux/Final/compare2.c:12-24 | for an int8 operand B the host decodes the reference product for every int8 operand A if and only if every 16-wide tile of B is the same read from either side |
| `HostReference.ReversalShows` | linux/Final/compare2.c:12-24 | for every size, int8 operands on which the host decodes 0 where the reference has 1 |
| `UsrControl.Control.Clock` | FPGA/RTL/src/Usr_control.v:40-100 | one clock of the read channel: eight registers, later assignments winning |
| `UsrControl.Control.ClockRead` | FPGA/RTL/src/Usr_control.v:70-90 | a taken read of the status register answers 2 only if Finish was latched; one of the start register starts a run only if none is in progress |
| `UsrControl.Control.ClockPulses` | FPGA/RTL/src/Usr_control.v:54-67 | a rising Finish is latched; start lasts two cycles |
| `UsrControl.ReadByAddress` | FPGA/RTL/src/Usr_control.v:29-30 | compared with the same cycle without a read: one of 0x1000 .. 0x1FFF (in every 16 KB) answers 1 and begins a run if and only if none is in progress; one of 0x2000 .. 0x2FFF answers 2 and ends the run in progress if Finish is latched, and 0 otherwise; any other answers 0; nothing else differs |
| `UsrControl.QuietCycle` | FPGA/RTL/src/Usr_control.v:54-67 | a cycle without a read keeps data, process and a latched Finish, latches a rising one, and takes a start to its second cycle or ends it |
| `UsrControl.ResponseStands` | FPGA/RTL/src/Usr_control.v:92-98 | a response is raised after an acknowledged address and stands until rready |
| `UsrControl.ReadIsAnswered` | FPGA/RTL/src/Usr_control.v:70-98 | a taken read is acknowledged with 2 exactly for a status read after a latched Finish, with 1 exactly for a read of 0x1000 .. 0x1FFF, and otherwise with 0; the data stand until the response, which is raised anew if and only if no earlier one is left waiting |
| `UsrControl.ResponseIsLost` | FPGA/RTL/src/Usr_control.v:70-98 | two status reads from a reset with rready low: the second is taken while the first response waits |
| `UsrControl.LatchKeeps` | FPGA/RTL/src/Usr_control.v:55-81 | a latched Finish is dropped if and only if a start is accepted |
| `HostRuns.ResetEstablishes` | FPGA/RTL/src/Usr_control.v:42-52 | a reset with Final and write_back clear establishes the invariant of the whole system |
| `HostRuns.NextKeeps` | FPGA/RTL/src/Usr_control.v:53-99 | every clock, with any host read, and with any host write to an operand BRAM outside of runs, keeps the invariant and moves the handshake stage on |
| `HostRuns.LaunchIffAccepted` | FPGA/RTL/src/Usr_control.v:78-84 | compute_control leaves IDLE one cycle after each read of 0x1000 .. 0x1FFF that is taken while no run is in progress, and never otherwise, although start is two cycles long |
| `HostRuns.AcceptedRunFinishes` | FPGA/RTL/src/compute_control.sv:47-80 | until Finish no further start is accepted; Finish rises exactly 1 + RunLength cycles after the accepted read, with the product in BRAM C of what the operand BRAMs held when the run began |
| `HostRuns.StatusTwoIff` | FPGA/RTL/src/Usr_control.v:72-77 | a taken read of 0x2000 .. 0x2FFF is answered with 2 if and only if the run of the last accepted start has finished, and otherwise with 0; BRAM C then holds the product of what the operand BRAMs held when that run began, whatever the host has written since |
| `Descriptors.AdjacentDecodes` | linux/XDMA/xdma/libxdma.c:2328-2336 | magic and flags always decode after the count is set; the count does if and only if no stale bit 12 or 13 adds to it |
| `Descriptors.FlagsDecode` | linux/XDMA/xdma/libxdma.c:2339-2353 | setting the flags keeps magic and count |
| `Descriptors.AdjacentBurstStaysInBlock` | linux/XDMA/xdma/libxdma.c:647-663 | a burst announced for an aligned address stays before the transfer's end, in one 64-descriptor block and in one 4K page, and is the longest such burst |
| `Request.PiecesCover` | linux/XDMA/xdma/libxdma.c:3123-3140 | the pieces of an entry have lengths in 1 .. desc_blen_max, all but the last of them desc_blen_max itself, and are exactly its addresses, in order |
| `Request.AllPiecesCover` | linux/XDMA/xdma/libxdma.c:3123-3140 | the same for a whole scatterlist |
| `Request.EntryFitsIff` | linux/XDMA/xdma/libxdma.c:3106-3111 | an entry's share of the table holds its pieces if and only if its rounding does not wrap 32 bits; what is reserved beyond the one slot is the number of its pieces if it is cut and the rounding does not wrap, and otherwise nothing |
| `Request.TableFitsIff` | linux/XDMA/xdma/libxdma.c:3106-3142 | for non-empty entries of less than 2^32 bytes in all, the pieces fit nents + extra if and only if no entry's rounding wraps |
| `Request.OverrunExample` | linux/XDMA/xdma/libxdma.c:3106-3115 | at the default desc_blen_max one entry of 2^32 - 1 bytes has 17 pieces and a table of one slot |
| `Request.CountTable` | linux/XDMA/xdma/libxdma.c:3106-3115 | the first loop computes nents + extra |
| `Request.CutEntry` | linux/XDMA/xdma/libxdma.c:3124-3139 | the inner loop appends exactly the pieces of one entry, or writes past the table exactly if they do not fit |
| `Request.InitRequest` | linux/XDMA/xdma/libxdma.c:3097-3153 | for every scatterlist: a write past the table if and only if there are more pieces than nents + extra; otherwise the request holds exactly the pieces, its total is the sum of the lengths in 32 bits, and the rejection is not taken |
| `Walker.PlannedControlDecodes` | linux/XDMA/xdma/libxdma.c:2328-2353 | the finished control word of every slot decodes to the magic, the announced count, and STOPPED, COMPLETED and EOP in the last slot only |
| `Walker.AnnouncedBurstStays` | linux/XDMA/xdma/libxdma.c:3027-3034 | in a ring aligned to 32 bytes the count the hardware decodes in each slot of a transfer ends before the transfer does, stays in one 64-descriptor block and one 4K page, and is the largest such; it is 0 in the last slot |
| `Walker.ControlBits` | linux/XDMA/xdma/libxdma.h:177-179 | the control word of each slot of a transfer, bit by bit: 0xAD4B on top; in the last slot bits 0, 1 and 4 and no others of the low byte, in every other slot none |
| `Walker.SlotWords` | linux/XDMA/xdma/libxdma.c:2378-2398 | the other words of each slot: length, the 32-bit halves of source and destination by direction, and of the next slot's bus address, 32 bytes on, or 0 in the last slot |
| `Walker.PieceDecodes` | linux/XDMA/xdma/libxdma.c:2378-2398 | what the hardware reads in each slot is the piece's bytes, the next slot's address, and STOPPED in the last slot only |
| `Walker.WalkFromPiece` | linux/XDMA/xdma/libxdma.c:2261-2287 | the hardware's walk over a finished transfer moves its pieces in order, visits its slots in order and stops at the last one |
| `Walker.PlacedMoves` | linux/XDMA/xdma/libxdma.c:2932-2944 | extents placed one after the other move byte k of their stream to or from ep + k |
| `DmaMemory.ToDeviceCopies` | linux/XDMA/xdma/libxdma.c:2383-2389 | performing the moves of a write leaves the stream's bytes at consecutive device addresses and changes nothing else |
| `DmaMemory.FromDeviceCopies` | linux/XDMA/xdma/libxdma.c:2390-2397 | performing the moves of a read leaves each host byte what the device holds for its last place in the stream, and changes nothing else |
| `Ring.Engine.DescInit` | linux/XDMA/xdma/libxdma.c:2261-2287 | the slots of a transfer are linked by bus address and terminated; no other slot changes |
| `Ring.Engine.Build` | linux/XDMA/xdma/libxdma.c:2923-2959 | slot by slot the next software descriptors are placed at consecutive end-point addresses, and the request's cursor and address move on |
| `Ring.Engine.FillAdjacent` | linux/XDMA/xdma/libxdma.c:3027-3034 | every slot of the transfer announces its count; no other slot changes |
| `Ring.AnnouncedIsPlanned` | linux/XDMA/xdma/libxdma.c:3007-3034 | initialising, filling, flagging and announcing a slot gives the planned descriptor, whatever the slot held before |
| `Ring.Engine.TransferInit` | linux/XDMA/xdma/libxdma.c:2962-3038 | the ring holds the next pending extents as a linked transfer inside the ring, every other slot is unchanged, and desc_idx, desc_used, the cursor and the address advance; it takes what is pending or what is left of the ring, and the next one begins behind it or in slot 0 |
| `Submit.CompletedIsMoved` | linux/XDMA/xdma/libxdma.c:3602-3623 | a transfer found COMPLETED was moved whole, because a hardware that never overreports cannot have been seen to finish it otherwise |
| `Submit.FailedMayMove` | linux/XDMA/xdma/libxdma.c:981-989 | a transfer found FAILED may have moved bytes |
| `Submit.PlanPartitions` | linux/XDMA/xdma/libxdma.c:2994-2998 | the transfers of a request are non-empty and hold the pending software descriptors in order, each exactly once |
| `Submit.AtMostTwoRuns` | linux/XDMA/xdma/libxdma.c:2994-2997 | a request that fits the ring takes at most two transfers, and two exactly if it reaches over the ring's end |
| `Submit.NextTransfer` | linux/XDMA/xdma/libxdma.c:3557-3563 | each transfer of a submission is a non-empty range inside the ring, and the hardware's walk over it extends what was moved by exactly its extents |
| `Submit.Attempt` | linux/XDMA/xdma/libxdma.c:3553-3676 | one turn of the loop: the ring the hardware finds, its walk from the first-descriptor register, how the wait ends, and desc_used given back unless the queue refused it |
| `Submit.SubmitLoop` | linux/XDMA/xdma/libxdma.c:3549-3677 | the loop ends after the first transfer that does not complete or when nothing is pending; what was moved is the bytes of the completed transfers and those the last one got to; each transfer is refused exactly if the device was last taken offline, and the queue flags or the events of the wait before say so |
| `Submit.StrayIsBounded` | linux/XDMA/xdma/libxdma.c:3625-3660 | the bytes of a transfer that did not complete are some of its own, right behind those that are counted |
| `Submit.XferSubmit` | linux/XDMA/xdma/libxdma.c:3549-3694 | the result counts the completed transfers, each with its 32-bit length, or is the first error; every byte moved is the next one of the stream; with nothing counted the error is -16 if the queue refused the transfer, -5 if it failed, -512 if nobody decided it; which transfer is the first not to complete follows from flags and events, and desc_used is given back if and only if the queue was open for it |
| `Submit.CountedIff` | linux/XDMA/xdma/libxdma.c:3602-3623 | what is counted never exceeds the bytes of the completed transfers, and equals them if and only if each is shorter than 2^32 |
| `Submit.LengthVanishes` | linux/XDMA/xdma/libxdma.c:2932-2940 | two descriptors of 2^31 bytes in one transfer count as nothing |
| `EngineQueue.Engine.EngineStart` | linux/XDMA/xdma/libxdma.c:681-776 | starting succeeds exactly on an idle engine with queued work, points the first-descriptor and adjacency registers at the head, clears shutdown and the dequeued count |
| `EngineQueue.Engine.ServiceTransferList` | linux/XDMA/xdma/libxdma.c:828-884 | stage one of completion, as a function of queue and count |
| `EngineQueue.Engine.ServiceFinalTransfer` | linux/XDMA/xdma/libxdma.c:917-1022 | stage two: the transfer the engine stopped on |
| `EngineQueue.Engine.ServiceResume` | linux/XDMA/xdma/libxdma.c:1054-1087 | restart, idle or stop, with no error |
| `EngineQueue.Engine.EngineService` | linux/XDMA/xdma/libxdma.c:1098-1204 | the whole service call as a function of queue and report; -1 exactly for a running engine with an error flag |
| `EngineQueue.Engine.TransferQueue` | linux/XDMA/xdma/libxdma.c:2447-2524 | a transfer without descriptors is refused with -22, one on an engine that is offline or shutting down with -16; an accepted one is at the tail and the engine runs; engine_start cannot fail here |
| `EngineQueue.Engine.TransferAbort` | linux/XDMA/xdma/libxdma.c:2403-2438 | the head leaves, a submitted transfer becomes aborted, the engine stops |
| `EngineQueue.Engine.DeviceOffline` | linux/XDMA/xdma/libxdma.c:4607-4642 | the engine is stopped and takes no more transfers; its queue stays |
| `EngineQueue.Engine.DeviceOnline` | linux/XDMA/xdma/libxdma.c:4664-4693 | the engine takes transfers again |
| `QueueProtocol.FirstBurstStays` | linux/XDMA/xdma/libxdma.c:743-752 | the hardware is pointed at the head's first descriptor, and the burst announced for it ends before the transfer does, stays in one block and is the longest such |
| `QueueProtocol.ListLeaves` | linux/XDMA/xdma/libxdma.c:828-884 | stage one only takes transfers off the head, conserves dequeued plus remaining count, and leaves at most the new head's count, so the WARN_ON of stage two cannot fire |
| `QueueProtocol.ResumeSettles` | linux/XDMA/xdma/libxdma.c:1054-1087 | after resuming, the engine runs if and only if the queue is non-empty; a restart begins a new run at the head with nothing dequeued and no shutdown pending; a stopped engine without work is idle if a shutdown was asked for |
| `QueueProtocol.NextKeeps` | linux/XDMA/xdma/libxdma.c:1098-1204 | every operation keeps: queued transfers are SUBMITTED, distinct and non-empty, running implies work; transfers leave only from the head with a final state and nobody else's state changes |
| `QueueProtocol.LeavesOnce` | linux/XDMA/xdma/libxdma.c:2447-2524 | in every run a final state is final, and its transfer is not in the queue again |
| `QueueProtocol.AbortKeepsIff` | linux/XDMA/xdma/libxdma.c:2403-2438 | aborting a queued transfer keeps the invariant if and only if it is the head |
| `QueueProtocol.ServiceRunsIff` | linux/XDMA/xdma/libxdma.c:1153-1204 | a serviced running engine ends running exactly when it has work, if and only if a completed descriptor was seen or it is busy |
| `Completion.ServiceAccounts` | linux/XDMA/xdma/libxdma.c:828-1022 | the two stages mark COMPLETED and dequeue exactly the transfers within the count, mark FAILED and dequeue the straddled one, keep the rest in order, and account for every descriptor |
| `Completion.ErrorAccounts` | linux/XDMA/xdma/libxdma.c:938-947 | with an error status the transfers that end before the count are COMPLETED and accounted for, the next one is FAILED without being accounted for, the engine stops, and the rest stay |
| `Completion.AccountsIff` | linux/XDMA/xdma/libxdma.c:953-996 | the accounting of the two stages is right if and only if something newly completed or nothing waits |
| `Counting.ServiceSettlesIff` | linux/XDMA/xdma/libxdma.c:1182-1199 | a service call of a running engine that saw a count and no error leaves list and states as the newly completed descriptors say, if and only if the count exceeds desc_dequeued |
| `Counting.WriteBackIgnoresRegister` | linux/XDMA/xdma/libxdma.c:1148-1154 | a call after a write-back comes to the same whatever the register of completed descriptors holds |
| `Counting.WriteBackSettlesIff` | linux/XDMA/xdma/libxdma.c:1101-1199 | such a call leaves list and states as the write-back's count says, if and only if that exceeds desc_dequeued |
| `Counting.RegisterSettlesIff` | linux/XDMA/xdma/libxdma.c:1148-1199 | a call without a write-back leaves them as the register says, if and only if that exceeds desc_dequeued |
| `Counting.UndercountCompletes` | linux/XDMA/xdma/libxdma.c:1182-1192 | a count below desc_dequeued marks COMPLETED every queued transfer that ends within the wrapped difference |
| `Counting.RunSoundIff` | linux/XDMA/xdma/libxdma.c:1098-1204 | over one run of the engine, with transfers queued and service calls in any order, whatever is COMPLETED lies within what the hardware did, if and only if no call has a count below desc_dequeued |
| `Counting.EvenRunIsSound` | linux/XDMA/xdma/libxdma.c:953-996 | that is so whenever every call finds the hardware between two transfers and further on than the call before |
| `Counting.RepeatedCountFails` | linux/XDMA/xdma/libxdma.c:1182-1192 | a run from the initial state in which a second call with the same count fails the next transfer |
| `Counting.FalseCompletion` | linux/XDMA/xdma/libxdma.c:981-989 | a run from the initial state in which a half-done transfer is counted off as a whole and the transfer behind it becomes COMPLETED although the hardware did not come to it |
| `Completion.TwoCallsMergeIff` | linux/XDMA/xdma/libxdma.c:1182-1199 | with the engine still at work, two calls come to what the later one alone would have done if and only if the earlier count ended between transfers |
| `Completion.ServiceCallsMerge` | linux/XDMA/xdma/libxdma.c:1182-1199 | any number of calls of one run, each but the last ending between transfers and with rising counts, come to what the last one alone would have done |
| `Completion.CountsFromStart` | linux/XDMA/xdma/libxdma.c:714-726 | whatever event starts the engine, desc_dequeued begins at 0 and no shutdown is pending |
| `Waiting.FateIs` | linux/XDMA/xdma/libxdma.c:1098-1204 | a transfer queued alone ends in the state that the events alone determine, out of the queue if it is a final one |
| `Waiting.CompletedIff` | linux/XDMA/xdma/libxdma.c:953-1011 | with counts that never exceed its descriptors, it is COMPLETED if and only if the first service call to see any of them, by its write-back or else by the register, saw all, without an error |
| `Waiting.WriteBackDecides` | linux/XDMA/xdma/libxdma.c:1101-1154 | when the first such call comes with a write-back, it completes the transfer if and only if the write-back counts all its descriptors without an error, or more |
| `Waiting.StoppedStays` | linux/XDMA/xdma/libxdma.c:1110-1119 | on a stopped engine no service call and no offline or online request changes queue, states or the stop |
| `Waiting.GateAfter` | linux/XDMA/xdma/libxdma.c:2447-2475 | whether the queue takes the next transfer is decided by the last offline or online request among the events of a wait, whatever else happens |
| `Waiting.IdleReportStrands` | linux/XDMA/xdma/libxdma.c:1159-1160 | a run from the initial state in which an idle report with count 0 strands a transfer for good |
| `Waiting.Await` | linux/XDMA/xdma/libxdma.c:3582-3650 | queueing, waiting and giving up: the ending is a function of queue and events, afterwards nothing is queued, and the hardware was pointed at the transfer |
| `UserBuffer.PagesNrCounts` | linux/XDMA/xdma/cdev_sgdma.c:281-283 | the formula is the number of pages touched, and the last page is the one where the buffer ends |
| `UserBuffer.FillTable` | linux/XDMA/xdma/cdev_sgdma.c:329-345 | nothing is left over if and only if the length is below 2^32, and then each entry runs to its page's end |
| `UserBuffer.TableCovers` | linux/XDMA/xdma/cdev_sgdma.c:329-340 | the entries are non-empty, each in its own page, and together the bytes of the buffer in order |
| `UserBuffer.MapUserBuf` | linux/XDMA/xdma/cdev_sgdma.c:275-353 | exactly when mapping succeeds, which error it returns otherwise, and that a successful table covers the buffer |
| `Pipeline.AlignedIff` | linux/XDMA/xdma/cdev_sgdma.c:218-228 | an incremental-mode request is accepted if and only if every descriptor emitted for it has equal residues on both sides, and refused with -22 otherwise |
| `Pipeline.NonIncrementalIff` | linux/XDMA/xdma/cdev_sgdma.c:192-217 | a non-incremental one is accepted if and only if its first host byte is aligned, its length is whole granules and, if synchronous, its end-point address is aligned, and refused with -22 otherwise |
| `Pipeline.TransfersEmitPlaced` | linux/XDMA/xdma/libxdma.c:2932-2957 | the pieces of successive transfers are the pieces of the request, at the same end-point addresses |
| `Pipeline.WriteCopiesPrefix` | linux/XDMA/xdma/libxdma.c:3549-3694 | after a write the counted bytes of the host's stream are in the device from ep on, bytes in the range of the transfer that did not complete are old or the host's, and all others are unchanged |
| `Pipeline.ReadCopiesPrefix` | linux/XDMA/xdma/libxdma.c:3549-3694 | after a read the counted bytes of the stream hold the device's, those of the transfer that did not complete are old or the device's, and all other memory is unchanged |
| `Pipeline.SubmitScatterlist` | linux/XDMA/xdma/libxdma.c:3540-3694 | the whole call, for any total length: the table overrun condition, and otherwise the bytes moved, a result that counts them right if and only if each completed transfer is shorter than 2^32, that is the total if and only if moreover every transfer is taken and completes, and that is -16, -5 or -512 by the cause when nothing is counted |
| `Powers.AndBits` | linux/XDMA/xdma/libxdma.c:3270 | the mask of an offset has the bits that both have |
| `Powers.MaskIsMod` | linux/XDMA/xdma/libxdma.c:3270 | for a power of two the mask of an offset is its remainder |
| `ApertureCut.CutAllMoves` | linux/XDMA/xdma/libxdma.c:3283-3310 | the descriptors cut for a list are non-empty, no longer than desc_blen_max, inside the window, and move byte k of the list to or from place w + k modulo the window |
| `ApertureCut.CutAllLongest` | linux/XDMA/xdma/libxdma.c:3283-3302 | each of them has the greatest length, or ends the window, or ends an entry |
| `Aperture.OneDescriptor` | linux/XDMA/xdma/libxdma.c:3284-3302 | one descriptor takes as much as the length limit and the window allow |
| `Aperture.FillPieces` | linux/XDMA/xdma/libxdma.c:3268-3323 | from any cursor a turn makes the descriptors of what it reads, as many as the ring has slots, and leaves offset, sg_idx and sg_offset as the loop does, in 32 bits |
| `Aperture.LinkPieces` | linux/XDMA/xdma/libxdma.c:3325-3349 | linking, terminating and announcing the filled slots gives a finished transfer |
| `Aperture.BuildTransfer` | linux/XDMA/xdma/libxdma.c:3236-3351 | one turn from any cursor: what the hardware's walk moves, what the cursor becomes, and that it is undefined exactly if it makes no descriptor; every descriptor has 1 .. desc_blen_max bytes inside ep_addr .. ep_addr + aperture and is as long as the entry, desc_blen_max and the window allow; move k goes to or from ep_addr + (w + k) % aperture for the masked offset w, which is 0 on the first turn |
| `ApertureRun.ReadsRest` | linux/XDMA/xdma/libxdma.c:3269-3281 | while the driver is in the first entry a turn reads the rest of the stream |
| `ApertureRun.FirstMoveIff` | linux/XDMA/xdma/libxdma.c:3269-3294 | on a list that names no byte twice, the first move of a turn is the right one if and only if the driver is still in the first entry and the mask fits |
| `ApertureRun.TurnFitsIff` | linux/XDMA/xdma/libxdma.c:3269-3319 | the same for all moves of the turn |
| `ApertureRun.MakesNothingIff` | linux/XDMA/xdma/libxdma.c:3278-3281 | a turn makes no descriptor if and only if it stands in the last entry at an offset equal to the length of the first |
| `ApertureRun.OneTransferCompletes` | linux/XDMA/xdma/libxdma.c:3268-3319 | a request that fits one transfer comes out right, for any aperture |
| `ApertureRun.RequestIff` | linux/XDMA/xdma/libxdma.c:3236-3351 | a whole request comes out right if and only if each transfer after the first begins inside the first entry, in descriptor counts, and at an offset whose mask fits |
| `ApertureRun.CompletesByAddress` | linux/XDMA/xdma/libxdma.c:3163-3166 | coming out right means that the moves of the request are those of its stream, byte k to or from ep_addr + k % aperture |
| `ApertureRun.PowerOfTwoFits` | linux/XDMA/xdma/libxdma.c:3270 | for a power of two the mask always fits |
| `ApertureRun.Turns` | linux/XDMA/xdma/libxdma.c:3236-3394 | the loop, when every transfer completes, does what the turns say |
| `ApertureFailures.SecondEntryIsLost` | linux/XDMA/xdma/libxdma.c:3269-3273 | in a ring of any size that stands at its last slot, a request of two entries reads the first one twice |
| `ApertureFailures.MaskMisplaces` | linux/XDMA/xdma/libxdma.c:3270 | with an aperture of three, in a ring of any size that stands at its last slot, a request of one entry of six bytes goes on at place 2 of the window instead of 0 |
| `ApertureFailures.NothingIsMade` | linux/XDMA/xdma/libxdma.c:3321-3326 | a request that comes to a turn without descriptors while a byte is still to be moved |

## Left out

- Kernel plumbing: PCI probing, BAR mapping, interrupts set-up, character devices, mmap, ioctl, workqueues and threads. Memory allocation succeeds except in mapping a user buffer; pinned page frames, queue outcomes and hardware reports are parameters.
- The streaming, cyclic, end-of-packet-flush and credit paths, whose ring and completion invariants differ.
- The asynchronous path (`xdma_xfer_submit_nowait`), where outstanding ring slots are not guarded.
- The non-incremental address mode in `transfer_build`; `check_transfer_align` is modelled in both modes.
- 64-bit wrap-around of addresses, and the sign of lengths: addresses are natural numbers.
- SubmitScatterlist: the sum of the table slots is not wrapped to 32 bits, which would take 2^32 slots.
- InitRequest: stops at the first write past the table, from where the C program is undefined; `desc_blen_max` is at least 1.
- Build: leaves out the non-incremental and the streaming branch of `transfer_build`.
- TransferInit: leaves out the eop_flush branch and the field desc_cmpl_th, which is desc_num otherwise.
- Attempt: is for a queue that holds no other transfer, which synchronous callers ensure with the descriptor lock; it holds for every sequence of service calls and offline requests during the wait, and for bytes moved in stream order.
- RunSoundIff: is about runs for which at most 2^31 descriptors are queued in all, without errors; the hardware counter wraps at 2^32.
- ServiceCallsMerge: is about interrupt-mode calls, whose count is read from the register; a call with a write-back count also ends the engine's run, and the next one counts from 0 (`CountsFromStart`).
- TwoCallsMergeIff: the same, for two calls with rising counts of which the first does not reach into the last queued transfer.
- BuildTransfer: stops where the turn makes no descriptor, from where the C program is undefined.
- Turns: covers aperture requests all of whose transfers complete; the waiting and the outcome part repeat those of the submit path.
- EngineStart: the control and status registers that start the hardware are represented only by the status read back; what the hardware does from the first-descriptor register on is `Walker`.
- DeviceOffline: one engine and one step, without the interrupt teardown.
- DeviceOnline: one engine and one step, without the initialisation of registers.
- MapUserBuf: the release of pinned pages after an error is not represented.
- The register dump in the timeout path, whose failure skips the abort.
- Unknown values before the first reset: registers may hold anything, but not X.
- `PE_array` is modelled on values, as its source is wiring; the 256 registers are one value that `ArrayNext` updates as 256 `PE` objects would.
- ResetOutcomeIff: is about a reset of one clock and a start exactly one idle clock later.
- Writes of the host into the block RAMs during a run, the AXI write channel, LEDs, debug wires, `c_in` and `c_ins`.
- The Xilinx cores and the PCIe top level: a block RAM is a sequence with one-cycle reads.
- User tools, timing and printing code, scripts and test benches; the flatten functions of `matrix_top2.c`, which its main program never calls.
