# Verified models of the CVA6 cycle model, CoreMark and their companions

This project models parts of the CVA6 repository in Dafny and proves properties of them. `dafny verify
dfyconfig.toml` checks it.

## What is modelled

**The cycle model of the pipeline** (`perf-model/model.py`, `perf-model/isa.py`). An in-order, multi-issue
pipeline is stepped cycle by cycle over a trace: commit, execute, issue, fetch. `Scheduler.dfy` gives the step as
functions on values, with the instruction queue (`FetchQueue.dfy`), the functional units (`FunctionalUnits.dfy`), the
return-address stack and the branch history table (`Predictors.dfy`) and the instruction predicates (`Isa.dfy`).
`CycleModel.dfy` holds the program's own form: classes whose methods update their fields in loops, each proved to
compute the function of the same name on the value of the object. What the functions guarantee over whole runs is in
`Timeline.dfy` (one flat line of instructions behind queue, scoreboard and retired list), `Invariants.dfy`, `Runs.dfy`,
`Liveness.dfy`, `PredictorRuns.dfy` and, as the results a user of the model relies on, `Schedule.dfy`. All of it holds
for every trace and every setting of issue width, commit width, scoreboard length, fetch size, forwarding, renaming and
second ALU. What a single attempt needs is in `Attempts.dfy`, when a unit refuses in `Units.dfy`, how soon instructions
commit in `Commits.dfy`, and what mispredictions cost in `Mispredictions.dfy`. `FetchFlow.dfy` follows the byte count
of the queue through every step of a run, for traces whose instructions lie at even addresses and leave the sequence
only behind a jump, a branch or a register jump.

**The sense-reversing barrier** (`verif/tests/custom/common/util.h`), in `Barrier.dfy`: a state machine whose steps
are the atomic actions of any number of threads, under any schedule.

**The CRC of the SD bootloader** (`corev_apu/fpga/src/bootrom/src/sd.c`), in `Crc16Word.dfy` and `SdCrc.dfy`: the
byte-wise update and the block loop of `sd_copy`, against long division (`LongDivision.dfy`) by 0x11021, the generator
of section 4.5 of the SD Physical Layer Simplified Specification.

**CoreMark** (`verif/tests/custom/coremark`): the CRC (`CoremarkCrc.dfy`) and the long division it performs
(`CoremarkDivision.dfy`), the list with its caching comparators
(`CoremarkData.dfy`), its in-place mergesort (`CoremarkSort.dfy`) and the list benchmark that must leave the list as it
was (`CoremarkBench.dfy`, with the result of its searches in `CoremarkTally.dfy`), and the number scanner with its
corrupt-and-undo benchmark (`CoremarkState.dfy`, with the meaning of its counts in `CoremarkCounts.dfy`).

**The flame-graph profiler** (`perf-model/profile.py`), in `Profile.dfy` and `ProfileStats.dfy`: cutting a trace into
call and return events, and building statistics from them in two modes; `ProfileFields.dfy` says what each figure is.

**The trace-packet decoder** (`corev_apu/instr_tracing/Decapsuler/Decapsuler.cpp`), in `Decapsulator.dfy`, with the
place of every member in `PacketFields.dfy`.

**Printing and reading numbers** (`verif/tests/custom/common/syscalls.c`), in `Syscalls.dfy`.

`Prelude.dfy`, `Finite.dfy` and `Powers.dfy` hold what the modules share.

## Where code and comments differ

The models follow the code.

- The return-address stack has depth 2 but trims itself to `depth - 1` addresses after a push, so it holds one address
  beside the one dropped last (`perf-model/model.py:171-185`).
- `c.jalr ra` counts as a return as well as a call, which section 2.5 of the RISC-V Unprivileged ISA does not ask for;
  `Predictors.HintsAreIsaHints` shows that this is the only jump on which the model and that section differ.
- A comment groups the multiplier with the second ALU for write-back; the code makes it share the port of the first
  ALU and the branch unit (`perf-model/model.py:256-260`, `311-344`).
- The mergesort says that it allows for an empty list, but it dereferences the null `tail` of one
  (`core_list_join.c:600-605`), so the model asks for a non-empty list.
- The two CRC loops of the list benchmark walk along the list but feed the first item each time
  (`core_list_join.c:229-249`); `CoremarkBench.CrcFrom` says what that computes.
- The statistics of the profiler assert that stacks change by one function between events. They skip events with an
  empty stack, so the assertion fails on a trace that leaves the stack empty and then calls again.
  `ProfileStats.RefillingTrace` is one of four instructions; `ProfileStats.TraceBuildsIff` says exactly which traces.
- The first event of the profiler has executed one instruction more than its instruction count.
- `sd_copy` reads one block even for size 0.
- The comments on the trace members number their bits from the end of the packet. For the members of a trap they do
  not fit the widths that are read (`Decapsuler.cpp:105-115`): without a time, `interrupt`, `thaddr` and `tval` begin at
  bits 40, 41 and 42, and with one `ecause` begins at bit 72; see `PacketFields.FieldPlaces`.
- `printnum` writes padding behind the sign, and the `-` flag pads with minus signs on the left;
  `Syscalls.RoundTripIff` says exactly when the text can be read back.

## Model

| member | source | states |
|---|---|---|
| Schedule.NothingIsLost | perf-model/model.py:511-519 | After any number of cycles retired, in-flight and queued instructions are the trace in order, and the scoreboard is within its length. |
| Schedule.RetiredTiming | perf-model/model.py:457-519 | Every retired instruction has one issue, one completion exactly one or two cycles later by its kind, and one later commit, the last event on it. |
| Schedule.RetiredOrder | perf-model/model.py:457-519 | Issue and commit cycles follow program order; a cycle has at most as many issues and commits as ports, and a store is the first commit of its cycle. |
| Schedule.RetiredDependences | perf-model/model.py:437-478 | For every register but x0: an instruction with it as an operand issues no earlier than its older writers complete (forwarding) or commit (none); without renaming a writer issues no earlier than older writers commit. |
| Timeline.HazardLog | perf-model/model.py:437-448 | The scan logs one RAW for each entry that writes an operand not to be had yet, one WAW for each entry that writes the same register without renaming, and nothing else. |
| Attempts.IssuesIff | perf-model/model.py:457-478 | An attempt issues the head if and only if an entry is free, no operand and no write of it is pending, its unit is ready and its bytes are in the queue. |
| Attempts.ForwardedIssues | perf-model/model.py:437-448 | With forwarding a head issues as soon as its older writers are done, committed or not. |
| Attempts.NothingPredicted | perf-model/model.py:410-426 | Behind an instruction that runs on, looking at the head leaves the queue as it was. |
| Units.RefusedIff | perf-model/model.py:287-344 | At every attempt of every run a unit refuses an instruction if and only if one issued in this cycle, or for the first ALU a multiply of the last, is in its way. |
| Units.AttemptExact | perf-model/model.py:302-335 | An issue attempt keeps every unit flag equal to there being an instruction in the way. |
| Commits.CommitsAtOnce | perf-model/model.py:494-509 | A completed instruction commits in the first cycle in which the one before it has committed, a port is left, and it is no store behind another commit. |
| Mispredictions.MissesCostSixCycles | perf-model/model.py:410-426 | In every run exactly the instructions behind a branch or register jump have a hit or a miss logged, and without a hit they issue six cycles after it at the earliest. |
| Mispredictions.Compared | perf-model/model.py:410-426 | Within six cycles the head has its bytes only if the prediction is its address. |
| Schedule.OneWriterInFlight | perf-model/model.py:437-448 | Without renaming no two entries of the scoreboard have the same destination register, unless it is x0. |
| Schedule.WriteBackPortsNeverCollide | perf-model/model.py:273-344 | No two instructions of a run, retired or not, complete in one cycle on one write-back port. |
| Schedule.QueueBounded | perf-model/model.py:105-165 | For every trace: between cycles the byte count of the queue is never below minus one block, after any issue attempt of a cycle never below minus two, and not below minus one while a fetch can still be lost. |
| FetchFlow.CountWithinBlock | perf-model/model.py:105-165 | For an even, sequential trace the byte count is never below minus one block after any commit, execution or issue attempt of any cycle, and never negative while a fetch can still be lost. |
| FetchFlow.SequentialCostsItsSize | perf-model/model.py:144-165 | In such a run an instruction that follows the one before it in memory takes exactly its size from the queue, unless it is flushed in front of by a mispredicted branch; a jump takes its own jump besides. |
| FetchFlow.CycleFlows | perf-model/model.py:511-519 | A cycle of such a run keeps count and head address in step: together they fill whole blocks, or the count alone does, or the head still waits behind a branch of the last three cycles or a scoreboard that never empties. |
| FetchFlow.RemoveWithin | perf-model/model.py:136-157 | In step, removing an instruction that the queue has leaves no debt but a jump's, and the next address in step. |
| FetchFlow.HasIff | perf-model/model.py:136-157 | In step, the queue has an instruction if and only if its bytes are there, less those in front of it in a new block. |
| FetchFlow.LookInStep | perf-model/model.py:410-426 | Comparing the head with the prediction within six cycles puts a head behind a taken branch in step. |
| FetchFlow.OutOfStep | perf-model/model.py:136-157 | Out of step, a jump at address 0 takes a queue of two bytes to minus two blocks. |
| FetchFlow.SequenceIsNeeded | perf-model/model.py:511-519 | A trace that falls back to address 0 behind an addition reaches minus two blocks in its first cycle. |
| Schedule.FinishedRetiresAll | perf-model/model.py:533-547 | A finished run has retired the trace in order. |
| Liveness.RunFinishes | perf-model/model.py:533-547 | Every trace is finished within (sb_len + 10) * n + 2 cycles. |
| Liveness.RunFinishesIff | perf-model/model.py:533-547 | A run finishes if and only if the trace is empty or both widths and the scoreboard length are positive. |
| Liveness.RankFalls | perf-model/model.py:511-519 | Every cycle of an unfinished run lowers the bound on the cycles that are left. |
| Liveness.PortsWaited | perf-model/model.py:410-426 | After the window of a mispredicted jump, a cycle that issues nothing leaves the head in place and the byte count alone, but for one jump at its first hit; with nothing in flight, only missing bytes or that jump hold the head back. |
| PredictorRuns.PredictorsFollowTrace | perf-model/model.py:428-435 | At any moment the branch counters are those of the retired instructions, the return stack that of the issued ones, each in program order. |
| PredictorRuns.PredictorsTimingIndependent | perf-model/model.py:457-509 | Finished runs of one trace under any two settings have learnt the same. |
| PredictorRuns.BranchesPredicted | perf-model/model.py:387-408 | In any run a branch whose last two committed resolutions agree, with no alias since, is expected at its target or at the next address accordingly. |
| PredictorRuns.NewBranchesPredicted | perf-model/model.py:387-408 | Before that a branch is expected to be taken backward and not forward. |
| PredictorRuns.ReturnsPredicted | perf-model/model.py:394-408 | A return is expected behind the pending call, or nowhere; surely behind it while no more than one call is pending. |
| Predictors.ResolveOne | perf-model/model.py:239-253 | A resolution moves the counter of its address, and no other, by at most one towards the outcome, between 0 and 3. |
| Predictors.TwiceIsLearnt | perf-model/model.py:229-253 | Two outcomes alike are predicted from then on, whatever the entry held. |
| Predictors.OnceIsForgiven | perf-model/model.py:229-253 | After three outcomes alike one other does not change the prediction, and two do. |
| Predictors.AgreeingIsPredicted | perf-model/model.py:229-253 | Over a trace, a branch whose last two resolutions agree is predicted that way if no alias was resolved in between or since. |
| Predictors.PendingAreCalls | perf-model/model.py:206-214 | What is pending on the call stack are the addresses behind calls. |
| Predictors.RasIsSuffix | perf-model/model.py:171-214 | The bounded return stack is a suffix of the unbounded call stack, so a pop gives nothing or the right address. |
| Predictors.RasIsExact | perf-model/model.py:171-214 | It is the call stack itself as long as no more calls are pending than it keeps. |
| Predictors.HintsAreIsaHints | perf-model/model.py:68-82 | The pushes and pops of a jump are those of the ISA manual if and only if the jump is not `c.jalr ra`. |
| FetchQueue.FetchSizeLeast | perf-model/model.py:107-113 | The fetch size is the least power of two that is at least 4 and at least the request. |
| FetchQueue.TruncateAligns | perf-model/model.py:159-165 | Truncation drops less than a block and leaves a count congruent to minus the index. |
| FetchQueue.RemoveCost | perf-model/model.py:144-157 | Sequential code loses no bytes: removing an instruction costs its size, plus what the count was out of step with its address. |
| FetchQueue.JumpBounded | perf-model/model.py:127-134 | A jump keeps the lower bound of the count. |
| FetchQueue.RemoveBounded | perf-model/model.py:136-157 | So does removing an instruction that the queue has. |
| Invariants.CommitStaged | perf-model/model.py:494-509 | A commit keeps every instruction's log in step with where it is. |
| Invariants.ExecuteStaged | perf-model/model.py:480-492 | So does execution, for entries completed in this or an earlier cycle. |
| Invariants.IssueStaged | perf-model/model.py:457-478 | So does an issue attempt, successful or not. |
| Invariants.IssueOrdered | perf-model/model.py:457-478 | An issue comes no earlier than those before it. |
| Invariants.IssueDependences | perf-model/model.py:437-478 | An issue attempt keeps the dependence rules over the whole line of instructions. |
| Invariants.IssuePortsApart | perf-model/model.py:302-344 | The unit flags make an issue attempt keep the write-back ports apart. |
| Invariants.CycleFlags | perf-model/model.py:337-344 | At a new cycle the flags still cover the multiply that completes next. |
| Runs.CycleSafe | perf-model/model.py:511-519 | A cycle keeps all the invariants together. |
| Runs.RunSafe | perf-model/model.py:533-547 | They hold after any number of cycles of any run. |
| CycleModel.IqLen.Remove | perf-model/model.py:144-150 | The byte count as the queue's specification has it. |
| CycleModel.Ras.Push | perf-model/model.py:179-185 | The stack as a value, trimmed and extended. |
| CycleModel.Bht.Resolve | perf-model/model.py:239-249 | The table is that of `Predictors.ResolveOne`: the counter of the address, and no other, follows the outcome. |
| CycleModel.FusBusy.Cycle | perf-model/model.py:337-344 | The unit flags of the next cycle. |
| CycleModel.Model.FindDataHazards | perf-model/model.py:437-448 | Logs every hazard of the scan and reports one if and only if an operand or a write is pending in some entry. |
| CycleModel.Model.IssueManageLastBranch | perf-model/model.py:410-426 | The head's log and the queue as the specification has them after a predicted jump. |
| CycleModel.Model.TryIssue | perf-model/model.py:457-478 | Keeps the objects well formed and turns the model's value into the specification's. |
| CycleModel.Model.TryExecute | perf-model/model.py:480-492 | The same for execution, which updates the entries one by one. |
| CycleModel.Model.TryCommit | perf-model/model.py:494-509 | The same for a commit port. |
| CycleModel.Model.RunCycle | perf-model/model.py:511-519 | One cycle of the objects is one cycle of the specification. |
| CycleModel.Model.Run | perf-model/model.py:533-547 | The loop ends, with or without a limit, in the state after that many cycles, within the bound on cycles. |
| CycleModel.Simulate | perf-model/model.py:353-377 | Construction, loading and run: everything is retired within (sb_len + 10) * n + 2 cycles. |
| Barrier.NoOvertaking | verif/tests/custom/common/util.h:44-64 | No thread leaves its k-th barrier before all have arrived at theirs; the calls of any two differ by at most one. |
| Barrier.ResetLosesNothing | verif/tests/custom/common/util.h:54-57 | The store of 0 to the count overwrites increments of its own round only, while all others spin. |
| Barrier.OneLeader | verif/tests/custom/common/util.h:53-58 | At most one thread is between the two stores. |
| Barrier.StepInv | verif/tests/custom/common/util.h:44-64 | Every atomic action of every thread keeps the invariant of count, sense and thread positions. |
| Barrier.SomeThreadMoves | verif/tests/custom/common/util.h:44-64 | Until all threads have made all their calls, some thread can change the state. |
| Barrier.ExactWork | verif/tests/custom/common/util.h:44-64 | A run makes at most calls * (3 * ncores + 1) effective actions, and that many if and only if it is complete. |
| Barrier.FairRunCompletes | verif/tests/custom/common/util.h:44-64 | A schedule with enough stretches in which every thread gets a turn completes. |
| Crc16Word.Crc16 | corev_apu/fpga/src/bootrom/src/sd.c:135-144 | The C assignments compute the byte step. |
| Crc16Word.ByteStepIsEightShifts | corev_apu/fpga/src/bootrom/src/sd.c:135-144 | The byte step is eight steps of the shift register with feedback 0x1021. |
| SdCrc.BytesAreBitSerial | corev_apu/fpga/src/bootrom/src/sd.c:183-189 | Folding the step over bytes is the bit-serial register over their bits. |
| SdCrc.CheckIsRemainder | corev_apu/fpga/src/bootrom/src/sd.c:135-144 | The check word of any bytes is the remainder of their bits, shifted by sixteen, under long division by 0x11021. |
| SdCrc.AcceptsIffNoResidue | corev_apu/fpga/src/bootrom/src/sd.c:195-202 | A block is accepted if and only if data and check word, high byte first, leave residue 0. |
| SdCrc.FoldBitsXor | corev_apu/fpga/src/bootrom/src/sd.c:135-144 | The register is linear over exclusive or. |
| SdCrc.BurstsAreDetected | corev_apu/fpga/src/bootrom/src/sd.c:195-202 | A change confined to sixteen consecutive bits of data and check word is never accepted. |
| SdCrc.CopyBlock | corev_apu/fpga/src/bootrom/src/sd.c:176-193 | A block is stored in eight transfers, nothing beside it changes, and its check word is returned. |
| SdCrc.SdCopy | corev_apu/fpga/src/bootrom/src/sd.c:146-213 | Success if and only if every wanted block is accepted; what is copied is the blocks up to the first bad one. |
| CoremarkCrc.Crcu8 | verif/tests/custom/coremark/core_util.c:182-207 | The bit loop is eight steps of reflected division by 0xA001 of CRC and data together. |
| CoremarkCrc.Crcu16 | verif/tests/custom/coremark/core_util.c:208-214 | Two bytes are sixteen such steps of CRC and value. |
| CoremarkCrc.Step16Injective | verif/tests/custom/coremark/core_util.c:208-214 | The step is a bijection of the CRC for a fixed value, and of the value for a fixed CRC. |
| CoremarkCrc.OneChangeIsSeen | verif/tests/custom/coremark/core_util.c:208-225 | Streams that differ in exactly one value end in different CRCs. |
| CoremarkDivision.BackNDivides | verif/tests/custom/coremark/core_util.c:182-207 | Steps of the register, its bits read from the lowest, are places of long division by x^16 + x^15 + x^2 + 1. |
| CoremarkDivision.StreamIsRemainder | verif/tests/custom/coremark/core_util.c:208-225 | The CRC of a stream of values is the remainder of all their bits, each value from its lowest, followed by sixteen zeros. |
| CoremarkDivision.StartIsFirst | verif/tests/custom/coremark/core_util.c:208-225 | A CRC that starts from another value than 0 is that of a stream whose first value has the start added. |
| CoremarkData.CalcFunc | verif/tests/custom/coremark/core_list_join.c:87-132 | On first use the operation in the low bits gives the answer whose lower seven bits become the key; the whole answer feeds the CRC and the first answer of either benchmark is recorded. Ever after the key is read back and nothing changes. The backup byte stays. |
| CoremarkData.Compare | verif/tests/custom/coremark/core_list_join.c:138-160 | Comparing fixes both keys, gives their difference, and changes no key fixed before, no index and no backup byte of any item. |
| CoremarkData.CleanDetermined | verif/tests/custom/coremark/core_list_join.c:154-158 | The backup byte alone determines a restored item. |
| CoremarkSort.MergeRuns | verif/tests/custom/coremark/core_list_join.c:557-600 | Two sorted runs become one sorted run of the same places, linked, while keys are being fixed. |
| CoremarkSort.Pass | verif/tests/custom/coremark/core_list_join.c:530-606 | A pass turns runs of length w into runs of length 2w, and makes one merge if and only if two runs cover the list. |
| CoremarkSort.MergeSort | verif/tests/custom/coremark/core_list_join.c:517-613 | The list is linked again through exactly its nodes, ordered by the final keys, equal keys in their old order; items stay with their nodes. |
| CoremarkSort.TakeP | verif/tests/custom/coremark/core_list_join.c:577-582 | Taking the head of the first run when it is not greater keeps the merge sorted and stable. |
| CoremarkSort.BlocksGrow | verif/tests/custom/coremark/core_list_join.c:530-606 | A merged run extends the row of runs, under more known keys. |
| CoremarkSort.SortEnds | verif/tests/custom/coremark/core_list_join.c:606-609 | When one run covers the list it is sorted by the keys the items hold, and all keys are fixed. |
| CoremarkBench.Find | verif/tests/custom/coremark/core_list_join.c:452-467 | The node at the first place that matches by index, or by lower data byte for a negative index; null if none does. |
| CoremarkBench.Reverse | verif/tests/custom/coremark/core_list_join.c:482-494 | The same nodes linked in the opposite order. |
| CoremarkBench.Remove | verif/tests/custom/coremark/core_list_join.c:394-408 | The successor is unlinked and holds the item's old data. |
| CoremarkBench.UndoRemove | verif/tests/custom/coremark/core_list_join.c:425-437 | Data exchanged back and node linked in again. |
| CoremarkBench.Search | verif/tests/custom/coremark/core_list_join.c:198-222 | One search reverses the list and moves what follows the found node to second place; a hit counts bit 9 of odd found data, a miss bit 8 of the second item. |
| CoremarkBench.SampleWithoutOne | verif/tests/custom/coremark/core_list_join.c:229-242 | Remove, find, sample and undo leave every node and item as they were; the CRC has taken the first item once for each node from the found one on, the second item left out. |
| CoremarkBench.CrcFrom | verif/tests/custom/coremark/core_list_join.c:234-238 | The CRC of the first item, once for each node from the given one. |
| CoremarkBench.Churn | verif/tests/custom/coremark/core_list_join.c:176-242 | Searches, sort by key (for a positive finder index, and then stable) and sampling keep the nodes, every index and every backup byte; the order and the result are those of the list of values. |
| CoremarkTally.SearchesTally | verif/tests/custom/coremark/core_list_join.c:188-221 | The searches leave the sum of their bits, four for each that finds and less one for each that does not, as 16-bit numbers; index and byte are those of the last search. |
| CoremarkTally.WordWraps | verif/tests/custom/coremark/core_list_join.c:179-180 | The counts of the searches are 16-bit numbers, which wrap at 2^16. |
| CoremarkTally.CrcTimesIsStream | verif/tests/custom/coremark/core_list_join.c:234-238 | Feeding one item again and again is the CRC of a stream of equal values. |
| CoremarkBench.SortedAgain | verif/tests/custom/coremark/core_list_join.c:243-244 | Strictly increasing indices have one sorted order. |
| CoremarkBench.BenchList | verif/tests/custom/coremark/core_list_join.c:176-253 | The list ends sorted by index with its own nodes, items and indices and every lower byte reset to its backup, equal indices in the order of the sampling; the CRC returned is given. If the indices differ, it ends in its original order if and only if they were increasing. |
| CoremarkState.StateIffMeans | verif/tests/custom/coremark/core_state.c:237-351 | The machine ends in a state if and only if the token is what the state stands for: integer, float, scientific, or a beginning of one. |
| CoremarkState.ScannerClassifies | verif/tests/custom/coremark/core_state.c:237-351 | The scanner reads a whole token and names its kind, or stops behind the first character after which nothing valid can follow. |
| CoremarkState.Transition | verif/tests/custom/coremark/core_state.c:237-351 | The loop computes state, position and counts of the walk, and passes no zero byte; `CoremarkCounts.TokenCounts` says what the counts mean. |
| CoremarkCounts.TokenCounts | verif/tests/custom/coremark/core_state.c:237-351 | A token counts once for each state it had a beginning of and did not keep; `Scientific` is never counted, and `Invalid` counts a wrong first character or a spoilt scientific number. |
| CoremarkCounts.LeavesOnce | verif/tests/custom/coremark/core_state.c:237-351 | A token leaves a state at one place at most. |
| CoremarkCounts.ScanCounts | verif/tests/custom/coremark/core_state.c:87-92 | The final counts of a scan are its tokens by kind, and the other counts its tokens by what they left, for the tokens that grammar and commas cut. |
| CoremarkState.ScanAll | verif/tests/custom/coremark/core_state.c:87-92 | The scanning loop ends and counts every token. |
| CoremarkState.Corrupt | verif/tests/custom/coremark/core_state.c:100-106 | Exactly every step-th byte that is not a comma changes. |
| CoremarkState.UndoneIff | verif/tests/custom/coremark/core_state.c:100-127 | The second pass undoes the first if and only if every visited byte is a comma, or is not turned into one and meets the same seed twice. |
| CoremarkState.BenchState | verif/tests/custom/coremark/core_state.c:64-137 | The buffer after both passes, and the CRC of the counts of both scans, which `CoremarkCounts.ScanCounts` gives. |
| Profile.CallStack.Run | perf-model/profile.py:90-106 | Calls push and returns pop, each with the stack before it. |
| Profile.RunAll | perf-model/profile.py:124-152 | The events of a trace, with durations, counts and tallies of the executed instructions. |
| Profile.TallyByName | perf-model/profile.py:132-136 | A tally holds exactly the names that occur, each with its number of instructions and their cycles. |
| Profile.EventsConserve | perf-model/profile.py:132-149 | In each event the cycles of the executed instructions add up to the duration, and their number to the instruction count (one more in the first). |
| Profile.EventsTelescope | perf-model/profile.py:141-149 | Durations up to an event add up to its cycle, instruction counts to its place. |
| ProfileStats.BuildStats | perf-model/profile.py:188-248 | The dictionary of statistics is the fold of the events; a missing name and a failed assertion arise exactly where they do in the fold. |
| ProfileFields.FiguresAre | perf-model/profile.py:188-248 | In both modes every figure of every function, and of every pair of callee and caller, is the sum of what the events contribute: calls, primary calls, own and cumulative time, instructions. |
| ProfileFields.CallsCounted | perf-model/profile.py:228-248 | Calls are the returns out of a function, primary calls those that leave no other activation of it, and a caller's are those into it. |
| ProfileStats.TimeConserved | perf-model/profile.py:188-248 | In both modes the times of all statistics add up to the durations of the events with a stack. |
| ProfileStats.TraceTimeConserved | perf-model/profile.py:124-248 | So they do for the events of any trace. |
| ProfileStats.FunctionTimes | perf-model/profile.py:213-220 | A function's own time is that of the events with it on top; its cumulative time that of the events with it in the stack, as often as it is there. |
| ProfileStats.TraceStepwise | perf-model/profile.py:90-106 | The stacks of a trace's events start empty and change by one function at a time. |
| ProfileStats.BuildsIff | perf-model/profile.py:228-247 | For such stacks no name is missing, and the assertions hold if and only if no event but the first and the last has an empty stack. |
| ProfileStats.TraceBuildsIff | perf-model/profile.py:124-248 | So for every table of functions and every trace the statistics can be built if and only if the trace never calls again, with one more event behind, after it has left the stack empty. |
| ProfileStats.RefillingTrace | perf-model/profile.py:228-247 | Entering and leaving one function, then another, makes the assertion fail. |
| Decapsulator.ExtractBits | corev_apu/instr_tracing/Decapsuler/Decapsuler.cpp:31-46 | The big-endian value of up to 64 bits; a marker for more. |
| Decapsulator.ValueConcat | corev_apu/instr_tracing/Decapsuler/Decapsuler.cpp:31-46 | Reading a + b bits is reading a, shifting by b and adding b more. |
| Decapsulator.BitExtractor.Extract | corev_apu/instr_tracing/Decapsuler/Decapsuler.cpp:76-86 | The value in front of or behind the cursor, which moves past it. |
| Decapsulator.HeaderApart | corev_apu/instr_tracing/Decapsuler/Decapsuler.cpp:128-134 | Whatever size is declared, the payload begins behind the 72 header bits. |
| Decapsulator.Trace.constructor | corev_apu/instr_tracing/Decapsuler/Decapsuler.cpp:122-221 | Header and members hold the bits of the layout that the payload announces, the address the rest of it. |
| Decapsulator.MapSize | corev_apu/instr_tracing/Decapsuler/Decapsuler.cpp:193-208 | The branch map is the smallest of five sizes with room for the branch count, and full for 0. |
| PacketFields.FieldPlaces | corev_apu/instr_tracing/Decapsuler/Decapsuler.cpp:92-221 | The members that have a value, and the bit positions of each, by format, subformat and flags. |
| Decapsulator.PackRead | corev_apu/instr_tracing/Decapsuler/Decapsuler.cpp:136-221 | Fields that are read backward and written back are the bits that were read, each once. |
| Decapsulator.PayloadRebuiltIff | corev_apu/instr_tracing/Decapsuler/Decapsuler.cpp:122-221 | For a packet with an address whose declared size holds the fixed fields, the decoded address and fields rebuild the payload if and only if the address fits (or happens to be the marker). |
| Decapsulator.PayloadRebuilt | corev_apu/instr_tracing/Decapsuler/Decapsuler.cpp:122-221 | They do for every address of at most 32 bits. |
| Decapsulator.FieldsAreEnd | corev_apu/instr_tracing/Decapsuler/Decapsuler.cpp:122-221 | For a packet without an address the decoded fields are the bits from the first field to the end, and the whole payload if and only if nothing stands in front of them. |
| Decapsulator.TooSmallIsMarked | corev_apu/instr_tracing/Decapsuler/Decapsuler.cpp:122-221 | A declared size too small for the fixed fields makes the address the marker. |
| Syscalls.Printnum | verif/tests/custom/common/syscalls.c:209-227 | Writes padding and numeral, never needing more than 64 digits. |
| Syscalls.PrintedStandsFor | verif/tests/custom/common/syscalls.c:215-226 | In every base up to 36 the characters printed stand for the digits of the number. |
| Syscalls.NumeralIsProper | verif/tests/custom/common/syscalls.c:215-221 | The digits are below the base, have no leading zero, and stand for the number. |
| Syscalls.NumeralUnique | verif/tests/custom/common/syscalls.c:215-221 | No other digits do. |
| Syscalls.NumeralLength | verif/tests/custom/common/syscalls.c:212 | A number below 2^k has at most k digits in any base. |
| Syscalls.FormatSigned | verif/tests/custom/common/syscalls.c:350-357 | The signed conversion writes the sign, then padding and numeral of the magnitude. |
| Syscalls.Atol | verif/tests/custom/common/syscalls.c:503-522 | The loops compute what spaces, sign and digits stand for, or none as soon as a 64-bit long overflows. |
| Syscalls.RoundTripIff | verif/tests/custom/common/syscalls.c:503-522 | Reading the printed text gives the number back, without overflow, if and only if there is no padding, or zeros, or spaces before a number that is not negative, or one minus sign before 0. |
| Syscalls.DigitsHold | verif/tests/custom/common/syscalls.c:515-519 | Digits that stand for a long are read without any overflow on the way. |

## Left out

- The pipeline's log list, the counters and plots made from logs, and WAR events, which the program never logs.
- Instruction decoding: traces are sequences of decoded instructions, with registers, size, address and offset as given; the immediate of `c.j`, which the scheduler does not read, is not modelled.
- Reading traces, ELF tables and packets from files, command lines, and all drawing and printing of reports.
- Barrier memory ordering: memory is sequentially consistent and the fetch-and-add atomic; the count is not limited to 32 bits.
- The SD command layer, token waits and `crc7`: frames arrive as data and check word, and the answer to the read command is a parameter.
- CoremarkSort.MergeSort: does not model the 32-bit overflow of the run length, which needs a list of more than 2^30 nodes.
- The state and matrix benchmarks that fix keys give arbitrary answers in the list benchmark, one for each call.
- `core_list_init`, `core_init_state` and the matrix benchmark.
- CoremarkState.BenchState: asks for a positive step and for a zero byte in the buffer before and after the corruption, without which the program's loops leave the buffer or do not end.
- Decapsulator.Trace.constructor: keeps the optional members, but for the address, in one map from their names; writing the CSV line is left out.
- The scanning of format strings and the conversions other than `%d`: width, padding and argument are given; the number is one whose negation is representable, as the C language asks.
