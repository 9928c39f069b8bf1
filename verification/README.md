# esesc: replay, dependences, cracking, GPU scheduling and a token ring, in Dafny

This project models five parts of the esesc simulator and proves what they are for.

1. **The replay queue** (`ReplaySpec`, `EmuDInstQueues`, `QueueFeed`). The queue between emulator and timing
   model is a power-of-two ring with three cursors, a drop counter and a doubling resize. The
   class keeps a ghost history of its operations next to the pipeline they are meant for. The
   theorems speak about every run, with any number of nested replays.
2. **The dependence graph** (`DepSpec`, `DepRuns`, `DepFlush`, `DInsts`). Intrusive linked
   lists through the instructions stand for a graph of waiting consumers. `DepSpec` proves the
   two list operations on pointers, `DepRuns` every reachable heap and its first-in first-out order, `DepFlush` what a flush
   removes, and `DInsts` the classes whose methods do the stores.
3. **The Thumb-16 cracker** (`ThumbIT`, `Uops`, `RegLists`, `ThumbMultiple`, `ThumbStm`,
   `ThumbPop`, `ThumbRoundTrip`). The IT condition stack against ITSTATE, and the uop lists of
   PUSH, STM and POP with the meaning the uop executor (`Sccore`) gives them. The reference is the ARM
   Architecture Reference Manual DDI 0406B, sections A2.5.2, A8.6.50, A8.6.122, A8.6.123 and A8.6.189.
4. **GPU threads and warps** (`Occupancy`, `ThreadLayout`, `StreamingMP`, `Distribution`,
   `WarpScheduler`, `TraceBuffer`, `TimingPhase`, `GpuManager`, `Relaunch`,
   `LaunchedTables`, `TimingObjects`, `LaneIsolation`). Launch arithmetic, the layout of threads over SMs, rows and PEs, warp
   switching, pause flags in the flat trace array, and the packing that keeps lanes apart.
5. **The token ring** (`TokenRing`). The mutex ring of `thread_migrate.c` as a step relation,
   over every interleaving.

`Bits` holds the integer and bit facts the others share.

Modelling choices:

- Integers are unbounded; where a width matters (register and address arithmetic, the packed
  address, bit masks) the reduction is written out.
- Instructions are opaque to the queue and carry an ID and a payload. Taking an object from the
  pool is an allocation.
- `Uops` follows the executor: 64-bit registers, 32 bits kept below register 32, 32-bit
  arithmetic on both halves, word accesses at the low half with bit 0 cleared, and one Z flag per
  register. A word is four consecutive bytes. Statements are about states whose registers are in
  range, which every uop keeps (`ExecValid`).
- The random schedule of threads, the statuses written by the timing loop and everything a
  kernel does between two launches are arbitrary steps or parameters.

Two places where the code does less than its comments say, each with its exact condition:

- The warp sets of `reOrganize` are counted in full sets, so a last set that is incomplete makes
  the scheduler read warps that do not exist. `NoOverrunIff` says which launches have a sequence
  of switches that does so, in terms of the launch's numbers alone. `IncompleteSetIsReached` and
  `IncompleteSetOverruns` follow three rows in sets of two to the read of warp 3.
- A word access clears bit 0 of its address. So PUSH, STM and POP use the manual's addresses
  exactly when SP, or the base register, is even (`PushAddressesIff`, `StmAddressesIff`,
  `PopAddressesIff`). `PushFromOddStack` is an input where they do not.

## Model

| member | source | states |
|---|---|---|
| `ReplaySpec.StepSimulates` | emul/libemulint/EmuDInstQueue.h:65-133 | one operation keeps "the ndrop oldest flights are the killed ones, the rest is the popped part of the queue" |
| `ReplaySpec.StepKeepsIds` | emul/libemulint/EmuDInstQueue.h:97-133 | one operation neither loses, repeats nor reorders an ID |
| `ReplaySpec.EveryRun` | emul/libemulint/EmuDInstQueue.h:65-133 | both hold in every state of every run, with any nesting of replays |
| `ReplaySpec.AddedAreAdds` | emul/libemulint/EmuDInstQueue.h:87-100 | the instructions taken in are the arguments of the Add operations, in order |
| `ReplaySpec.FlightsAreCounted` | emul/libemulint/EmuDInstQueue.h:102-133 | instructions in flight are pops minus releases |
| `ReplaySpec.TailNeverPassesHead` | emul/libemulint/EmuDInstQueue.h:102-121 | pops minus releases is head minus tail plus ndrop; so tail never passes head (the disabled assertion) and a legal advanceTail never returns false |
| `ReplaySpec.ReleaseIsExact` | emul/libemulint/EmuDInstQueue.h:102-121 | killed originals never move tail, and a real advance steps over exactly the released instruction |
| `ReplaySpec.RetiredInOrder` | emul/libemulint/EmuDInstQueue.h:97-133 | retired plus queued IDs are those of the Add operations in order, and stay strictly increasing |
| `ReplaySpec.AddedInIdOrder` | emul/libemulint/DInst.cpp:109-133 | instructions created as they are added come in increasing ID order, with any replays in between, because clones leave the counter alone |
| `ReplaySpec.RetiredInIdOrder` | emul/libemulint/EmuDInstQueue.h:97-133 | so queued and retired IDs are strictly increasing in every state of every such run |
| `ReplaySpec.DrainRetiresAll` | emul/libemulint/EmuDInstQueue.h:65-133 | from every reachable state pops and releases alone retire every instruction of an Add operation, once, in order |
| `EmuDInstQueues.LivedIsFaithful` | emul/libemulint/EmuDInstQueue.h:65-133 | what a queue object has been through is such a run |
| `EmuDInstQueues.EmuDInstQueue.constructor` | emul/libemulint/EmuDInstQueue.cpp:48-57 | a new ring of 1024 slots is the empty queue |
| `EmuDInstQueues.EmuDInstQueue.EmptyMeansExecuted` | emul/libemulint/EmuDInstQueue.h:139-141 | empty() holds exactly when nothing is left to execute |
| `EmuDInstQueues.EmuDInstQueue.Size` | emul/libemulint/EmuDInstQueue.h:135-137 | size() is the number of queued instructions, executed or not |
| `EmuDInstQueues.EmuDInstQueue.GetHead` | emul/libemulint/EmuDInstQueue.h:71-75 | the next instruction to execute |
| `EmuDInstQueues.EmuDInstQueue.PopHead` | emul/libemulint/EmuDInstQueue.h:65-69 | the ring follows the Pop step, which is legal and moves head on by one |
| `EmuDInstQueues.EmuDInstQueue.AdjustTrace` | emul/libemulint/EmuDInstQueue.cpp:59-81 | doubling keeps contents, order and head offset, also when head has wrapped below tail, and half of the new ring is free |
| `EmuDInstQueues.EmuDInstQueue.Add` | emul/libemulint/EmuDInstQueue.h:87-100 | the ring follows the Add step: the instruction is last in the queue, and a slot stays free |
| `EmuDInstQueues.EmuDInstQueue.AdvanceTail` | emul/libemulint/EmuDInstQueue.h:102-121 | with something in flight it succeeds and follows the Release step; with nothing in flight it fails on an empty queue and otherwise lets tail overtake head |
| `EmuDInstQueues.EmuDInstQueue.CloneToHead` | emul/libemulint/EmuDInstQueue.h:123-131 | the loop replaces exactly the popped instructions by clones and counts each original |
| `EmuDInstQueues.EmuDInstQueue.MoveHead2Tail` | emul/libemulint/EmuDInstQueue.h:123-133 | the ring follows the Replay step: clones first, head at tail, every popped original counted; clones keep ID and payload and no ID is used up |
| `QueueFeed.Feed` | emul/libqemuint/QEMUReader.cpp:407-430 | creating and adding an instruction puts it last in the queue and keeps the added IDs increasing and below the counter |
| `QueueFeed.ReplayAll` | emul/libqemuint/QEMUReader.cpp:461-465 | so does a replay, which adds nothing and rewinds everything popped |
| `QueueFeed.Fetch` | emul/libqemuint/QEMUReader.cpp:441-446 | so does taking the next instruction, which is the first one not yet popped |
| `QueueFeed.Retire` | emul/libqemuint/QEMUReader.cpp:454-458 | so does releasing one that is in flight |
| `QueueFeed.QueueInOrder` | emul/libemulint/EmuDInstQueue.h:97-133 | the queue object then holds strictly increasing IDs |
| `DepSpec.AddDepRepresents` | emul/libemulint/DInst.h:376-435 | after appending a node, counts, flags, first, last and links again agree with the graph that has one more edge |
| `DepSpec.TakeFirstRepresents` | emul/libemulint/DInst.h:356-374 | the same after unlinking the oldest node, with the edge moved to the delivered ones |
| `DepSpec.FreeNodeLeavesRoom` | emul/libemulint/DInst.h:376-384 | an unused node implies the count is below its maximum, the first assertion of addSrc |
| `DepRuns.CreateRepresents` | emul/libemulint/DInst.h:195-245 | on the register side setup() of a pool object gives a sound heap if and only if its stale count is zero |
| `DepRuns.CreateMemRepresents` | emul/libemulint/DInst.h:223-226 | on the memory side it always does |
| `DepRuns.RecycleRepresents` | emul/libemulint/DInst.cpp:135-153 | on either side, removing an object leaves a sound heap if and only if it waits for nothing and nothing waits for it |
| `DepRuns.EveryHeap` | emul/libemulint/DInst.h:356-435 | in every reachable heap the count is the number of used nodes, the used nodes are the disjoint union of acyclic lists, last is the final node, and each dependence is delivered once, oldest first |
| `DepRuns.ListIsWhatIsLeft` | emul/libemulint/DInst.h:356-435 | in every run a producer's pointers thread exactly the nodes added to it, in order, without as many of the oldest as were taken |
| `DepRuns.NextEnabled` | emul/libemulint/DInst.h:356-384 | where the code's assertions hold, the pointers it follows exist |
| `DepFlush.TakeAll` | emul/libemulint/DInst.h:557-572 | delivering a producer's whole list removes exactly its edges |
| `DepFlush.RemoveAnother` | simu/libcore/WMMProcessor.cpp:238-241 | removing producers one after the other is removing the set, so the order does not matter |
| `DepFlush.CountIsInDegree` | emul/libemulint/DInst.h:376-384 | nDeps (and memDep) count the edges into an instruction |
| `DepFlush.FlushCounts` | emul/libemulint/DInst.h:557-582 | a flush lowers each count by exactly the removed edges; a consumer-closed set leaves all others alone, a producer-closed one frees its members |
| `DInsts.DInst.AddSrc` | emul/libemulint/DInst.h:376-435 | the stores of addSrc1, 2 and 3 append one edge to the graph, count it and flag its node, and change nothing else |
| `DInsts.DInst.GetNextPending` | emul/libemulint/DInst.h:356-374 | returns the consumer whose node is oldest and delivers that edge only |
| `DInsts.DInst.AddMemDep` | emul/libemulint/DInst.h:522-542 | the same append on the memory side |
| `DInsts.DInst.GetNextMemPending` | emul/libemulint/DInst.h:504-520 | the same delivery on the memory side |
| `DInsts.DInst.DropPending` | emul/libemulint/DInst.h:558-564 | the first loop of markPoisoned ends with an empty list and exactly this producer's edges gone |
| `DInsts.DInst.DropMemPending` | emul/libemulint/DInst.h:566-571 | the second loop, on the memory side |
| `DInsts.DInst.MarkPoisoned` | emul/libemulint/DInst.h:557-582 | both graphs lose exactly this producer's edges; poisoned and issued are set, executed only for an instruction not yet issued |
| `DInsts.Window.MemFlag` | emul/libemulint/DInst.h:544-547 | memDep and memPend.isUsed say the same |
| `DInsts.Window.RoomForSource` | emul/libemulint/DInst.h:376-384 | the count assertion of addSrc follows from a free node |
| `DInsts.Window.Admit` | emul/libemulint/DInst.h:195-245 | a created instruction joins both graphs without an edge |
| `DInsts.Window.Scrap` | emul/libemulint/DInst.cpp:142-153 | an isolated instruction leaves both graphs intact |
| `DInsts.Window.Flush` | simu/libcore/WMMProcessor.cpp:238-241 | poisoning a list in any order removes precisely the edges whose producer is in it |
| `DInsts.Pool.Create` | emul/libemulint/DInst.h:258-277 | a clean instruction with the next ID |
| `DInsts.Pool.Clone` | emul/libemulint/DInst.cpp:109-133 | a clean second object with the same ID and payload; currentID is unchanged |
| `ThumbIT.ThumbCrack.PushConditions` | emul/libcrack/Thumb16Crack.cpp:1144-1166 | pushes the conditions of the block, last one first |
| `ThumbIT.ThumbCrack.Expand` | emul/libcrack/Thumb16Crack.cpp:59-66 | reports block and condition from the stack and takes one stack step |
| `ThumbIT.PushedIsPending` | emul/libcrack/Thumb16Crack.cpp:1144-1166 | the pushed stack holds the conditions ITSTATE will go through, in that order, for every IT instruction |
| `ThumbIT.OnlyITOpens` | emul/libcrack/Thumb16Crack.cpp:1140-1166 | for each of the 65536 encodings outside a block: 0xBF00 to 0xBFFF with a non-zero mask opens the block ITSTATE goes through, anything else opens none |
| `ThumbIT.PopIsAdvance` | emul/libcrack/Thumb16Crack.cpp:59-66 | one pop is one ITAdvance |
| `ThumbIT.StackSimulatesITSTATE` | emul/libcrack/Thumb16Crack.cpp:59-66 | for every stream without nested IT the stack is what ITSTATE still has pending, after every instruction |
| `ThumbIT.ConditionIsArchitectural` | emul/libcrack/Thumb16Crack.cpp:59-66 | so the reported block and condition are the architecture's |
| `Uops.LoadStored` | emul/libscqemu/sccore.cpp:3634-3645 | a stored word reads back modulo 2^32 |
| `Uops.MaskedIsAnd` | emul/libscqemu/sccore.cpp:3595-3599 | the masked address is the low 32 bits with bit 0 cleared |
| `Uops.ExecValid` | emul/libscqemu/scstate.h:116-131 | every uop keeps register 0 at zero, the program's registers within 32 bits and all others within 64 |
| `Uops.RunValid` | emul/libscqemu/scexec.cpp:217-235 | so does every uop sequence |
| `RegLists.CountBits` | emul/libcrack/Thumb16Crack.cpp:1038-1039 | the clear-lowest-bit loop is the population count |
| `RegLists.ListedCounts` | emul/libcrack/Thumb16Crack.cpp:1046-1061 | as many registers are listed as bits are set |
| `RegLists.FieldMaskBits` | emul/libcrack/Thumb16Crack.cpp:1027 | the mask is bits 0 to 7 of the instruction plus bit 8 moved to LR or PC |
| `RegLists.AddrsAgreeIff` | emul/libscqemu/sccore.cpp:3634-3645 | the executor's word addresses are the manual's wrapped ones if and only if the base is even |
| `RegLists.MaskedWraps` | emul/libscqemu/sccore.cpp:277-289 | stepping the address in 64 bits does not show in the accesses |
| `RegLists.WordsApart` | emul/libscqemu/sccore.cpp:3634-3645 | different words of one transfer share no byte, even where the addresses go around |
| `RegLists.LoadBack` | emul/libcrack/Thumb16Crack.cpp:1046-1061 | each of several consecutively stored words reads back, from every base |
| `RegLists.StoreAtElsewhere` | emul/libcrack/Thumb16Crack.cpp:1046-1061 | every byte outside those words is kept |
| `ThumbMultiple.PushListMembers` | emul/libcrack/Thumb16Crack.cpp:1025-1061 | which registers a PUSH lists |
| `ThumbMultiple.PushLoop` | emul/libcrack/Thumb16Crack.cpp:1046-1061 | the loop emits one store per listed register, in order |
| `ThumbMultiple.CrackPush` | emul/libcrack/Thumb16Crack.cpp:1025-1064 | the uop list of PUSH; nothing for an empty list |
| `ThumbMultiple.ExecCopy` | emul/libscqemu/sccore.cpp:290-313 | adding nothing in both halves copies a register whole |
| `ThumbMultiple.HalvesLow` | emul/libscqemu/sccore.cpp:647-666 | two-half arithmetic with an immediate is 32-bit arithmetic in the low half |
| `ThumbMultiple.PushCorrect` | emul/libcrack/Thumb16Crack.cpp:1025-1064 | running it stores the k-th listed register at the word at SP-4*count+4k, lowers SP by 4*count modulo 2^32 and changes no other register but a temporary, from every state |
| `ThumbStm.CrackStm` | emul/libcrack/Thumb16Crack.cpp:1191-1231 | the uop list of STM; nothing for an empty list |
| `ThumbStm.StmListMembers` | emul/libcrack/Thumb16Crack.cpp:1193-1200 | which registers an STM lists |
| `ThumbStm.MidwayFirst` | emul/libcrack/Thumb16Crack.cpp:1214-1227 | the first store does not see what an increment emitted before it did to the temporary |
| `ThumbStm.RunStmBody` | emul/libcrack/Thumb16Crack.cpp:1212-1228 | the state after every turn of the loop, with the stale or advanced temporary |
| `ThumbStm.StmCorrect` | emul/libcrack/Thumb16Crack.cpp:1191-1231 | running it stores each listed register's old value at the word at base+4k, also the base's own, adds 4*count to the base modulo 2^32 and changes no other register but a temporary |
| `ThumbPop.PopLowsMembers` | emul/libcrack/Thumb16Crack.cpp:1077-1118 | which registers a POP lists |
| `ThumbPop.CrackReturn` | emul/libcrack/Thumb16Crack.cpp:1120-1135 | the uops that read the return address and jump |
| `ThumbPop.CrackPop` | emul/libcrack/Thumb16Crack.cpp:1077-1139 | the uop list of POP; nothing for an empty list |
| `ThumbPop.ExecChoice` | emul/libscqemu/sccore.cpp:3331-3349 | AND, COPYICC and CMOV_NE together keep TTYPE if bit 0 of the return word is set and make it ARM otherwise |
| `ThumbPop.RunInterworking` | emul/libcrack/Thumb16Crack.cpp:1130-1134 | with the last AND: that choice, and the target with bit 0 cleared; only a temporary changes besides |
| `ThumbPop.PopReturns` | emul/libcrack/Thumb16Crack.cpp:1077-1135 | with the PC listed: every register from its word, SP raised modulo 2^32, a jump to the last word with bit 0 cleared, and TTYPE by that bit |
| `ThumbPop.PopChoosesState` | emul/libcrack/Thumb16Crack.cpp:1130-1134 | an odd return word keeps the instruction set, an even one makes it ARM; the jump goes to the even address |
| `ThumbPop.PopFallsThrough` | emul/libcrack/Thumb16Crack.cpp:1077-1139 | without the PC: the registers and SP, no jump, and TTYPE kept |
| `ThumbRoundTrip.PushListsPops` | emul/libcrack/Thumb16Crack.cpp:1025-1139 | a PUSH and a POP with the same nine bits list the same registers, LR against PC |
| `ThumbRoundTrip.RoundTrip` | emul/libcrack/Thumb16Crack.cpp:1025-1139 | POP after PUSH gives back the low registers and SP, and returns to LR, if only the stacked words and SP are kept in between; no stack pointer is excepted |
| `ThumbRoundTrip.PushPopRoundTrip` | emul/libcrack/Thumb16Crack.cpp:1025-1139 | the same for the uop lists of any two matching instructions |
| `ThumbRoundTrip.PushAddressesIff` | emul/libcrack/Thumb16Crack.cpp:1044-1058 | PUSH stores at the manual's addresses if and only if SP is even |
| `ThumbRoundTrip.PushFromOddStack` | emul/libcrack/Thumb16Crack.cpp:1044-1058 | two registers with SP at 9: stored at 0 and 4, where the manual says 1 and 5 |
| `ThumbRoundTrip.StmAddressesIff` | emul/libcrack/Thumb16Crack.cpp:1212-1228 | STM stores at the manual's addresses if and only if the base register is even |
| `ThumbRoundTrip.PopAddressesIff` | emul/libcrack/Thumb16Crack.cpp:1090-1135 | POP reads at the manual's addresses if and only if SP is even |
| `Occupancy.RoundUp` | simu/libsampler/SamplerGPUSim.h:39-48 | the least multiple not below the argument, or the argument for a multiple of zero |
| `Occupancy.WarpsPerBlock` | emul/libgpu/GPUThreadManager.cpp:120-122 | the least number of warps that hold a block |
| `Occupancy.DemandMeaning` | emul/libgpu/GPUThreadManager.cpp:124-125 | registers of a block are its warps times the registers of all threads of a warp, rounded; shared memory is rounded by its own granularity |
| `Occupancy.CalcOccupancy` | emul/libgpu/GPUThreadManager.cpp:117-147 | warps per block times the greatest block count within all four limits, for the rounded registers and shared memory of the kernel |
| `Occupancy.DivisionRecovers` | emul/libgpu/GPUThreadManager.cpp:459-463 | dividing by warps per block gives that count back |
| `Occupancy.Plan` | emul/libgpu/GPUThreadManager.cpp:453-464 | a launch is refused exactly when not even one block fits; otherwise the greatest count and its threads |
| `ThreadLayout.RestIsLayout` | emul/libgpu/GPUThreadManager.h:372-408 | the counting loop of addThreads lays threads out block by block, each block in full rows and a padded one |
| `ThreadLayout.LayoutHolds` | emul/libgpu/GPUThreadManager.h:372-408 | rows are consecutive, never empty (PE 0 is never padded) and together hold exactly the given threads |
| `ThreadLayout.FindCell` | emul/libgpu/GPUThreadManager.h:372-408 | every thread has a cell |
| `ThreadLayout.RowMajor` | emul/libgpu/GPUThreadManager.h:372-408 | no thread has two, and row by row the threads come in order |
| `ThreadLayout.LayoutOneBlock` | emul/libgpu/GPUThreadManager.h:384-392 | from a block boundary no row mixes two blocks |
| `ThreadLayout.LayoutFull` | emul/libgpu/GPUThreadManager.h:384-408 | a row is padded only where a block or the threads end |
| `StreamingMP.SM.AddThread` | emul/libgpu/GPUThreadManager.h:376-397 | one turn of the loop: one cell in all four tables, and the row closes at the end of a block or at the last PE |
| `StreamingMP.SM.AddThreads` | emul/libgpu/GPUThreadManager.h:372-408 | all four tables gain exactly the rows of the layout, and the total its count |
| `StreamingMP.ShownCell` | emul/libgpu/GPUThreadManager.h:372-408 | the tables are rectangular; offsets are zero; a cell is invalid exactly where it is padding |
| `StreamingMP.SM.ReadyWarps` | emul/libgpu/GPUThreadManager.cpp:488-556 | one ready warp per row, and the cursor at the first |
| `StreamingMP.SM.UpdateCurrentWarps` | emul/libgpu/GPUThreadManager.h:438-450 | concurrent warps are the least of the launch's, the SM's limit and the rows |
| `StreamingMP.SM.Organize` | emul/libgpu/GPUThreadManager.cpp:488-608 | states and cursor of an SM that has its threads; within the SM's limit the cursor is the launched one |
| `StreamingMP.SM.Move2NextWarp` | emul/libgpu/GPUThreadManager.h:295-307 | the next warp of the set, from the last one back to the first |
| `StreamingMP.SM.Move2NextWarpSet` | emul/libgpu/GPUThreadManager.h:310-318 | the first warp of the next set, or no change after the last set |
| `StreamingMP.SM.Search` | emul/libgpu/GPUThreadManager.cpp:891-916 | a search loop ends, after at most one round, at the first warp not skipped, or at the first read past the warp states |
| `StreamingMP.SM.ChooseWarp` | emul/libgpu/GPUThreadManager.cpp:882-999 | cursor and result are those of the scheduling function, for every cursor; a read past the warp states is reported |
| `Distribution.RowIsOurs` | emul/libgpu/GPUThreadManager.cpp:476-486 | an SM's rows hold one to numSP threads of the launch, all of them its own |
| `Distribution.EveryThreadPlaced` | emul/libgpu/GPUThreadManager.cpp:476-486 | every thread of the launch has a row and PE of its SM |
| `Distribution.NoThreadTwice` | emul/libgpu/GPUThreadManager.cpp:476-486 | two equal cells are the same cell of the same SM |
| `Distribution.BlockStaysTogether` | emul/libgpu/GPUThreadManager.cpp:478-479 | a thread's SM is (block / blocks per SM) mod numSM, so no block is split over SMs |
| `Distribution.RowIsOneBlock` | emul/libgpu/GPUThreadManager.cpp:514 | the thread on PE 0 has the block of every thread in its row |
| `Distribution.RowIsFull` | emul/libgpu/GPUThreadManager.cpp:476-486 | a row of an SM leaves PEs unused only where a block or the launch ends |
| `Distribution.WarpBlockMap` | emul/libgpu/GPUThreadManager.cpp:507-540 | one entry per row, from the thread on PE 0 |
| `Distribution.MapNamesBlocks` | emul/libgpu/GPUThreadManager.cpp:514 | warp_block_map names the block of every valid thread in its row |
| `Distribution.TotalsAddUp` | emul/libgpu/GPUThreadManager.cpp:475-486 | the totals of all SMs add up to the threads dealt |
| `Distribution.Distribute` | emul/libgpu/GPUThreadManager.cpp:475-486 | the loop leaves every SM with its share of all chunks, in all four tables |
| `WarpScheduler.SetsFitIff` | emul/libgpu/GPUThreadManager.h:233-235 | every warp the cursor can reach exists if and only if warpsets*concurrent_warp_count <= rows |
| `WarpScheduler.LaunchedMeaning` | emul/libgpu/GPUThreadManager.cpp:603-608 | a launch starts at warp 0 with as many warps as rows and launch allow, and the least number of sets that holds the timing warps |
| `WarpScheduler.LaunchedFitsIff` | emul/libgpu/GPUThreadManager.cpp:603-608 | a launch meets that if and only if a warp is timed and one set holds all rows and timing warps, or the sets counted in full fit |
| `WarpScheduler.InRangeNeverOverruns` | emul/libgpu/GPUThreadManager.cpp:882-999 | where the sets fit, a switch reads existing warps only |
| `WarpScheduler.NoOverrunIff` | emul/libgpu/GPUThreadManager.cpp:867-999 | some sequence of switches from a launch reads a missing warp if and only if the launch does not fit |
| `WarpScheduler.IncompleteSetIsReached` | emul/libgpu/GPUThreadManager.cpp:972-994 | three rows in sets of two: with the first set complete the switch goes to warp 2 |
| `WarpScheduler.IncompleteSetOverruns` | emul/libgpu/GPUThreadManager.cpp:891-916 | and the next switch reads warp 3, whatever the states |
| `WarpScheduler.MovesIsFirst` | emul/libgpu/GPUThreadManager.cpp:891-916 | a search passes over skipped warps only |
| `WarpScheduler.AheadIsModulo` | emul/libgpu/GPUThreadManager.h:295-307 | k moves lead k warps on, around the set |
| `WarpScheduler.FoundIsUsable` | emul/libgpu/GPUThreadManager.cpp:867-999 | on true the warp is not complete, and neither complete nor at a barrier if the set has such a warp; another set is entered only at its first warp |
| `WarpScheduler.FirstInRound` | emul/libgpu/GPUThreadManager.cpp:891-927 | a usable warp is passed over only for an earlier one of the round |
| `WarpScheduler.NotFoundMeansDone` | emul/libgpu/GPUThreadManager.cpp:969-998 | false exactly when the whole starting set is complete and there is no next set or its first warp is complete |
| `TraceBuffer.SlotsDiffer` | emul/libgpu/GPUThreadManager.cpp:878 | no two words of two threads share a slot of the flat array |
| `TraceBuffer.FieldsAt` | emul/libgpu/GPUThreadManager.cpp:878 | words 0, 2, 4 and 9 of a thread are first block, skip count, pause flag and run-ahead word |
| `TraceBuffer.Trace.constructor` | emul/libgpu/GPUThreadManager.cpp:691 | a buffer of traceSize words per thread that stands for all fields zero |
| `TraceBuffer.Trace.Set` | emul/libgpu/GPUThreadManager.cpp:878 | one field of one thread changes and nothing else in the array |
| `TraceBuffer.Trace.SetPause` | emul/libgpu/Original_Divergence.cpp:196 | the pause flag of one thread changes and nothing else in the array |
| `TraceBuffer.Trace.Clear` | emul/libgpu/GPUThreadManager.cpp:691 | every word is zero |
| `TraceBuffer.Trace.MarkAll` | emul/libgpu/GPUThreadManager.cpp:149-218 | first block, skip count and pause flag of every thread, and of nothing else |
| `TimingPhase.SwitchTouches` | emul/libgpu/GPUThreadManager.cpp:871-1015 | a switch changes only flags of the old and the new warp |
| `TimingPhase.SwitchMeaning` | emul/libgpu/GPUThreadManager.cpp:871-1015 | every flag after a switch: 0 for the runnable threads of a found warp, 1 for the rest of the old warp, else unchanged |
| `TimingPhase.StepKeeps` | emul/libgpu/Original_Divergence.cpp:188-489 | pausing a thread of the current warp, any status change, a relaunch and a switch keep the invariant |
| `TimingPhase.EveryState` | emul/libgpu/Original_Divergence.cpp:78-489 | the invariant holds in every state of every run |
| `TimingPhase.EverySwitchStarts` | emul/libgpu/GPUThreadManager.cpp:1001-1015 | in every run, after a switch exactly the runnable threads of the found warp run on that SM, and none if no warp was found |
| `TimingPhase.InitThread` | emul/libgpu/GPUThreadManager.cpp:684-723 | after init_trace a thread runs if and only if it is in its SM's current warp and that SM has timing warps |
| `TimingPhase.InitMarks` | emul/libgpu/GPUThreadManager.cpp:291-366 | after init_trace every thread is at its first basic block, and exactly the threads beyond the timing warps have skip count 32760 |
| `TimingPhase.WholePhase` | emul/libgpu/GPUThreadManager.cpp:684-723 | from init_trace on sound SMs through every write, switch and relaunch, any unpaused thread is in its SM's current warp |
| `TimingPhase.RabbitMeaning` | emul/libgpu/GPUThreadManager.cpp:1102-1157 | after reset_nextRabbitBB a thread is paused if and only if its row is below timing_warps; any other has skip count 32767 and run-ahead 0 |
| `GpuManager.PauseWarp` | emul/libgpu/GPUThreadManager.cpp:871-881 | exactly the threads of the warp are paused |
| `GpuManager.ResumeWarp` | emul/libgpu/GPUThreadManager.cpp:1001-1015 | exactly its threads that are not paused on a barrier are resumed |
| `GpuManager.Switch2NextWarp` | emul/libgpu/GPUThreadManager.cpp:867-1018 | the scheduler's outcome and the trace it leaves, for every launch |
| `GpuManager.SwitchedMeaning` | emul/libgpu/GPUThreadManager.cpp:867-1018 | in that trace the threads of a found warp that are not at a barrier run, the others of the old warp are paused, and nothing else changes |
| `GpuManager.SwitchedIsStep` | emul/libgpu/GPUThreadManager.cpp:867-1018 | where the sets fit, that is the switch step of the timing phase |
| `GpuManager.MarkWarp` | emul/libgpu/GPUThreadManager.cpp:291-366 | the launch marks of one warp on the first maxcount PEs |
| `GpuManager.ShortLoopSuffices` | emul/libgpu/GPUThreadManager.cpp:293-297 | cutting the loop at the thread count loses no thread |
| `GpuManager.InitTrace` | emul/libgpu/GPUThreadManager.cpp:684-736 | the whole array after init_trace; without a sample every thread runs with skip count 32760 |
| `GpuManager.AfterAllPEs` | emul/libgpu/GPUThreadManager.cpp:1123-1148 | PE by PE is the same as pausing all timing rows and then releasing all others |
| `GpuManager.ResetNextRabbitBB` | emul/libgpu/GPUThreadManager.cpp:1102-1157 | the whole array after reset_nextRabbitBB |
| `Relaunch.ResetNextTimingBB` | emul/libgpu/GPUThreadManager.cpp:1073-1100 | exactly the cells of the current warp that are neither done nor padding go back to running with zero offsets, and the warp to traceReady; the trace is not written |
| `Relaunch.ResetMeaning` | emul/libgpu/GPUThreadManager.cpp:1083-1088 | cell by cell: running with zero offsets unless done or padding, and every other cell of the three tables unchanged |
| `Relaunch.ResetIsRelaunch` | emul/libgpu/GPUThreadManager.cpp:1080-1094 | that is the relaunch step of the timing phase: all threads of the current warp become runnable, no other row changes |
| `LaunchedTables.LaunchedIsReady` | emul/libgpu/GPUThreadManager.cpp:475-520 | an SM with its share of a launch has sound tables whose rows are apart, and no PE beyond its thread count is used |
| `LaunchedTables.LaunchedDisjoint` | emul/libgpu/GPUThreadManager.cpp:475-486 | the SMs of a launch share no thread, and no row of one does |
| `LaunchedTables.OrganizedIsLaunching` | emul/libgpu/GPUThreadManager.cpp:475-608 | an organized SM is what init_trace asks for, and the timing phase is sound on it if and only if no warp is timed or the launch fits |
| `LaunchedTables.ReOrganize` | emul/libgpu/GPUThreadManager.cpp:475-608 | from cleared SMs, every SM ends up organized |
| `TimingObjects.StartPhase` | emul/libgpu/GPUThreadManager.cpp:684-723 | on the objects: init_trace leaves each thread the words of the start, and whoever is not paused is in its SM's current warp |
| `TimingObjects.SwitchWarpOf` | emul/libgpu/Original_Divergence.cpp:488 | a switch reads no missing warp, and afterwards exactly the threads of the found warp that are not at a barrier run on that SM |
| `TimingObjects.PauseThreadOf` | emul/libgpu/Original_Divergence.cpp:196 | pausing a thread of the current warp writes its flag only and keeps the invariant |
| `TimingObjects.RelaunchOf` | emul/libgpu/GPUThreadManager.cpp:1073-1100 | the relaunch reset changes that row and warp only and keeps the invariant |
| `TimingObjects.WriteThreadStatus` | emul/libgpu/Original_Divergence.cpp:194 | any write of a thread's status keeps it |
| `TimingObjects.WriteWarpStatus` | emul/libgpu/Original_Divergence.cpp:483 | any write of a warp's state keeps it |
| `TimingObjects.RunPhase` | emul/libgpu/Original_Divergence.cpp:78-489 | every script of them is carried out act by act, and in each state only current warps run |
| `TimingObjects.HistorySwitches` | emul/libgpu/Original_Divergence.cpp:488 | in such a script every switch starts exactly the runnable threads of the warp it finds |
| `TimingObjects.LaunchAndRun` | emul/libgpu/GPUThreadManager.cpp:436-723 | from cleared SMs: a launch that fits, a new trace, init_trace and any script, carried out act by act, with the invariant in each state |
| `LaneIsolation.PackRoundTripIff` | emul/libgpu/Original_Divergence.cpp:340-342 | the cracker unpacks the PE and warp that were packed if and only if both are below 2^16, and the low half is the address |
| `LaneIsolation.RenamingInjective` | emul/libcrack/CUDAInstruction.cpp:112-131 | two renamed registers are equal exactly for the same local warp, PE and register |
| `LaneIsolation.LanesIsolated` | emul/libcrack/CUDAInstruction.cpp:72-131 | the same end to end, from packed addresses to source and destination operands |
| `LaneIsolation.ReservedIff` | emul/libcrack/CUDAInstruction.cpp:112-131 | exactly when an operand becomes NoDependence or InvalidOutput |
| `TokenRing.EveryState` | bins/memkernels/thread_migrate.c:35-87 | the ring's invariant holds in every state of every interleaving |
| `TokenRing.MutualExclusion` | bins/memkernels/thread_migrate.c:41-55 | at most one thread is between its lock and the neighbour's unlock |
| `TokenRing.NoInterference` | bins/memkernels/thread_migrate.c:41-55 | a step of anyone else leaves data[], shared_rdwr[] and the thread inside alone, so no update is lost |
| `TokenRing.NeverStuck` | bins/memkernels/thread_migrate.c:35-87 | some actor can move in every state before the exit |
| `TokenRing.Winner` | bins/memkernels/thread_migrate.c:43-53 | the run prints (pings mod n)+1 after exactly `pings` hops, and shared_rdwr[i] is i*(pings+1) + pings*(pings+1)/2 |
| `TokenRing.RunsAreBounded` | bins/memkernels/thread_migrate.c:35-87 | every run is finite, with an explicit bound on its steps |
| `TokenRing.ExitsIffNonNegative` | bins/memkernels/thread_migrate.c:44-53 | the program can exit if and only if the count is not negative |

## Left out

- GpuManager.ResetNextRabbitBB: does not model the resets of thread statuses and offsets, SM status and live-flow count, because the flags do not depend on them.
- StreamingMP.SM.Move2NextWarp: does not model the flag for a finished round, which nothing reads, and the branch without rollover, because rollover is always on.
- StreamingMP.SM.ReadyWarps: does not model the other per-warp counters, which start at zero.
- LaunchedTables.ReOrganize: takes the number of timing warps of each SM as given.
- TraceBuffer.Trace.MarkAll: models the launch form of pauseAllThreads and resumeAllThreads, because no caller uses the other.
- GpuManager.MarkWarp: models the launch form of the selective helpers, because no caller uses the other.
- Relaunch.ResetNextTimingBB: does not model the SM status and the last active PE, because the flags do not depend on them.
- TimingPhase.StepKeeps: takes every status write of the timing loop as arbitrary, so barrier counting, TSFIFO blocking and completion counts are not modelled.
- StreamingMP.SM.AddThreads: does not model a block size of zero, for which the counter wraps, because reOrganize refuses such a launch.
- Occupancy.CalcOccupancy: does not model 32-bit overflow of the products.
- Occupancy.RoundUp: does not model 32-bit overflow of the sum.
- StreamingMP.SM.Organize: takes the number of timing warps as given.
- TimingObjects.LaunchAndRun: requires a launch that fits, because one with an incomplete last warp set reads warps that do not exist (WarpScheduler.NoOverrunIff).
- DInsts.Pool.Create: does not model the free list of the pool, because its file is not part of this model; what reuse of an object does to the graphs is DepRuns.CreateRepresents.
- DInsts.Pool.Clone: does not model the free list either.
- DInsts.Window.Scrap: does not model the call that advances the queue's tail, which is EmuDInstQueues.EmuDInstQueue.AdvanceTail.
- EmuDInstQueues.EmuDInstQueue.AdjustTrace: does not model the debug bound of 64K slots, because it stops debug builds only.
- ThumbIT.StackSimulatesITSTATE: says nothing about an IT instruction inside an IT block, which the architecture leaves unpredictable.
- Thumb LDM: as written it starts at base+4 for a list without R0, so it has no equivalence to state.
- Conditional forms inside an IT block: the table of negated branches repeats an entry (emul/libcrack/Thumb16Crack.cpp:127-128), so they have no equivalence to state.
- High-register moves, adds and branches: single uops.
- Condition flags other than Z, and the flags a uop may set globally: no uop of PUSH, STM or POP reads or sets them.
- Thumb-32 and SPARC cracking: further instruction sets with partly unimplemented encodings.
- addTimingThreads: how many warps of an SM are timed is an input of the launch.
- Divergence variants other than the original one: dead code.
- Sampler counters, CPI, flow-id pool, statistics: bookkeeping.
- GPUReader parsing, emulator glue, drivers, scripts and the stream kernel: input, output, foreign calls and floating point.
- Overflow of C integers, failed mutex calls and more threads than MAX_THREADS in the token ring.
