# Verified model of the out-of-order simulator

The simulator in `sim_ooo/` executes MIPS programs on a speculative out-of-order machine and compares it, instruction
by instruction, with an in-order interpreter. This project models the machine, its caches and the containers they rest
on, and proves what they are for.

**The back end** (`Isa`, `Core`, `Renaming`, `Dataflow`, `DataSteps`, `Control`, `Refinement`, `Reachability`). `Core` is
a state machine with one step function per stage: fetch, allocate, execute, complete, retire with recovery, and the
clock. Steps may be taken in any order, predictors and the return stack answer anything, and the ALU and
floating-point functions are arbitrary. `Isa` holds the interpreter. The main theorem is
`Reachability.OutOfOrderRefinesInOrder`: after k retirements the registers, the memory, the retired mappings and the
history of retired addresses are those of k in-order instructions. It rests on four layers, each an invariant over every
step: who owns each physical register (`Renaming`), what each register holds (`Dataflow`, `DataSteps`), where each
op was fetched (`Control`), and how far program order has got (`Refinement`).

**What single instructions do** (`LoadStore`, `Prediction`). The refinement says that core and interpreter agree; these
say on what. `LoadStore` gives every load byte by byte, every store byte by byte, a load behind a store, the alignment
each load needs, addresses, branch and jump targets and links. `Prediction` gives the next address fetched for every kind
of instruction, and what a retiring one leaves for the next time it is fetched.

**Consequences and separate results about the back end.** `FreeLists` (conservation of registers), `Recovery` (flash
recovery equals serial rollback), `OperandsKept` (operands are stable), `MemoryOrder` (no stale load retires), `Progress`
(no deadlock), `Liveness` (from every reachable state the machine can retire more, exactly if the loads it needs are
multiples of the bytes they read), `CrossCheck` (when the comparison with the interpreter reports an error), `Exactness` (where core and
interpreter differ, as conditions that hold if and only if they agree) and `Divergences` (concrete runs on which they
do). `Schedules` builds runs step by step.
`MachineState` holds the machine as a class over arrays; each of its methods is proved to take exactly a step of
`Core`, and its constructor to build a state the theorems start from.

**Caches.** `Lru` (what one set holds after any trace), `TagList` and `CacheSets` (the linked list and the set, in
place), `CacheChain` (levels over those sets: which of them answers an access and what it costs, read off the addresses
of the trace; counters), `TreeLru` (the toggling tree), `InFlight` (timing of memory ops) and `MemoryTiming` (that timing
on the core's own loads and stores).

**Containers.** `Basics` (what the modules share), `Links` and `PooledList` (the pooled linked list), `Ring` (the
reorder buffer's ring), `BitVec` (packed bit vectors, as sets and as numbers), `LoopPredictor`. `Powers` holds the
arithmetic of powers of two.

## Where the code does not meet the obvious claim

Each of these is proved, with the exact condition under which the code does meet the claim and an input on which it
does not.

- A `jalr` that jumps to its own delay slot and was fetched by fall-through is accepted as correctly predicted, and the
  slot is executed once instead of twice (`Exactness.JalrExact`; `Divergences.JalrDiverges` is a run that retires 0, 4, 8
  where program order is 0, 4, 4).
- Zero stands for "no delay slot pending", so a branch at the last word of the address space that executes its delay slot
  loses it (`Exactness.SlotSentinelExact`, `Divergences.SlotZeroDiverges`).
- An R-type op that names register 0 writes it in the interpreter and not in the core (`Exactness.RegisterZeroExact`,
  `Divergences.RegisterZeroDiverges`).
- The violation check compares 8-byte blocks, so it misses a store that crosses one (`Isa.BlockCheckExact`,
  `Exactness.CrossingStoreEscapesCheck`, `Divergences.CrossingStoreDiverges`).
- The cross-check advances the interpreter by whole calls of `execMips`, which run the delay slot along with its branch.
  When a branch jumps to its own delay slot, the core is about to retire the slot at a pc where the interpreter, having
  executed it, stands again: the comparison then reports an error although the core is right, exactly if the slot changes
  a compared register (`CrossCheck.CrossCheckExact`, `Divergences.SelfSlotReported`).
- A misaligned load is flagged, nuked, fetched again and flagged again: it never retires, nor does a branch with such a
  load in its delay slot (`Liveness.ProgressExact`).
- `pop_back` on a list of one entry leaves its head pointing at the freed entry (`TagList.MyList.PopBack`), so a set of
  one way breaks exactly when it has to drop its entry (`CacheSets.CacheSet.Access`, `CacheChain.SetAssocCache.Access`).
- `size` of the ring is right exactly when the write index is past the read index (`Ring.SimQueue.Size`).
- `updateLRU` sets tree bits with the opposite sense to the walk that reads them: in every state the way just hit is the
  next victim (`TreeLru.HitIsNextVictim`, `TreeLru.HitThenMissEvicts`).
- The loop predictor keeps its count when an entry loses its lock, and then mispredicts the first period after locking
  again; and a trip count of 2^32 or more never fits (`LoopPredictor.LoopLearningExact`; `LoopPredictor.StaleCountReached`
  is a trace of four outcomes that leaves such a count).

The refinement theorem therefore carries `Isa.Supported` for the instructions that have retired. Four of its clauses are
the conditions above, that on `jalr` whatever it was predicted. The remaining one, no branch or jump in a delay slot, is
what the MIPS architecture demands of programs.

## Model

| member | source | states |
|---|---|---|
| Reachability.OutOfOrderRefinesInOrder | sim_ooo/ooo_core.cc:277-674 | For every program, predictor answer and interleaving of the stages, after k retirements registers, memory, retired mappings and the history of retired pcs equal those of k in-order instructions, provided those k are supported |
| Isa.ExecMipsIsRefSteps | sim_ooo/interpret.cc:45-120 | A call of the interpreter on a branch executes its delay slot inside the call: it is one instruction-by-instruction step, or two exactly when the slot is executed (nullified for a likely branch not taken) |
| Isa.BlockCheckExact | sim_ooo/mips_op.cc:1464-1491 | Comparing addresses shifted right by 3 finds every load that can see a store if and only if the store stays inside one 8-byte block |
| Isa.LoadWithinBlock | sim_ooo/mips_op.cc:1219-1327 | A load that passes its alignment test depends only on the bytes of its own block, for every load the core's decoder makes, lwl, lwr and the paired ldc1 included |
| Isa.WriteOutsideBlock | sim_ooo/mips_op.cc:1413-1440 | A store that fits its block changes no byte of any other |
| LoadStore.ByteLoads | sim_ooo/mips_op.cc:1256-1263 | lbu delivers the byte at the address, lb the same byte as signed |
| LoadStore.HalfLoads | sim_ooo/mips_op.cc:1264-1271 | lhu is 256 times the byte at the address plus the next one, lh the same as signed |
| LoadStore.WordLoads | sim_ooo/mips_op.cc:1272-1275 | lw and lwc1 put the four bytes from the address together, the first one highest |
| LoadStore.DoubleLoads | sim_ooo/mips_op.cc:1624-1633 | ldc1 gives its first register the word at address + 4 and its second the word at the address |
| LoadStore.LeftLoads | sim_ooo/mips_op.cc:1276-1297 | lwl puts the bytes from the address to the end of its word in front of the bytes of the register it keeps |
| LoadStore.RightLoads | sim_ooo/mips_op.cc:1298-1319 | lwr puts the bytes from the start of the word to the address behind those it keeps |
| LoadStore.UnalignedWord | sim_ooo/mips_op.cc:1276-1319 | lwl at an address and lwr three bytes on load the four bytes from there, whatever the alignment and the register's former value |
| LoadStore.StoresBytes | sim_ooo/mips_op.cc:1413-1426 | A byte loaded behind a store, of any kind and at any distance, is that byte of the operand, the most significant first, or the byte that was there |
| LoadStore.LoadAfterStore | sim_ooo/mips_op.cc:1413-1426 | A load of the width stored gives the operand back, or the low part stored of it |
| LoadStore.DoubleAfterStore | sim_ooo/mips_op.cc:1768-1774 | ldc1 behind sdc1 gives back both words, each to the register it came from |
| LoadStore.StoreThenLoad | sim_ooo/interpret.cc:935-946 | In program order sw and then lw with the same base and immediate move the word from one register to the other and change no other register |
| LoadStore.AlignedExact | sim_ooo/mips_op.cc:1219-1236 | A load passes its alignment test if and only if its address is a multiple of 8 for ldc1, 4 for lw and lwc1, 2 for lh and lhu, 1 for the others |
| LoadStore.MultipleIsRead | sim_ooo/mips_op.cc:1249-1275 | That number is how many bytes the load reads: two memories give it the same value if and only if they agree on each of them (lwl and lwr apart) |
| LoadStore.AddressExact | sim_ooo/mips_op.cc:1219-1220 | A load or store goes its immediate away from its base register, modulo 2^32 |
| LoadStore.ResultsLand | sim_ooo/interpret.cc:45-120 | An instruction puts its results in its destinations, the first in the first, and leaves every other register alone |
| LoadStore.BranchTargetExact | sim_ooo/mips_op.cc:956-959 | A branch's target is its immediate, in words, away from the delay slot |
| LoadStore.BranchInOrder | sim_ooo/mips_op.cc:1010-1106 | In program order a taken branch goes through its slot to its target, one not taken through its slot to the next instruction, and a likely one not taken there at once |
| LoadStore.JumpTargetExact | sim_ooo/mips_op.cc:779-790 | j and jal take 28 bits from the instruction and the upper 4 from the delay slot's address |
| LoadStore.LinkIsBehindSlot | sim_ooo/mips_op.cc:825-827 | jal and jalr leave the address behind their delay slot in the link register |
| LoadStore.CallReturns | sim_ooo/mips_op.cc:778-827 | A jr through that register goes on behind the delay slot of the call |
| Renaming.RenameGivesFresh | sim_ooo/mips_op.cc:2027-2060 | Renaming takes registers that were free, are different from each other, lie in the right file, and records the previous mapping of each destination |
| Renaming.PushKeeps | sim_ooo/mips_op.cc:425-447 | Allocation keeps every register owned by exactly one retired mapping or one destination in flight, and all snapshots of the alias table consistent |
| Renaming.PopKeeps | sim_ooo/mips_op.cc:551-573 | Retirement frees exactly the previous register and keeps ownership, snapshots and counts |
| Renaming.RecoverKeeps | sim_ooo/ooo_core.cc:565-605 | Copying the retired table and free vector restores ownership with nothing in flight |
| Dataflow.ExecuteKeeps | sim_ooo/mips_op.cc:460-542 | Executing any ready op, at any time, keeps what every register is known to hold |
| Dataflow.CompleteKeeps | sim_ooo/mips_op.cc:1249-1327 | Completing any issued op keeps it too, a load reading memory at that moment |
| DataSteps.AllocateKeeps | sim_ooo/mips_op.cc:1188-1206 | Allocation disturbs no op in flight and no retired value, and lists every load in the load table |
| DataSteps.RetireKeeps | sim_ooo/mips_op.cc:1413-1511 | Retirement, memory write and load flags included, keeps every younger finished and unflagged load current |
| DataSteps.NoViolation | sim_ooo/mips_op.cc:1464-1491 | If the scan finds no violation, no finished younger load shares the store's block |
| DataSteps.FlushKeeps | sim_ooo/ooo_core.cc:554-655 | The recovered state satisfies every data invariant |
| Control.FetchKeeps | sim_ooo/ooo_core.cc:207-267 | Whatever the predictors answer, each fetched op continues the path of the one before, delay slots included |
| Prediction.UnseenBranch | sim_ooo/ooo_core.cc:247-259 | A branch that has never retired is fetched to its target if its opcode says likely, or says not likely and the target lies behind it, and straight on otherwise |
| Prediction.SeenBranch | sim_ooo/ooo_core.cc:230-246 | A branch or jalr that has retired is fetched to its recorded target or straight on, as the predictor says |
| Prediction.DirectJumpFetched | sim_ooo/ooo_core.cc:217-229 | j and jal are fetched where they go, so they are never mispredicted |
| Prediction.SlotThenTarget | sim_ooo/ooo_core.cc:93-116 | Behind whatever leaves the straight path the slot is fetched, counted as not taken, and then the predicted target |
| Prediction.TargetsLearned | sim_ooo/mips_op.cc:1142-1153 | A retiring branch records its target whether it was taken or not, and no other record changes or goes |
| Prediction.JumpLearned | sim_ooo/mips_op.cc:844-846 | A retiring jump records where it went |
| Prediction.JalrFollowsLast | sim_ooo/ooo_core.cc:230-246 | A jalr that has retired is fetched, when predicted taken, where it went the last time |
| Control.AgreeStep | sim_ooo/mips_op.cc:1010-1106 | A branch or jump that raises no exception leaves the fetch path where program order goes |
| Control.SlotFollows | sim_ooo/ooo_core.cc:453-480 | The op behind a branch that executes its slot is that slot, mispredicted or not |
| Refinement.RetireBothThenFlush | sim_ooo/ooo_core.cc:453-506 | A mispredicted branch and its slot retire together, two in-order steps, and fetch restarts in program order |
| Refinement.RetireThenFlush | sim_ooo/ooo_core.cc:508-529 | A mispredicted likely branch with a nullified slot retires alone, one in-order step |
| Refinement.FlushOnly | sim_ooo/ooo_core.cc:532-546 | A nuke that retires nothing leaves the machine at the same point of program order |
| Refinement.StepKeeps | sim_ooo/ooo_core.cc:277-674 | Every step of every stage keeps the machine in correspondence with in-order execution |
| Reachability.StepStructure | sim_ooo/ooo_core.cc:277-674 | Every step keeps the renaming and validity invariants whatever the program does |
| Exactness.SlotNotSeparated | sim_ooo/ooo_core.cc:328-349 | Once a branch has retired, the retire stage can only retire its delay slot: no nuke comes between them |
| Exactness.JalrExact | sim_ooo/mips_op.cc:778-829 | The two instructions fetched behind a jalr accepted as predicted are the next two of program order if and only if it was predicted taken or does not jump to its own slot |
| Exactness.JalrToOwnSlotDiverges | sim_ooo/mips_op.cc:778-829 | In the other case the reorder buffer holds the instruction after the slot where program order has the slot again |
| Exactness.SlotSentinelExact | sim_ooo/ooo_core.cc:207-267 | The two instructions fetched behind a redirecting branch are its slot and its target, as in program order, if and only if the slot's address is not zero |
| Exactness.RegisterZeroExact | sim_ooo/mips_op.cc:425-447 | Core and interpreter agree after an R-type op naming register 0 if and only if its value was already there |
| Exactness.CrossingStoreEscapesCheck | sim_ooo/mips_op.cc:1464-1491 | When a store that crosses its block retires, a load that has read the next block's first byte is not flagged, and what it delivered is still what memory holds if and only if the store wrote the byte that was there |
| Divergences.JalrDiverges | sim_ooo/mips_op.cc:778-829 | A run of fifteen steps that retires 0, 4, 8 where program order is 0, 4, 4 |
| Divergences.SlotZeroDiverges | sim_ooo/ooo_core.cc:207-267 | A run of ten steps on which a branch at the last word retires and its slot at address 0 never does |
| Divergences.RegisterZeroDiverges | sim_ooo/mips_op.cc:425-447 | A run of five steps after which the register the interpreter wrote still holds 0 |
| Divergences.CrossingStoreDiverges | sim_ooo/mips_op.cc:1464-1491 | A run of ten steps on which a load retires with the byte a crossing store has replaced |
| CrossCheck.CrossCheckExact | sim_ooo/ooo_core.cc:351-409 | On any run, whichever registers are compared, the check next reports an error if and only if a delay slot retires to which its own branch jumps and which changes a compared register |
| CrossCheck.CrossCheckPasses | sim_ooo/ooo_core.cc:351-409 | Over every run of a supported program without such a slot the check never reports an error, and the interpreter is where the core is or one delay slot ahead |
| Divergences.SelfSlotReported | sim_ooo/ooo_core.cc:351-409 | A run on which every instruction is supported and the core stays in order, and the check reports an error |
| FreeLists.FreeListConservation | sim_ooo/mips_op.cc:425-447 | In every reachable state the registers in use are the disjoint union of the alias table's image and the previous registers in flight, and also of the retired image and the new registers in flight; both tables are injective, and in each register file the number in use is that of its architectural registers, plus its destinations in flight on the speculative side |
| FreeLists.RecoveryPopcount | sim_ooo/ooo_core.cc:586-587 | After every recovery the machine makes, of a flagged op or of a mispredicted branch retired alone or with its slot, each register file has as many registers in use as it has architectural ones |
| MachineState.RecoveryCounts | sim_ooo/ooo_core.cc:586-587 | The two counts asserted after every such recovery: 34 integer and 32 floating-point registers |
| FreeLists.ExhaustionMeansInFlight | sim_ooo/mips_op.cc:2027-2060 | A register file larger than its architectural part runs out only while one of its registers is a destination in flight |
| Recovery.FlashEqualsRollback | sim_ooo/ooo_core.cc:453-605 | Every recovery of the retire stage, after a mispredicted branch has retired alone or with its slot or after nothing has, is rolling back every op left in flight, youngest first, for one and two destinations and loads |
| Recovery.FlashIsRollback | sim_ooo/ooo_core.cc:554-605 | Copying the retired tables equals that rollback in every state that meets the renaming invariants, reachable or between two retirements |
| Recovery.RollbackOrder | sim_ooo/mips_op.cc:574-585 | Rolling everything back is calling each op's rollback method once, in the order of the reorder buffer backwards |
| Recovery.RollbackReaches | sim_ooo/mips_op.cc:574-585 | Rolling back every op from the youngest reaches the retired tables, whatever is in flight |
| OperandsKept.SourcesNotRecycled | sim_ooo/mips_op.cc:551-573 | The source registers of an op in flight are in use, and no younger op has them as destinations |
| OperandsKept.OperandStability | sim_ooo/mips_op.cc:448-542 | Once ready, an op reads the same operand values at every later moment until it retires, over every run |
| MemoryOrder.TableLoadsAreYounger | sim_ooo/mips_op.cc:1464-1491 | The load table holds exactly the loads in flight, and at a store's retirement all are younger than it and none older in allocation cycle |
| MemoryOrder.CompletedLoadsAreFlagged | sim_ooo/mips_op.cc:1464-1491 | A retiring store flags every load already completed in its block |
| MemoryOrder.ViolationFlagsExactly | sim_ooo/mips_op.cc:1464-1491 | A retiring store flags all loads in flight, if and only if one of them has finished in its block, and nothing else |
| MemoryOrder.FlaggedDeliversNothing | sim_ooo/mips_op.cc:1249-1327 | A load flagged before it completes writes no register, and its destinations stay invalid |
| MemoryOrder.MispredictionFlushes | sim_ooo/ooo_core.cc:447-546 | A mispredicted op retires only as the head, with its slot if it executes one, the slot having no exception of its own, and leaves nothing in flight and fetch at the computed target |
| MemoryOrder.FlaggedLoadsNeverRetire | sim_ooo/ooo_core.cc:315-349 | Neither the head nor a delay slot retiring with it carries a load exception |
| MemoryOrder.FlaggedIsNuked | sim_ooo/ooo_core.cc:315-349 | An op flagged at one moment is never retired by any run from there, and stays flagged while it is in flight |
| MemoryOrder.RetiringLoadIsCurrent | sim_ooo/mips_op.cc:1249-1327 | A load that retires holds what in-order execution loads at the address in-order execution computes |
| MemoryOrder.RetiringSlotIsCurrent | sim_ooo/ooo_core.cc:453-506 | So does a load that retires as the delay slot of a mispredicted branch, against program order after the branch |
| Progress.OldestIsReady | sim_ooo/mips_op.cc:448-459 | The oldest unfinished op has all its operands unless an older load is flagged |
| Progress.NoDeadlock | sim_ooo/ooo_core.cc:277-349 | With anything in flight the retire stage acts, or one of the two oldest ops can move, or the head waits for its slot to be allocated |
| Liveness.CanAlwaysRetire | sim_ooo/ooo_core.cc:277-674 | Every run, however it has scheduled and predicted, can be continued until it retires more, if the next instruction and the slot it executes are supported and not misaligned loads, given two reorder-buffer entries, one load-table slot and three spare registers per file |
| Liveness.ProgressExact | sim_ooo/ooo_core.cc:277-674 | Some run retires k instructions of a supported program if and only if the address of each load among them, and of the one in a slot still to come, is a multiple of the bytes it reads (1 for lwl and lwr) |
| MachineState.PairAvailable | sim_ooo/mips_op.cc:2027-2060 | The num_free test is exact: two registers can be taken if and only if it passes |
| MachineState.SimState.constructor | sim_ooo/ooo_core.cc:1143-1200 | The reset maps of all four files and the copied registers give a state from which the refinement theorem starts |
| MachineState.SimState.MapRegisters | sim_ooo/ooo_core.cc:1165-1198 | The initialisation loop gives both tables the mapping and sets exactly its bits in three vectors |
| MachineState.SimState.FetchOne | sim_ooo/ooo_core.cc:207-267 | One trip round the fetch loop is one fetch step |
| MachineState.SimState.AllocateOp | sim_ooo/ooo_core.cc:981-1001 | Allocation succeeds exactly when registers and a table slot are there, is then the allocation step, and otherwise changes nothing |
| MachineState.SimState.RenameDests | sim_ooo/mips_op.cc:2027-2060 | Renaming one or two destinations in place is the renaming function, with nothing changed on failure |
| MachineState.SimState.ExecuteOp | sim_ooo/mips_op.cc:460-542 | Dispatch writes operand results in place: the execute step |
| MachineState.SimState.CompleteOne | sim_ooo/mips_op.cc:543-550 | Completion sets the valid bits in place: the complete step |
| MachineState.SimState.FindViolation | sim_ooo/mips_op.cc:1464-1486 | The first scan finds a conflict exactly when one is in the table |
| MachineState.SimState.FlagTable | sim_ooo/mips_op.cc:1487-1491 | The second scan flags exactly the loads in the table |
| MachineState.SimState.RetireOp | sim_ooo/mips_op.cc:1413-1511 | Retirement of the head in place, tables, free vectors, memory and load flags, is the retire-head step |
| MachineState.SimState.Recover | sim_ooo/ooo_core.cc:565-655 | The copying and rebuilding loops are the flush step |
| MachineState.SimState.RetireStage | sim_ooo/ooo_core.cc:277-349 | The retire stage's branching is the retire step, in every case of exceptions and delay slots |
| MachineState.DecideFromRing | sim_ooo/ooo_core.cc:292-349 | Reading the head and peek_next_pop of the ring gives the decision of the retire step on the ring's contents, for two slots or more; with one slot a branch is taken for its own slot |
| Lru.StackInclusion | sim_ooo/sim_cache.hh:400-429 | The same trace of accesses, line flushes and clears on a smaller and a larger set keeps the smaller list a prefix of the larger, so every hit in the smaller is one in the larger |
| Lru.ListIsRecency | sim_ooo/sim_cache.hh:406-426 | The list is the distinct tags in recency order, cut to the associativity |
| Lru.ReuseDistance | sim_ooo/sim_cache.hh:406-426 | An access hits if and only if its tag was accessed before with fewer than assoc distinct other tags since |
| Lru.FlushForgets | sim_ooo/sim_cache.hh:400-429 | A flushed tag is not held until it is accessed again, no other tag is forgotten, and a clear forgets all |
| TagList.MyList.Find | sim_ooo/sim_cache.hh:159-170 | Null exactly when the tag is absent, else the entry that holds it |
| TagList.MyList.PushFront | sim_ooo/sim_cache.hh:89-99 | The list of contents grows at the front and is a well-formed chain afterwards if and only if it was before |
| TagList.MyList.PopBack | sim_ooo/sim_cache.hh:100-108 | Drops the last of two or more entries; with one entry it leaves a list that has a head and no tail |
| TagList.MyList.MoveToHead | sim_ooo/sim_cache.hh:185-199 | Rotates head, middle or tail entry to the front, all others keeping their order |
| TagList.MyList.Erase | sim_ooo/sim_cache.hh:200-212 | Cuts one entry out of the chain |
| TagList.MyList.Clear | sim_ooo/sim_cache.hh:213-224 | The unlinking walk empties the list |
| CacheSets.CacheSet.Access | sim_ooo/sim_cache.hh:406-426 | Hits exactly when the tag is held and moves exactly one counter; the set stays well formed if and only if it need not drop its only entry, and then holds the list the LRU function gives |
| CacheSets.CacheSet.FlushLine | sim_ooo/sim_cache.hh:400-405 | Removes the tag if held, counters untouched |
| CacheChain.IndexInjective | sim_ooo/sim_cache.cc:161-173 | An address is its tag, set and offset recombined, and two addresses share tag and set if and only if they share a line |
| CacheChain.LatencyIsVisited | sim_ooo/sim_cache.cc:346-374 | The latency returned is that of the visited levels, plus the memory's exactly when all miss |
| CacheChain.Conservation | sim_ooo/sim_cache.cc:346-374 | Over any trace each level's hits plus misses, reads and writes apart, equal the misses of the level above |
| CacheChain.LevelsCompose | sim_ooo/sim_cache.cc:346-374 | The first level behaves as if alone, and the levels below serve exactly its misses, in order, at the addresses passed down |
| CacheChain.LevelReuseDistance | sim_ooo/sim_cache.cc:346-374 | At any level an address hits if and only if its line was asked for before with fewer than assoc distinct lines of its set since |
| CacheChain.ReloadIsLineStart | sim_ooo/sim_cache.cc:363-366 | The address a miss passes down has offset 0, is no higher than the address asked for, and lies in its line: same tag, same set |
| CacheChain.LinesNest | sim_ooo/sim_cache.cc:363-366 | That address names, for the next level, the line of the address asked for, if and only if the next level's lines are no shorter |
| CacheChain.EveryLevelReuse | sim_ooo/sim_cache.cc:346-374 | Over any trace on empty levels, level i hits if and only if the line was asked for before, among the accesses of the trace that no level above reuses, with fewer than assoc distinct lines of its set since |
| CacheChain.LatencyFromAddresses | sim_ooo/sim_cache.cc:346-374 | So the latency of an access is determined by the addresses before it: the levels up to the first that reuses the line, or all of them and the memory |
| CacheChain.SetAssocCache.constructor | sim_ooo/sim_cache.cc:303-312 | A new level holds empty sets that share nothing but its counters, above the levels it is given |
| CacheChain.SetAssocCache.Serve | sim_ooo/sim_cache.cc:346-350 | Serving one set's linked list in place leaves every other set of the level as it was and moves one shared counter; the level stays well formed if and only if that set does |
| CacheChain.SetAssocCache.Access | sim_ooo/sim_cache.cc:346-374 | The call that walks the next pointers over levels of linked lists gives the functional chain's hit and latency, and its levels too if and only if no level visited has to drop the only entry of a set |
| TreeLru.TreeSweep | sim_ooo/sim_cache.cc:516-546 | From any tree and any power-of-two associativity, assoc walks in a row return every way exactly once and leave the tree as it was |
| TreeLru.FindIsVisit | sim_ooo/sim_cache.cc:516-546 | The walk over a heap-shaped word of bits is a visit of the tree it spells |
| TreeLru.UpdateOnPath | sim_ooo/sim_cache.cc:495-514 | An update writes no bit but those of the nodes above the way |
| TreeLru.HitIsNextVictim | sim_ooo/sim_cache.cc:495-546 | After a hit the walk leads back to the way just hit |
| TreeLru.HitThenMissEvicts | sim_ooo/sim_cache.cc:548-610 | On a full set a hit followed by a miss throws out exactly the tag that was hit |
| TreeLru.MissesReplaceEachWay | sim_ooo/sim_cache.cc:591-602 | As many misses in a row as ways, no hit between, put each new tag in a way of its own |
| TreeLru.HitKeepsTags | sim_ooo/sim_cache.cc:604-608 | A hit moves no tag and turns the tree to the way hit |
| TreeLru.MissFillsLowest | sim_ooo/sim_cache.cc:595-602 | A miss with ways free makes exactly one more way valid, the lowest unset one, which gets the tag and to which the tree then leads |
| TreeLru.MissReplacesVictim | sim_ooo/sim_cache.cc:591-602 | A miss on a full set throws out the tag in the way the tree leads to and no other |
| TreeLru.RoomKeeps | sim_ooo/sim_cache.cc:548-610 | A hit, or a miss with ways free, leaves held exactly what was held and the tag served |
| TreeLru.FewTagsStay | sim_ooo/sim_cache.cc:548-610 | Any accesses to no more different tags than ways, on a set that holds none, leave exactly those tags held |
| TreeLru.SetState.ServeKeeps | sim_ooo/sim_cache.cc:548-610 | Valid ways keep distinct tags, the tag served is held afterwards, and a full set stays full |
| TreeLru.LowAssocSet.FindLRU | sim_ooo/sim_cache.cc:516-546 | The loop terminates in range for every associativity and is the walk |
| TreeLru.LowAssocSet.UpdateLRU | sim_ooo/sim_cache.cc:495-514 | The loop from way to root is the update |
| TreeLru.LowAssocSet.Lookup | sim_ooo/sim_cache.cc:555-577 | The first valid way that holds the tag, on full and partly filled sets alike |
| TreeLru.LowAssocSet.Access | sim_ooo/sim_cache.cc:548-610 | One access is the set's serve function, and the all-valid flag stays exact |
| InFlight.NeverFull | sim_ooo/sim_cache.cc:637-668 | The not-full assertions hold: an op being issued is in the reorder buffer and not in the list |
| InFlight.ExactTiming | sim_ooo/sim_cache.cc:612-628 | An op issued in cycle c with latency l and not thrown out is in flight through cycle c + l, released by that cycle's tick and complete exactly from cycle c + l + 1 |
| MemoryTiming.CoreTiming | sim_ooo/sim_cache.cc:612-653 | On every run of core and cache together, the list has room for each load or store the core executes, with the reorder buffer's size as its own, and that op is complete in the core exactly from the cycle after its latency ends |
| MemoryTiming.JointKeeps | sim_ooo/sim_cache.cc:612-653 | Each step of the core meets the guards of the list's steps behind it: an executed load or store has not been issued before, and what retires is complete |
| InFlight.FlightList.Tick | sim_ooo/sim_cache.cc:612-628 | One walk, erasing as it goes, releases and stamps exactly the ops whose latency ends now |
| InFlight.FlightList.Request | sim_ooo/sim_cache.cc:637-668 | A request is stamped with its end, one cycle away for a write, and joins the list |
| InFlight.FlightList.NukeInflight | sim_ooo/sim_cache.cc:630-635 | A nuke empties the list |
| PooledList.SimList.constructor | sim_ooo/sim_list.hh:64-71 | All entries are different and all are free |
| PooledList.SimList.Push | sim_ooo/sim_list.hh:124-137 | Appends in push order; free and live entries keep partitioning the pool and the counts add up |
| PooledList.SimList.Pop | sim_ooo/sim_list.hh:138-151 | Returns the oldest and gives its entry back, the dealloc assertion holding |
| PooledList.SimList.Erase | sim_ooo/sim_list.hh:201-216 | Removes the entry under the iterator and returns the one after it |
| PooledList.SimList.EraseWhere | sim_ooo/ooo_core.cc:1032-1053 | Erasing while walking meets every element exactly once in push order and keeps the order of the rest |
| PooledList.SimList.Clear | sim_ooo/sim_list.hh:89-98 | Every entry is free again |
| Ring.SimQueue.Push | sim_ooo/sim_queue.hh:20-25 | Appends, into a slot that was empty |
| Ring.SimQueue.Pop | sim_ooo/sim_queue.hh:26-31 | Returns and removes the oldest, emptying its slot |
| Ring.SimQueue.PeekNextPop | sim_ooo/sim_queue.hh:96-99 | Null exactly when fewer than two are queued, for length two or more; with length one it is the head |
| Ring.SimQueue.Empty | sim_ooo/sim_queue.hh:54-56 | Equal indices mean exactly no entries |
| Ring.SimQueue.Full | sim_ooo/sim_queue.hh:57-61 | Equal slots of different indices mean exactly len entries |
| Ring.SimQueue.Size | sim_ooo/sim_queue.hh:62-64 | Right if and only if the write index is past the read index |
| Ring.SimQueue.Clear | sim_ooo/sim_queue.hh:80-83 | Empties every slot |
| Ring.SimQueue.TraverseAndApply | sim_ooo/sim_queue.hh:65-79 | Applies the function to each entry once, youngest to oldest, wherever the indices wrap, first to one empty slot unless the ring is full; returns how often it said yes and leaves every slot empty |
| Ring.SlotsDiffer | sim_ooo/sim_queue.hh:20-35 | Entries fewer than len apart never share a slot, wherever the indices wrap |
| BitVec.SimBitvec.SetBit | sim_ooo/sim_bitvec.hh:101-111 | Sets one index and no other, refusing an index past the end |
| BitVec.SimBitvec.ClearBit | sim_ooo/sim_bitvec.hh:112-117 | Clears one index and no other |
| BitVec.SimBitvec.GetBit | sim_ooo/sim_bitvec.hh:78-82 | Shifting and masking a word reads the indexed bit |
| BitVec.SimBitvec.Popcount | sim_ooo/sim_bitvec.hh:118-129 | Counts the set indices, and gives up exactly when the last word is not full |
| BitVec.SimBitvec.FindFirstUnset | sim_ooo/sim_bitvec.hh:165-180 | The least unset index below the length or -1, also when the length is no multiple of the word |
| BitVec.SimBitvec.FindFirstUnsetRr | sim_ooo/sim_bitvec.hh:133-141 | The first unset index from the last bit on, -1 if and only if all are set |
| BitVec.SimBitvec.ShiftLeft | sim_ooo/sim_bitvec.hh:213-221 | The in-place loop multiplies the multi-word number by 2^amt modulo 2^(all bits) |
| BitVec.ShiftedValue | sim_ooo/sim_bitvec.hh:213-221 | Word shifts with carries or-ed in multiply the number, up to what leaves the top word |
| BitVec.OrAdds | sim_ooo/sim_bitvec.hh:213-221 | Or-ing a carry into the emptied low places adds it |
| LoopPredictor.LoopLearning | sim_ooo/loop_predictor.cc:24-85 | With any other branches between that do not share the slot, a loop of k taken and one not taken is locked with limit k after its first period and every later prediction is right |
| LoopPredictor.LoopLearningExact | sim_ooo/loop_predictor.cc:24-85 | A loop is learned if and only if its trip count is at least 1 and below 2^32 and training started from a zero count |
| LoopPredictor.StaleCountReached | sim_ooo/loop_predictor.cc:42-85 | Taken, taken, not taken, not taken on a cleared table leaves an invalid entry with a count of 2, from which no trip count is learned |
| LoopPredictor.LockKeptExactly | sim_ooo/loop_predictor.cc:69-81 | A locked entry of the branch is locked after its next visit if and only if it predicted the outcome; otherwise it is invalid |
| LoopPredictor.PredictedExactly | sim_ooo/loop_predictor.cc:24-39 | A locked entry predicts not taken if and only if its count is its limit, and the count then starts again at 0 |
| LoopPredictor.ChangedLoopUnlocks | sim_ooo/loop_predictor.cc:24-85 | A loop that takes a different number of turns loses its lock in the first period that differs, at the early exit or the missing one, and keeps it if and only if the number is the one learned |
| LoopPredictor.SlotsShared | sim_ooo/loop_predictor.cc:42-43 | Two branches share an entry if and only if they are a multiple of the table's size in words apart |
| LoopPredictor.SlotsApart | sim_ooo/loop_predictor.cc:42-50 | A slot of the table evolves by the branches that map to it alone |
| LoopPredictor.Predictor.Predict | sim_ooo/loop_predictor.cc:24-39 | Predicts and moves on the count of one entry |
| LoopPredictor.Predictor.Update | sim_ooo/loop_predictor.cc:42-85 | The state machine of one entry, clearing it first for a new branch |
| LoopPredictor.Predictor.Serve | sim_ooo/loop_predictor.cc:24-85 | Serving a trace, each prediction followed by its update, is the table's run function |

## Left out

- Monitor and system-call ops, ELF and checkpoint loading, logging, pipeline pictures, disassembly, options and signals: input and output.
- Cooperative threads: each stage's work on one op is one atomic step, taken in any order; a nuke takes effect in one step, although in the source it spans cycles in which the other stages stand still.
- Cycle-accurate bandwidths, port limits, reservation-station capacities and op latencies of the back end: any op that is ready may execute and any issued op may complete at any time. Exact timing is proved for memory ops only.
- stall_for_load, alloc_blocked, fetch_blocked and the store table: they only delay steps that may be taken at any time here.
- The decode queue is merged with the fetch queue, and neither is bounded.
- Branch predictors and the return stack are arbitrary answers; the loop predictor is modelled by itself.
- Reorder-buffer entries are values named by their allocation numbers instead of pointers; the load table holds those numbers. The four register files lie side by side in one numbering.
- Values computed by integer, multiply, divide and floating-point units are arbitrary functions of the operands. swl and swr as stores, madd, traps, division by zero and I-type ops that name register 0 are not modelled.
- MachineState.SimState.constructor: at reset every architectural register holds the interpreter's value, lo and hi included; the source leaves its copies of lo and hi unset until they are first written.
- Memory is a total map of bytes, and stores do not change instructions; sparse_mem is not part of this model.
- Oracle fetch. That a failed comparison stops the simulation: in `CrossCheck` the core goes on and the checker stays failed.
- The indexed loads lwxc1 and ldxc1: the load op has code for them, but the core's decoder never makes one and stops on their opcode (sim_ooo/mips_op.cc:4213-4237).
- TreeLru.LowAssocSet.Access: models one set; the hit and miss counters, the latency and the call to the next level on a miss are those of CacheChain.
- CacheChain.EveryLevelReuse: for chains in which no level's lines are shorter than those above it, which is what CacheChain.LinesNest shows to be needed; for others CacheChain.LevelsCompose and CacheChain.LevelReuseDistance speak of the addresses passed down.
- MachineState.SimState.AllocateOp: a full store table or reservation station also makes the source's allocation wait; here that is a step not taken.
- MachineState.SimState: its reorder buffer is a sequence; `MachineState.DecideFromRing` reads the ring, whose push, pop and clear are appending, dropping the first and emptying that sequence.
- CacheSets.CacheSet.Access: the set's private hit and miss counts, which nothing reads, are left out. Of a set that has dropped its only entry nothing more is said: what its list holds then depends on whether the allocator hands the freed entry out again.
- InFlight.ExactTiming: completion of ops that do not go through the cache is one unconstrained step.
- InFlight.FlightList.Request: cycle numbers are unbounded.
- MemoryTiming.CoreTiming: the latency of an access is any number; that of the levels is CacheChain's. Without a first cache level the source completes a load after a fixed latency instead.
- BitVec.SimBitvec.Popcount: hashing, comparison, the pair search and the search for set bits are left out.
- Other cache variants, gshare, bimodal and perceptron predictors, TAGE stubs, IPC and other statistics: they add only easy members.
- Liveness.ProgressExact: that some schedule makes progress; which one the simulator's scheduler follows is not modelled.
