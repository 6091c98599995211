# A verified model of Ramulator's memory system and of the pointer-chase benchmark

The simulator in this repository rests on data structures that have to agree with something simpler: timing
registers with the history of issued commands, row states with what was opened, miss registers with locked lines,
tag pools with requests under way. This project models them in Dafny and proves that they agree, on every run.

`dafny verify dfyconfig.toml` checks everything.

- **Timing tree** (`timing_history`, `timing_windows`, `dram_tree`, `serving_counters`): for any tree and any timing
  table, the check along one path accepts exactly what a checker over the full history accepts.
- **DDR4** (`ddr4_table`, `ddr4_state`, `ddr4_channel`, `ddr4_spacing`, `ddr4_progress`, `ddr4_service`): rows are safe
  on every run, the spacings of the table and the activation windows hold (those of GDDR5 too), every request gets
  prepared in a few commands, and a read that keeps being picked is served in bounded time.
- **DSARP** (`dsarp_state`, `dsarp_channel`, `dsarp_service`): banks and subarrays agree on what is open, on every run,
  and every request gets prepared in a few commands.
- **Controller** (`controller_queues`, `controller_steps`, `controller_service`, `controller`): conservation,
  read-after-write order, where each read's answer comes from, reads in turn and writes on time, and the counters of
  requests in service at every node.
- **Cache hierarchy** (`cache_address`, `cache_lines`, `cache_level`, `cache_tree`, `cache_unlock`, `cache_effects`,
  `cache_chain`, `cache_system`, `cache_refused`, `cache_lru`): inclusion, lock order, miss registers, no lost store,
  who answers an access, and the LRU stack theorem.
- **Memory cube** (`hmc_address`, `hmc_pages`, `hmc_stages`, `hmc_moves`, `hmc_tags`, `hmc_system`, `hmc_memory`,
  `hmc_runs`, `hmc_times`, `hmc_losses`): exactly-once responses on time, tags, crossbar, pages and the address map.
- **Pointer chase** (`ptr_chase`, `ptr_orders`): the generated links are one cycle through all lines, in any order up to
  a length that is known exactly.
- `bit_arithmetic` and `places` are shared: shifts as arithmetic, and lists of ids that partition a set of requests.

Schedulers and row policies are inputs: a pick is any position, or none, and whether its command is ready and the last
one comes from outside. Random values are inputs. A list iterator of the caches is the identity of a list node. The page
table takes the core id as its mark of an assigned page; every caller passes a core's own id, never -1, and
`HmcPages.PageTable.Translate` keeps its invariant under just that condition.

## Findings

Where the code and what it promises part, the members named give the exact condition.

- The linking loop makes one cycle exactly when there are at least three positions. With two, position 1 is linked to
  itself (`PtrChase.WalkGenerator`, `PtrChase.TwoPositions`).
- The shuffle can produce every order exactly up to 46409 shuffled elements: beyond, the division by which an offset is
  drawn no longer reaches every offset, 46410 being the first number of which it misses some. The default of 5000 lines
  is well below (`PtrOrders.SpansUpTo`, `PtrOrders.OrdersDrawn`).
- The result of the access sent on to the lower cache is ignored. Inclusion holds afterwards exactly when every cache of
  the chain accepts; a run in which one does not is `CacheRefused.RefusedBelow`.
- A request that the link of the cube has no space for loses its tag, and nothing brings it back: as configured, sixteen
  reads waiting at a link and then a write (`HmcRuns.StepKeeps`, `HmcLosses.LosesTag`). The loss is bounded. A link
  keeps at least 32 less the payload of its tags on every run, which some run reaches; so it can lose a tag exactly when
  it has more tags than that, and all of them exactly when a write never fits into its buffer (`HmcLosses.LossBound`,
  `HmcLosses.WhenLost`). The payload is 16 flits in the shipped configuration and 4 by default, so there a link never
  starves.
- Physical pages are distinct exactly as long as no page is asked for when none is left (`HmcPages.PageTable.Translate`).
- With read latency zero a read can be taken for a forwarded one and stay counted as being served, whatever the size of
  the queues; with one of at least one cycle it cannot. No standard in this repository has read latency zero, DDR4 for
  one takes the sum of its column latency and burst length (`Controller.LeftOver`, `ControllerSteps.CountedAreServed`).
- A cache whose size is below one full set (`block_size * assoc`) passes the assertions of its constructor, has no set,
  and its index mask wraps to all ones (`CacheAddress.MakeGeometry`).
- With write latency zero a write is called back in the cycle after its WR, not in the same one, since it joins its list
  after the call backs of the cycle (`ControllerQueues.CalledBackOnce`).
- `Cache::invalidate` reads the dirty bit of a line after erasing it. The model reads it before, as is meant.
- DSARP defines entering power-down twice, and the second definition replaces the first. They agree on every reachable
  state (`DsarpState.PowerDownAgrees`).

## Model

| member | source | states |
|---|---|---|
| TimingHistory.EarliestIsNaive | simulator-source/ramulator/ramulator/DRAM.h:354-408 | the earliest clock that a node keeps for a command is at most `clk` exactly when every rule of the table, read over the whole history of issues to the node and to its siblings, allows the command at `clk` |
| TimingHistory.IssuesSorted | simulator-source/ramulator/ramulator/DRAM.h:371-376 | on a chronological run the kept issue times of a node are in order, none later than the last event |
| TimingHistory.WindowPush | simulator-source/ramulator/ramulator/DRAM.h:371-376 | pushing the newest issue in front of a window of the `d` most recent ones and dropping the oldest gives the window of the longer list of issues |
| TimingHistory.OwnStep | simulator-source/ramulator/ramulator/DRAM.h:378-386 | one more issue to the node itself keeps the earliest clock and the history rules equivalent, in both directions |
| TimingHistory.SiblingStep | simulator-source/ramulator/ramulator/DRAM.h:357-369 | one more issue to a sibling keeps the earliest clock and the history rules equivalent, in both directions |
| DramTree.Dram.constructor | simulator-source/ramulator/ramulator/DRAM.h:190-230 | a new tree has the fan-out of the organisation, every node in its start state, and timing registers that agree with the empty history |
| DramTree.Dram.UpdateTiming | simulator-source/ramulator/ramulator/DRAM.h:354-408 | issuing a command makes the registers of every node of the tree agree with the history that ends in that command, targets and siblings alike, and changes nothing but those registers |
| DramTree.Dram.CheckIsNaive | simulator-source/ramulator/ramulator/DRAM.h:268-280 | for any tree, table and run, the walk down the path accepts a command exactly when every rule of every node on the path, down to the scope of the command, allows it over the full history |
| DramTree.Dram.ReadyFromPathNext | simulator-source/ramulator/ramulator/DRAM.h:268-280 | from the last issue on, `check` holds exactly from the largest register on the path on |
| DramTree.Dram.GetNext | simulator-source/ramulator/ramulator/DRAM.h:315-324 | the loop down the path returns that largest register, so `check` holds exactly when it is at most the clock |
| DramTree.Dram.UpdateServingRequests | simulator-source/ramulator/ramulator/DRAM.h:410-449 | a change counts at every node of the address down to the one below the bank and nowhere else; each of these counters becomes the counter of the longer list of changes |
| ServingCounters.CountersAreSums | simulator-source/ramulator/ramulator/DRAM.h:413-434 | at every change, the two accumulated statistics are the sums over all cycles so far of the number being served and of whether any is, and the running count is the number of starts minus ends, never negative |
| TimingWindows.WindowBound | simulator-source/ramulator/ramulator/DRAM.h:371-386 | on every run of accepted commands a rule from a command to itself, `dist` back with value `val`, lets at most `dist` issues of it fall in any `val` cycles at that node |
| TimingWindows.LegalIsSpaced | simulator-source/ramulator/ramulator/DRAM.h:378-386 | such a run has every issue at least `val` after the one `dist` before it |
| TimingWindows.RuleKeepsApart | simulator-source/ramulator/ramulator/DRAM.h:354-408 | on every run of accepted commands, any rule of distance one, to the node itself or to its siblings, keeps every two issues of its commands at least its value apart |
| Ddr4Table.Table | simulator-source/ramulator/ramulator/DDR4.cc:247-402 | the DDR4 table is well formed for every speed entry: each level and command has its row, all distances are positive and sibling rules look one issue back |
| Ddr4State.UpdateState | simulator-source/ramulator/ramulator/DRAM.h:328-349 | a command changes the state of every node of the tree as a closed form over its path says, and no other node |
| Ddr4State.Lambda | simulator-source/ramulator/ramulator/DDR4.cc:206-244 | the state change at one node, including PREA closing all banks of all groups by its nested loops |
| Ddr4State.AnyOpenIsOpenBank | simulator-source/ramulator/ramulator/DDR4.cc:229-237 | the search of PDE through the groups finds an open bank exactly when some bank of the rank, wherever it is in the tree, is not closed |
| Ddr4Channel.DecodeColumn | simulator-source/ramulator/ramulator/DDR4.cc:118-141 | which command a read or write yields, by the states of its rank and bank alone: PDX, SRX, ACT, PRE or the column command itself |
| Ddr4Channel.DecodeRank | simulator-source/ramulator/ramulator/DDR4.cc:143-172 | which command a refresh or a power-down request yields: PREA as long as any bank is open, and so on |
| Ddr4Channel.RowSafety | simulator-source/ramulator/ramulator/DDR4.cc:129-151 | in every state with the row invariant, a decoded RD or WR finds its own row open and no other, ACT goes to a closed bank, and REF only to a rank whose banks are all closed |
| Ddr4Channel.Issue | simulator-source/ramulator/ramulator/Controller.h:868-897 | issuing any decoded and ready command keeps the whole invariant of a run: one open row per opened bank, registers that agree with the history, and a history without violated rules |
| Ddr4Channel.NewChannel | simulator-source/ramulator/ramulator/DRAM.h:190-230 | a new DDR4 channel satisfies that invariant with the empty history |
| Ddr4Channel.FourActivateWindow | simulator-source/ramulator/ramulator/DDR4.cc:321-322 | no run has more than four activates of a rank in any `nFAW` cycles |
| Ddr4Channel.Gddr5Windows | simulator-source/ramulator/ramulator/GDDR5.cc:288-291 | under the activate row of GDDR5, no run has more than four activates of a rank in any `nFAW` cycles or more than thirty-two in any `n32AW` |
| Ddr4Spacing.BankSpacing | simulator-source/ramulator/ramulator/DDR4.cc:383-402 | on every run and in each bank: ACT to RD or WR takes `nRCD`, ACT to PRE `nRAS`, PRE to ACT `nRP`, ACT to ACT `nRC`, and RD and WR are given their time before PRE |
| Ddr4Spacing.ChannelSpacing | simulator-source/ramulator/ramulator/DDR4.cc:252-263 | on every run, two reads or two writes of the channel are `nBL` apart |
| Ddr4Spacing.GroupSpacing | simulator-source/ramulator/ramulator/DDR4.cc:364-381 | on every run, within a bank group activates are `nRRDL`, and column commands `nCCDL` apart |
| Ddr4Spacing.RankSpacing | simulator-source/ramulator/ramulator/DDR4.cc:266-362 | on every run, the short spacings within a rank, the turns of the bus within and between ranks, precharge to refresh, refresh to activate, and the times in and after the power states |
| Ddr4Progress.DecodeMeaning | simulator-source/ramulator/ramulator/DDR4.cc:118-172 | a request decodes to itself exactly when rank and banks already are as it needs them, and otherwise to a command that prepares it |
| Ddr4Progress.Prepare | simulator-source/ramulator/ramulator/DDR4.cc:118-244 | issuing what a request decodes to leads to the request itself, found safe, after at most three commands for a read or write (PDX or SRX, PRE, ACT), one PREA for REF, one SRX for PDE and one PDX for SRE |
| Ddr4Progress.Sleep | simulator-source/ramulator/ramulator/DDR4.cc:229-244 | after PDE or SRE a read or write of the rank decodes to PDX or SRX; power-down is active exactly when a bank was open |
| Ddr4Service.MissingDrops | simulator-source/ramulator/ramulator/DDR4.cc:118-141 | each command decoded for a read leaves exactly one preparatory command less to be issued |
| Ddr4Service.PathNextBounded | simulator-source/ramulator/ramulator/DRAM.h:315-324 | no register is more than the largest timing value after the last issue |
| Ddr4Service.Serve | simulator-source/ramulator/ramulator/Controller.h:669-733 | from any reachable state a read that alone is picked issues after at most three other commands, each one of PDX, SRX, PRE and ACT, within four times the largest timing value |
| DsarpState.NestedAfter | simulator-source/ramulator/ramulator/DSARP.cc:232-312 | every command but those with automatic precharge keeps a bank and its subarrays in agreement, provided ACT goes to closed banks |
| DsarpState.PowerDownAgrees | simulator-source/ramulator/ramulator/DSARP.cc:246-312 | the two definitions of entering power-down in that file agree on every reachable state: a rank has an open bank exactly when it has an open subarray |
| DsarpState.Lambda | simulator-source/ramulator/ramulator/DSARP.cc:232-312 | the state change at one node, including PRE and PREA closing the subarrays by their loops |
| DsarpState.UpdateState | simulator-source/ramulator/ramulator/DRAM.h:328-349 | a command changes every node of a DSARP tree as the closed form over its path says, and no other |
| DsarpChannel.NestedAgreement | simulator-source/ramulator/ramulator/DSARP.cc:154-180 | a bank is opened exactly when just one of its subarrays is, that one has exactly one open row, and the open keys of the bank name exactly that subarray |
| DsarpChannel.DecodeColumn | simulator-source/ramulator/ramulator/DSARP.cc:141-180 | which command a read or write yields, by rank, bank and subarray; the case of a named but closed subarray does not occur |
| DsarpChannel.DecodeRefreshBank | simulator-source/ramulator/ramulator/DSARP.cc:177-180 | a per-bank refresh yields PRE for an open bank and REFPB for a closed one |
| DsarpChannel.NestedSafety | simulator-source/ramulator/ramulator/DSARP.cc:129-201 | every issuable command is safe: a column command finds its own row open and no other in its bank, ACT a bank closed with all its subarrays, and REFPB a closed bank, so that its assertion never fires |
| DsarpChannel.Issue | simulator-source/ramulator/ramulator/DSARP.cc:232-312 | whatever issuable command is issued, every bank of the channel and its subarrays agree again afterwards |
| DsarpChannel.NewChannel | simulator-source/ramulator/ramulator/DRAM.h:190-230 | they agree in a new channel |
| DsarpService.DecodeMeaning | simulator-source/ramulator/ramulator/DSARP.cc:129-201 | a request decodes to itself exactly when rank, bank and subarray are as it needs them, and otherwise to a command that prepares it |
| DsarpService.MissingDrops | simulator-source/ramulator/ramulator/DSARP.cc:232-312 | each command decoded for a read or write leaves one preparatory command less to be issued |
| DsarpService.Prepare | simulator-source/ramulator/ramulator/DSARP.cc:129-312 | issuing what a request decodes to leads to the request itself: a read or write finds its row open after at most three commands (PDX or SRX, PRE, ACT), REFPB its bank closed after at most one PRE, REF all banks of the rank after at most one PREA, SRE after at most one PDX, and PDE after at most one SRX |
| DsarpService.Sleep | simulator-source/ramulator/ramulator/DSARP.cc:246-312 | after PDE or SRE a read or write of the rank decodes to PDX or SRX; power-down is active exactly when a bank was open |
| ControllerQueues.CalledBackOnce | simulator-source/ramulator/ramulator/Controller.h:592-652 | on every run a request is called back at most once, exactly when it is completed, never before its departure; a write exactly its latency after its WR if the latency is at least one, and one cycle after it otherwise |
| ControllerQueues.LatencyTellsForwarding | simulator-source/ramulator/ramulator/Controller.h:627-631 | the test of the latency is false for every forwarded read, and true for a read from a row except when the read latency is zero and it was issued in the cycle after its arrival |
| ControllerQueues.AnswerSource | simulator-source/ramulator/ramulator/Controller.h:592-613 | on every run a read that is pending or completed issued no command exactly when a write of its address accepted before it was still queued when it arrived; no queued read has such a write |
| ControllerQueues.ReadsInTurn | simulator-source/ramulator/ramulator/Controller.h:615-641 | on every run reads are called back one a cycle, in the order in which they became pending, each in the first cycle that is neither before its departure nor taken by the read before it |
| ControllerSteps.EnqueueReadsFirst | simulator-source/ramulator/ramulator/Controller.h:592-613 | after any accepted request, a queued read that shares its address with a queued write was accepted before it |
| ControllerSteps.EnqueueInv | simulator-source/ramulator/ramulator/Controller.h:592-613 | accepting a request keeps it, every other request and the order of reads and writes accounted for |
| ControllerSteps.WritesTick | simulator-source/ramulator/ramulator/Controller.h:643-652 | at most the first pending write is due in a cycle, and it is due exactly then: the others leave one per cycle, each its latency after its issue |
| ControllerSteps.FrontInv | simulator-source/ramulator/ramulator/Controller.h:615-652 | the call backs of a cycle keep the whole invariant |
| ControllerSteps.ServeInv | simulator-source/ramulator/ramulator/Controller.h:669-752 | serving any picked request, finished or not, keeps the whole invariant |
| ControllerSteps.CountedAreServed | simulator-source/ramulator/ramulator/Controller.h:694-748 | with a read latency of at least one, the requests counted as being served are exactly those on whose behalf a command was issued and that are not finished |
| ControllerService.NodeCounts | simulator-source/ramulator/ramulator/DRAM.h:410-449 | at every node down to the one below the bank the running count is the number of accepted requests being served through it, and the accumulated statistics are the per-cycle sums |
| Controller.MemoryController.constructor | simulator-source/ramulator/ramulator/Controller.h:592-613 | a new controller satisfies the invariant, with nothing accepted |
| Controller.MemoryController.Enqueue | simulator-source/ramulator/ramulator/Controller.h:592-613 | accepted exactly when the queue of its kind is not full; a read of an address that is queued for writing is pending at once, and every other request joins its queue |
| Controller.MemoryController.CallBack | simulator-source/ramulator/ramulator/Controller.h:615-652 | the clock advances and at most the oldest pending read and the oldest pending write are called back, if due |
| Controller.MemoryController.IssueFor | simulator-source/ramulator/ramulator/Controller.h:669-752 | the picked request is counted when its first command issues and, when it is finished, leaves its queue for its pending list with its departure |
| Controller.LeftOver | simulator-source/ramulator/ramulator/Controller.h:627-631 | with read latency zero that fails, for queues of any size: a run of a new controller through its own operations completes a read that stays counted in the tree |
| Controller.MemoryController.CountFor | simulator-source/ramulator/ramulator/Controller.h:694-748 | a request is counted in with its first command, and a write out with its last |
| Controller.MemoryController.Tick | simulator-source/ramulator/ramulator/Controller.h:615-752 | one cycle keeps every invariant, whatever the scheduler picks: each accepted request is in one place, on time, and counted at the nodes of its address; the write mode turns exactly at its two marks or when no read is queued, only the queue of that mode is served, and the oldest pending read is called back if it is due |
| CacheAddress.Geometry.AlignIsIndexAndTag | simulator-source/ramulator/ramulator/Cache.h:94-105 | two addresses have the same line address exactly when they have the same set index and tag |
| CacheAddress.MakeGeometry | simulator-source/ramulator/ramulator/Cache.cc:37-47 | for all powers of two: the sets hold the whole size, and the 32-bit mask is the one the tag offset goes with, exactly when the size is at least one full set; below that the mask is all ones |
| BitArithmetic.CalcLog2 | simulator-source/ramulator/ramulator/Cache.h:87-92 | the shift loop finds the exponent of the largest power of two not above a positive value |
| CacheLines.MoveEdits | simulator-source/ramulator/ramulator/Cache.cc:119-124 | pushing a fresh copy and erasing the old line changes what is found under its tag only, and loses no locked line |
| CacheLevel.MshrIffLocked | simulator-source/ramulator/ramulator/Cache.h:175-184 | a block has a miss register exactly when its line is present and locked |
| CacheLevel.Pointee | simulator-source/ramulator/ramulator/Cache.cc:150-156 | the iterator of a miss register is live, and points to the line that its tag finds |
| CacheLevel.InsertOk | simulator-source/ramulator/ramulator/Cache.cc:172-181 | a new locked line with its register keeps tags unique, sets and registers within their limits, and registers and locked lines one to one |
| CacheLevel.CompletedOk | simulator-source/ramulator/ramulator/Cache.cc:365-377 | a completion releases the register and unlocks the line of its block and changes nothing else |
| CacheTree.EvictedPairs | simulator-source/ramulator/ramulator/Cache.cc:255-297 | evicting a block unlocked from its cache up keeps inclusion and lock order everywhere |
| CacheTree.EvictedAccounted | simulator-source/ramulator/ramulator/Cache.cc:255-297 | and loses no store: a block is dirty somewhere in its tree exactly when it was stored to since the last write of it put on the wait list |
| CacheUnlock.CheckUnlockMeaning | simulator-source/ramulator/ramulator/Cache.h:150-173 | the recursive check succeeds exactly when no cache from here up, in any branch, holds the block locked |
| CacheUnlock.VictimUnlocked | simulator-source/ramulator/ramulator/Cache.cc:305-321 | the line that the search picks is unlocked in its cache and in every cache above |
| CacheUnlock.FindVictim | simulator-source/ramulator/ramulator/Cache.cc:305-321 | the least recently used line that may be evicted; none before it may |
| CacheChain.RoomMeaning | simulator-source/ramulator/ramulator/Cache.cc:299-330 | a block gets a line exactly when its set is not full or holds some block that no cache from here up has locked |
| CacheChain.ChainSame | simulator-source/ramulator/ramulator/Cache.cc:182-188 | an eviction and a new line in an upper cache do not change whether the caches below take the miss, nor how it is answered |
| CacheChain.WhoAnswers | simulator-source/ramulator/ramulator/Cache.cc:103-195 | for any wiring, the cache that decides an access is the first one on the way down that does not take it as a miss and send it on; the access is answered, awaited, refused or missed exactly as that cache hits, merges, refuses or is the last |
| CacheChain.RefusedMeaning | simulator-source/ramulator/ramulator/Cache.cc:139-192 | the whole chain accepts exactly when no cache on the way refuses |
| CacheSystems.CacheSystem.constructor | simulator-source/ramulator/ramulator/Cache.cc:20-47 | a new hierarchy satisfies the invariant and is empty |
| CacheSystems.CacheSystem.Send | simulator-source/ramulator/ramulator/Cache.cc:103-195 | an access is accepted exactly when it hits, merges, or finds a register and room; an accepted one keeps inclusion and lock order exactly when every cache of the chain below accepts; it is answered once: by the hit list exactly when the cache that decides hits, by one read on the wait list exactly when none does and all accept, and by neither otherwise, all told from the state before; the other additions to the wait list are write-backs that were owed; stores are accounted for in every case |
| CacheSystems.CacheSystem.Miss | simulator-source/ramulator/ramulator/Cache.cc:139-192 | a miss is accepted exactly when there is a register and room, leaves no hole below exactly when it is the last level or the caches below accept, and is answered by that same rule |
| CacheSystems.CacheSystem.EvictLine | simulator-source/ramulator/ramulator/Cache.cc:197-211 | the line is there (the assertions never fire) and becomes most recently used, dirty if either copy was |
| CacheSystems.CacheSystem.Invalidate | simulator-source/ramulator/ramulator/Cache.cc:213-252 | the block leaves this cache and all above, unlocked in each, and the result tells whether any copy was dirty |
| CacheSystems.CacheSystem.Evict | simulator-source/ramulator/ramulator/Cache.cc:255-297 | the victim and its copies above are gone, and the cache below, or memory, has their dirtiness |
| CacheSystems.CacheSystem.MakeRoom | simulator-source/ramulator/ramulator/Cache.cc:299-321 | it succeeds exactly when there is room; no other block is touched, and the caches below decide as before |
| CacheSystems.CacheSystem.Callback | simulator-source/ramulator/ramulator/Cache.cc:365-383 | the block is unlocked here and in all caches above, and the invariant holds again |
| CacheRefused.RefusedBelow | simulator-source/ramulator/ramulator/Cache.cc:182-188 | a run from an empty hierarchy in which a refused lower access breaks inclusion |
| CacheLru.PresentIff | simulator-source/ramulator/ramulator/Cache.cc:119-124 | a tag is in its set exactly when it was touched before and fewer than `assoc` distinct others were touched since |
| CacheLru.TouchPresent | simulator-source/ramulator/ramulator/Cache.cc:119-124 | a hit keeps every tag followed by just those touched since it |
| CacheLru.TouchAbsent | simulator-source/ramulator/ramulator/Cache.cc:299-330 | and so does a miss, which drops the first tag of a full set |
| CacheLru.Access | simulator-source/ramulator/ramulator/Cache.cc:103-195 | one access to such a cache hits exactly by that rule, and keeps it |
| CacheLru.Replay | simulator-source/ramulator/ramulator/Cache.cc:103-195 | over any request sequence on an empty cache whose fills return at once, request `k` hits exactly when its block was touched before and fewer than `assoc` distinct others of its set since |
| PtrChase.PickInRange | benchmarks/ptr_chase/arraygen.c:76 | the index drawn by the integer division is in range for every value of `rand` |
| PtrChase.Shuffle | benchmarks/ptr_chase/arraygen.c:68-81 | the loop in place computes the Fisher-Yates shuffle of the drawn values |
| PtrChase.ShufflePermutes | benchmarks/ptr_chase/arraygen.c:68-81 | that shuffle is a permutation, for all values drawn |
| PtrOrders.OffsetsDrawn | benchmarks/ptr_chase/arraygen.c:76 | every one of `m` offsets can be drawn exactly when the division reaches the last one |
| PtrOrders.SpansUpTo | benchmarks/ptr_chase/arraygen.c:76 | that holds for all `m` up to `n` exactly when `n` is at most 46409 |
| PtrOrders.ReachesFrom | benchmarks/ptr_chase/arraygen.c:68-81 | the shuffle ends with any wanted rearrangement when it is given the values computed for it |
| PtrOrders.Rearrange | benchmarks/ptr_chase/arraygen.c:68-81 | for any rearrangement of up to 46409 elements there are random values with which the loop in place ends with it |
| PtrOrders.OrdersDrawn | benchmarks/ptr_chase/arraygen.c:68-81 | every order of distinct elements can be drawn exactly when there are at most 46409 |
| PtrChase.Link | benchmarks/ptr_chase/arraygen.c:93-100 | the linking loop, whose position is a 32-bit integer, makes each position follow the one before it in the shuffled order, and the last one position 0, from three positions on |
| PtrChase.WalkGenerator | benchmarks/ptr_chase/arraygen.c:83-106 | the links are one cycle through all positions, whatever is drawn, exactly when there are at least three positions |
| PtrChase.TwoPositions | benchmarks/ptr_chase/arraygen.c:93-100 | with two positions the walk never returns to position 0 |
| PtrChase.AnyWindow | benchmarks/ptr_chase/ptr_chase.c:112-126 | any `n` consecutive steps of a cyclic walk visit every position, and none twice |
| PtrChase.OffsetIsWalk | benchmarks/ptr_chase/ptr_chase.c:115-121 | each load takes the register to the offset of the line that the walk along the links reaches next |
| PtrChase.Chase | benchmarks/ptr_chase/ptr_chase.c:112-126 | the loop of dependent loads makes `iters` times `unroll` of these loads |
| PtrChase.Benchmark | benchmarks/ptr_chase/ptr_chase.c:112-126 | generator and chase together: the last load leaves the register at the line that the walk along the generated links has reached |
| HmcAddress.Map.DecodeThenEncode | simulator-source/ramulator/ramulator/HMC_Memory.h:626-703 | under each addressing type a transaction address below the maximum is recovered from its coordinates, and they are in range |
| HmcAddress.Map.EncodeThenDecode | simulator-source/ramulator/ramulator/HMC_Memory.h:626-703 | every vector of coordinates in range is reached by such an address |
| HmcAddress.Map.SameCoordinates | simulator-source/ramulator/ramulator/HMC_Memory.h:626-703 | two addresses share their coordinates exactly when they are in the same transaction |
| HmcAddress.Map.Strides | simulator-source/ramulator/ramulator/HMC_Memory.h:626-703 | under each addressing type, how far apart the addresses are of two vectors that differ by one step in one coordinate: transactions go through the low part of the column first, blocks through the vaults, and then through bank, group and column in the order of the type |
| HmcAddress.AddressVector | simulator-source/ramulator/ramulator/HMC_Memory.h:626-703 | the sequence of slices that each addressing type takes computes that map |
| HmcPages.PageTable.constructor | simulator-source/ramulator/ramulator/HMC_Memory.h:166-180 | all pages are free, and their number is the count of remaining pages |
| HmcPages.PageTable.Probe | simulator-source/ramulator/ramulator/HMC_Memory.h:839-853 | the circular search ends at the first free page from its start, or back at its start when none is free |
| HmcPages.PageTable.Translate | simulator-source/ramulator/ramulator/HMC_Memory.h:815-861 | offsets are kept, old translations stay, a new page gets the first free one; translated pages stay apart exactly when they were and the page is old or a page was left, and the table stays valid exactly unless core -1 takes a free page |
| HmcPages.Pigeonhole | simulator-source/ramulator/ramulator/HMC_Memory.h:829-836 | no more virtual pages than physical ones can be kept apart |
| HmcSystem.AnsweredOnce | simulator-source/ramulator/ramulator/HMC_Memory.h:599-624 | no request is answered twice, it is answered exactly when its stage says so, and the answer carries its type, link and tag |
| HmcSystem.OnePlace | simulator-source/ramulator/ramulator/HMC_Controller.h:553-610 | a request that is listed in some queue or buffer was accepted and is listed in no other |
| HmcSystem.TagBalance | simulator-source/ramulator/ramulator/HMC_Memory.h:550-558 | free, lost and unanswered tags of a link add up to all of them, none is in the pool and under way, and no two unanswered requests share one |
| HmcSystem.TakeInv | simulator-source/ramulator/ramulator/HMC_Controller.h:553-610 | a vault that takes or refuses a packet keeps the invariant of the cube |
| HmcSystem.RespondInv | simulator-source/ramulator/ramulator/LogicLayer.cc:112-134 | so does a response that moves to its link |
| HmcSystem.DeliverInv | simulator-source/ramulator/ramulator/HMC_Memory.h:599-624 | and one that reaches the host |
| HmcSystem.TickInv | simulator-source/ramulator/ramulator/HMC_Controller.h:640-775 | and a cycle of a vault controller; the entry of the pending request is always found |
| HmcSystem.TickAnswers | simulator-source/ramulator/ramulator/HMC_Controller.h:612-638 | told from the vault before the cycle: exactly the oldest pending request is answered, if it is due, as its own request |
| HmcSystem.SendInv | simulator-source/ramulator/ramulator/HMC_Memory.h:746-772 | an accepted request starts with the first tag of its link |
| HmcSystem.LoseInv | simulator-source/ramulator/ramulator/HMC_Memory.h:746-772 | a request refused for lack of space takes a tag away |
| HmcMoves.VaultAnswer | simulator-source/ramulator/ramulator/HMC_Controller.h:612-638 | the look-up of the packet never fails, and its entry is erased |
| HmcMemory.Memory.AssignTag | simulator-source/ramulator/ramulator/HMC_Memory.h:550-558 | the first tag of the pool, or -1 |
| HmcMemory.Memory.Send | simulator-source/ramulator/ramulator/HMC_Memory.h:746-772 | accepted exactly when the link has a tag and space; without a tag nothing changes, and without space a tag is lost |
| HmcMemory.Memory.SwitchTick | simulator-source/ramulator/ramulator/LogicLayer.cc:79-134 | the two loops of the crossbar compute the routing below |
| HmcMemory.Memory.VaultTick | simulator-source/ramulator/ramulator/HMC_Controller.h:640-775 | a cycle of a vault keeps every request in one place and every tag accounted for, whatever is picked; its oldest pending request becomes a response exactly when its departure has come, no other does, and the rest keep their order |
| HmcMemory.Memory.LinkSend | simulator-source/ramulator/ramulator/LogicLayer.cc:13-31 | once it is its time, the first response of a link is answered and its tag returns |
| HmcMemory.OnePacketPerVault | simulator-source/ramulator/ramulator/LogicLayer.cc:82-104 | a vault takes at most one packet in a cycle |
| HmcMemory.LinkServed | simulator-source/ramulator/ramulator/LogicLayer.cc:82-104 | from the start of the cycle: a link is served exactly when the vault of its first packet would take it, and would take no first packet of an earlier link; otherwise it keeps all its packets |
| HmcMemory.OneResponsePerLink | simulator-source/ramulator/ramulator/LogicLayer.cc:112-134 | a link takes exactly one response if some vault offers one that fits, and otherwise none |
| HmcRuns.StepKeeps | simulator-source/ramulator/ramulator/HMC_Memory.h:746-772 | every step of the cube keeps the invariant, and a tag is lost exactly when a request finds a tag but no space |
| HmcRuns.LostForever | simulator-source/ramulator/ramulator/HMC_Memory.h:746-772 | on every run, what is lost stays lost |
| HmcRuns.TokensSuffice | simulator-source/ramulator/ramulator/LogicLayer.cc:13-31 | no response of any run is longer than a buffer, so the token test of a source-mode link, which starts with that many tokens and gives none away, always passes |
| HmcRuns.Perform | simulator-source/ramulator/ramulator/HMC_Memory.h:746-772 | one step of a cube through its own operations is the step of the run |
| HmcRuns.Drive | simulator-source/ramulator/ramulator/HMC_Memory.h:186-193 | a cube that takes the steps of a run from its construction on ends where the run ends |
| HmcTimes.AnsweredOnTime | simulator-source/ramulator/ramulator/HMC_Controller.h:612-638 | a request that was answered had been served just its bursts or been forwarded on arrival, and was answered in the first cycle of its vault that is after the answer before it and not before its departure: the latency of its own kind after its last burst, or one cycle after its arrival |
| HmcTimes.QueuedUntilServed | simulator-source/ramulator/ramulator/HMC_Controller.h:640-775 | a request is in a queue as long as it was served fewer than all its bursts; pending, it departs the latency of its own kind after the last one, or one cycle after its arrival if a queued write answered it |
| HmcTimes.TakeTimes | simulator-source/ramulator/ramulator/HMC_Controller.h:590-610 | a packet that a vault takes has all bursts to come, or is forwarded exactly when a write of its address is queued there |
| HmcTimes.FrontTimes | simulator-source/ramulator/ramulator/HMC_Controller.h:612-638 | the answer of a cycle is on time, and no due one is left waiting but for the one answer of the cycle |
| HmcTimes.ServeTimes | simulator-source/ramulator/ramulator/HMC_Controller.h:640-775 | a burst counts for the request that was picked, and the last one sets its departure |
| HmcTimes.RunTimely | simulator-source/ramulator/ramulator/HMC_Controller.h:612-775 | all that holds on every run of a cube from its construction on |
| HmcLosses.QueuedAreLive | simulator-source/ramulator/ramulator/LogicLayer.cc:82-104 | the packets that wait at a link are unanswered requests of it, each another one with a tag of its own |
| HmcLosses.LossBound | simulator-source/ramulator/ramulator/HMC_Memory.h:746-772 | on every run from a new cube a link loses at most its tags beyond 32 less the payload |
| HmcLosses.WorstLoss | simulator-source/ramulator/ramulator/HMC_Memory.h:746-772 | a run of reads and then writes loses that many |
| HmcLosses.WhenLost | simulator-source/ramulator/ramulator/HMC_Memory.h:746-772 | some run loses a tag of a link exactly when it has more tags than 32 less the payload, and some run loses all exactly when the payload is at least 32 |
| HmcLosses.Starved | simulator-source/ramulator/ramulator/HMC_Memory.h:550-558 | in that last case, after so many writes, a link accepts nothing at any later point of any run |
| HmcLosses.LosesTag | simulator-source/ramulator/ramulator/HMC_Memory.h:746-772 | in the shipped configuration, a cube that is sent sixteen reads and a write refuses the write and has lost one tag of the link |

## Left out

- The nodes' registers, the queues, the sets of a cache and the buffers of the cube are sequences and maps held in fields
  of the classes and reassigned, not arrays or linked nodes; aliasing between them is not captured.
- Refresh scheduling: a refresh reaches the controller as one more accepted request.
- Statistics other than `serving_requests`, `active_cycles` and the running count: refresh overlap and busy cycles are
  heuristic counters without an exact meaning. Power, energy, traces and printing.
- `CacheSystem::tick`, latencies of the caches and the memory's answers: `waitList` and `hitList` are the histories of what
  was ever appended, and a completion may come at any time.
- RDA and WRA: no request decodes to them. Row hits and row policies, `no_DRAM_latency` and `unlimit_bandwidth` modes.
- DSARP and GDDR5 timing tables beyond the activate row of GDDR5; the timing theorems hold for any table.
- The remaining standards (DDR3, LPDDR, HBM, ALDRAM and others) and the specialisations of the controller for them.
- Pass-through links, several stacks, the PIM mode and its network, and the untranslated address mode.
- HmcMemory.Memory.LinkSend: the clock of a link, from which a packet's flits give the time of its next one, is left out;
  a link sends whenever it is asked to. Its token test is left out since it always passes (`HmcRuns.TokensSuffice`).
- Overflow of clocks, counters and addresses, except for the position in the linking loop.
- `traffic_gen`, the experiment scripts, the DRAMSys benches and the performance counters.
- Ddr4Channel.Gddr5Windows: takes the activate row as the rank's row for ACT, since the rest of that table is not modelled.
