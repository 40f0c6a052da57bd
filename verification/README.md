# ChampSim/TryBest: a verified model

TryBest is a trace-driven simulator of caches and DRAM. This project models the parts of it whose correctness is not
visible from one function body, in the form the simulator gives them (objects updated in place, loops over queues,
ways and words), and proves what those parts are for. Every object is tied, method by method, to a function on
values; the theorems are about those functions over all inputs and all runs.

| file | what it models |
|---|---|
| `IntervalPacking.dfy`, `OptGen.dfy` | OPTgen's circular liveness vector: it refines an unbounded load function, and its hit count is Belady's optimum (an exchange argument over intervals ordered by end) |
| `DramModel.dfy`, `DramInvariant.dfy`, `DramLaws.dfy`, `DramRuns.dfy`, `DramProgress.dfy`, `DramController.dfy` | one DRAM channel: FR-FCFS scheduling, banks, data bus, write drain, mode switches, merging and forwarding of reads, the DDRP buffer. The laws say over the fields of two states what an operation does and when; from them follows that every accepted miss is answered |
| `Mshr.dfy`, `FirstMinimum.dfy` | the miss status registers and the "saved next event" scan they share with the DRAM queues |
| `SetAssociative.dfy` | the CAM-indexed set-associative cache, against a map |
| `Recency.dfy`, `RankLru.dfy`, `TimestampLru.dfy`, `PageBuffer.dfy`, `ThreeLrus.dfy` | three LRU implementations, one policy, and the stack-distance law |
| `FastSet.dfy` | the sorted-array/bitset hybrid, against a set |
| `Streaming.dfy`, `XxHash32.dfy`, `XxHash64.dfy`, `XxHashVectors.dfy` | streaming XXH32 and XXH64, against the one-shot digest and published digests |
| `DdrpMonitor.dfy` | the explore/exploit monitor and its hysteresis |
| `Perceptron.dfy` | the hashed perceptron and its mistake bound |
| `PatternTable.dfy` | the signature pattern table's counters |
| `Sequences.dfy`, `Division.dfy` | shared searches, counts and arithmetic |

Conventions. `Value()` of a class is its state as a datatype; a method promises `Value() == F(old(Value()))` for a
function `F`, and the lemmas are about `F`. Counters that can wrap in the source wrap here (`Dec`, `Bump`, `Due`,
`Elapsed`, `ResetOne`). Assertions of the modelled code appear as Dafny assertions in the methods, so they are proved
never to fire; where an assertion is about the caller it is a precondition. The published digests of the empty message,
with and without a seed, and of three sample texts (`XxHash64.dfy`, `XxHash32.dfy`, `XxHashVectors.dfy`) check the hash constants independently.
An invariant that quantifies over positions keeps its range test inside the named predicate.

Where the code and what it promises differ, the code is modelled:

* OPTgen's caller rejects a reuse only if its age is greater than the vector length
  (`replacement/hawkeye.llc_repl:207`). At an age of exactly the length both scans of `should_cache` are empty and the
  reuse counts as a hit whatever the capacity. `OptimalIffSlotMoreAgrees` and `CountNearOptimum` say when and by how
  much the count is off at a given cache size, and `FullLapOvercounts` gives a run for every size.
* `fastset::join` with a bitset takes over whole words only up to the one holding bit `n`. Its contract says exactly
  when that is the union, and `JoinBeyond` is a join where it is not. With `n` equal to 512 it would read past the last
  word, so `n` is below 512 here.
* `set_mru` of an absent key adds its tag to the CAM for way 0. The contract of `SetMru` says that the cache stays
  sound exactly if the key was present.
* The monitor asserts that no configuration took zero cycles. `AssertionHoldsIffClockMoves` says exactly when that is
  true in a run, and `AssertionCanFail` is a run where it is not.

## Model

| member | source | states |
|---|---|---|
| `IntervalPacking.GreedyIsOptimal` | ChampSim/TryBest/inc/optgen.h:85-118 | accepting an interval iff every quantum it covers is below capacity, in order of ends, keeps as many intervals as any choice that respects the capacity |
| `IntervalPacking.Exchange` | ChampSim/TryBest/inc/optgen.h:85-118 | a feasible choice agreeing with greedy so far can agree on one more interval without keeping fewer |
| `IntervalPacking.RejectedIsOut` | ChampSim/TryBest/inc/optgen.h:89-96 | what should_cache rejects, no feasible choice that agrees so far can keep |
| `HawkeyeOptGen.OptGen.constructor` | ChampSim/TryBest/inc/optgen.h:65-72 | an empty vector and zero counters |
| `HawkeyeOptGen.OptGen.AddAccess` | ChampSim/TryBest/inc/optgen.h:74-78 | one access more, and the current slot starts at zero |
| `HawkeyeOptGen.OptGen.AddPrefetch` | ChampSim/TryBest/inc/optgen.h:80-83 | the current slot starts at zero and nothing is counted |
| `HawkeyeOptGen.OptGen.Decide` | ChampSim/TryBest/inc/optgen.h:85-118 | should_cache: true iff every slot of the wrapped walk from last to curr was below capacity, then exactly those slots rise; both scans stop at curr |
| `HawkeyeOptGen.WalkIsFits` | ChampSim/TryBest/inc/optgen.h:89-99 | the circular scan answers what the unbounded load function answers |
| `HawkeyeOptGen.LoadBelowAge` | ChampSim/TryBest/inc/optgen.h:106-110 | the load of a quantum is below its age, so no live slot wraps |
| `HawkeyeOptGen.StepRefines` | ChampSim/TryBest/inc/optgen.h:74-118 | one quantum keeps the vector in step with the unbounded load |
| `HawkeyeOptGen.RunRefines` | ChampSim/TryBest/inc/optgen.h:74-118 | in every reachable state slot t mod N holds the number of accepted intervals covering t, for every t of the live window |
| `HawkeyeOptGen.LiveSlotsBounded` | ChampSim/TryBest/inc/optgen.h:92-110 | live slots never exceed the cache size |
| `HawkeyeOptGen.NumCacheIsOptimal` | ChampSim/TryBest/inc/optgen.h:85-126 | num_cache, which get_num_opt_hits returns, is the largest number of presented intervals that fit the capacity, plus the full-length reuses |
| `HawkeyeOptGen.SlotMoreIsOptimal` | ChampSim/TryBest/replacement/hawkeye.llc_repl:204-210 | with one slot more than the caller's window test allows for, num_cache is the optimum over all reuses the test lets through |
| `HawkeyeOptGen.OptimalIffSlotMoreAgrees` | ChampSim/TryBest/replacement/hawkeye.llc_repl:204-210 | at any one cache size num_cache is that optimum iff a vector one slot longer would give the same count |
| `HawkeyeOptGen.CountNearOptimum` | ChampSim/TryBest/replacement/hawkeye.llc_repl:204-210 | num_cache is never below that optimum, and above it by at most the number of full-length reuses |
| `HawkeyeOptGen.OptimalEverywhereIffNoFullLap` | ChampSim/TryBest/replacement/hawkeye.llc_repl:204-210 | over all cache sizes together: num_cache is the optimum at every one of them iff no reuse is exactly one vector length old |
| `HawkeyeOptGen.FullLapOvercounts` | ChampSim/TryBest/replacement/hawkeye.llc_repl:63-90 | for every cache size and every vector more than twice as long (the code has 128 slots and LLC_WAYS-2), a run whose count is one above the optimum |
| `HawkeyeOptGen.Replay` | ChampSim/TryBest/replacement/hawkeye.llc_repl:194-271 | the caller's sequence of calls ends with the optimal number of hits over the presented intervals, plus the full-length reuses |
| `FirstMinimum.FirstMinIsFirst` | ChampSim/TryBest/src/dram_controller.cc:928-982 | the scan finds the first entry with the lowest cycle, or nothing if every cycle is UINT64_MAX |
| `DramController.PacketQueue.constructor` | ChampSim/TryBest/inc/dram_controller.h:139-148 | empty queues with no saved event |
| `DramController.PacketQueue.UpdateScheduleCycle` | ChampSim/TryBest/src/dram_controller.cc:928-958 | saves the first minimum over waiting entries |
| `DramController.PacketQueue.UpdateProcessCycle` | ChampSim/TryBest/src/dram_controller.cc:960-982 | saves the first minimum over scheduled entries |
| `DramController.PacketQueue.Check` | ChampSim/TryBest/src/dram_controller.cc:984-1010 | the first entry with the address, or -1 |
| `DramController.PacketQueue.Add` | ChampSim/TryBest/src/dram_controller.cc:794-853 | fills the first empty slot and renews the saved schedule event |
| `DramController.PacketQueue.Remove` | ChampSim/TryBest/src/block.cc:239-276 | resets the slot and lowers the occupancy |
| `DramController.MemoryController.constructor` | ChampSim/TryBest/inc/dram_controller.h:119-149 | the initial state satisfies the invariant |
| `DramController.MemoryController.ResetEntry` | ChampSim/TryBest/src/dram_controller.cc:36-75 | takes a scheduled entry off its bank, closing a row whose access has not begun |
| `DramController.MemoryController.ResetRemainRequests` | ChampSim/TryBest/src/dram_controller.cc:33-93 | unschedules the whole queue; its final counter check passes |
| `DramController.MemoryController.Oldest` | ChampSim/TryBest/src/dram_controller.cc:279-362 | one scheduling pass: the first oldest waiting request on an idle bank, or among row hits only |
| `DramController.MemoryController.Choose` | ChampSim/TryBest/src/dram_controller.cc:276-366 | row hits first, then any; and whether the choice is charged as a row hit |
| `DramController.MemoryController.AccessLatency` | ChampSim/TryBest/src/dram_controller.cc:383-413 | column access, with precharge and activation on a row miss, less the lookup time of a pseudo-direct prefetch |
| `DramController.MemoryController.ScheduleNext` | ChampSim/TryBest/src/dram_controller.cc:270-459 | the chosen request takes its bank and row |
| `DramController.MemoryController.InsertDdrpBuffer` | ChampSim/TryBest/src/dram_controller.cc:1124-1145 | one LRU touch of the address's set |
| `DramController.MemoryController.CompleteRequest` | ChampSim/TryBest/src/dram_controller.cc:489-611 | data moves over the bus, the reader is answered or the DDRP buffer filled, queue slot and bank are freed |
| `DramController.MemoryController.ProcessNext` | ChampSim/TryBest/src/dram_controller.cc:461-631 | the saved request waits for its bank, else the bank for the bus, else it is completed, each said over the fields; the bank check passes |
| `DramController.MemoryController.SwitchModes` | ChampSim/TryBest/src/dram_controller.cc:218-240 | the mode afterwards from the literal occupancies, and what a switch does to every entry and bank |
| `DramController.MemoryController.Operate` | ChampSim/TryBest/src/dram_controller.cc:218-268 | one cycle obeys the laws of mode, scheduling and processing, and keeps the invariant |
| `DramController.MemoryController.AddRq` | ChampSim/TryBest/src/dram_controller.cc:633-856 | which reads are answered at once, from where, which are taken over and which take the first empty slot; all assertions hold, the one that nothing merges with DDRP off included |
| `DramController.MemoryController.AddWq` | ChampSim/TryBest/src/dram_controller.cc:858-916 | dropped before warmup, merged on a duplicate, else into the first empty slot; keeps the invariant |
| `DramInvariant.InitialInv` | ChampSim/TryBest/inc/dram_controller.h:119-149 | the invariant holds at the start, and no address hits an open row |
| `DramInvariant.ResetOneMatched` | ChampSim/TryBest/src/dram_controller.cc:36-75 | resetting one entry keeps entries and banks in bijection |
| `DramInvariant.ResetCounts` | ChampSim/TryBest/src/dram_controller.cc:83-92 | after a reset the queue's scheduled counter is zero |
| `DramInvariant.SwitchModeInv` | ChampSim/TryBest/src/dram_controller.cc:218-240 | a mode switch leaves only the active mode's queue with scheduled entries |
| `DramInvariant.PickIsFrFcfs` | ChampSim/TryBest/src/dram_controller.cc:279-362 | the choice precedes every waiting request on an idle bank (row hit, then age, then slot), and something is chosen iff one waits |
| `DramInvariant.ScheduleTakes` | ChampSim/TryBest/src/dram_controller.cc:363-430 | the chosen request alone is scheduled, ready after tCAS on a row hit and tRP+tRCD+tCAS otherwise, less the lookup time of a pseudo-direct prefetch, and its bank is busy until then |
| `DramInvariant.ScheduleInv` | ChampSim/TryBest/src/dram_controller.cc:368-459 | scheduling keeps the bijection, the counters and the saved minima |
| `DramInvariant.ProcessChecks` | ChampSim/TryBest/src/dram_controller.cc:463-484 | the request served is scheduled and its bank names it |
| `DramInvariant.ProcessInv` | ChampSim/TryBest/src/dram_controller.cc:461-631 | processing keeps the invariant |
| `DramInvariant.OperateInv` | ChampSim/TryBest/src/dram_controller.cc:218-268 | a whole cycle keeps the invariant |
| `DramInvariant.MergeInv` | ChampSim/TryBest/src/dram_controller.cc:733-792 | an LLC miss taking over a queued DDRP request keeps the invariant |
| `DramInvariant.MergesOnlyWithDdrp` | ChampSim/TryBest/src/dram_controller.cc:724-726 | no request finds another of its address in the read queue unless DDRP is on |
| `DramInvariant.AddRqInv` | ChampSim/TryBest/src/dram_controller.cc:633-856 | reads keep it, with addresses of the read queue pairwise distinct |
| `DramInvariant.AddWqInv` | ChampSim/TryBest/src/dram_controller.cc:858-916 | writes keep it |
| `DramLaws.SwitchObeys` | ChampSim/TryBest/src/dram_controller.cc:33-93 | write mode from 56 writes or when only writes are queued, until fewer than 48 are left beside reads; a switch unschedules the queue being left, frees its banks, and leaves a row open exactly if its column access had begun |
| `DramLaws.ActiveHasWork` | ChampSim/TryBest/src/dram_controller.cc:218-240 | after the decision the active queue is empty only if both are |
| `DramLaws.ScheduleObeys` | ChampSim/TryBest/src/dram_controller.cc:270-459 | a request is scheduled iff a queued one is due and one waits for an idle bank; which one, and until when it holds its bank |
| `DramLaws.ProcessObeys` | ChampSim/TryBest/src/dram_controller.cc:461-631 | a request is served iff a scheduled one is due: the earliest, the first on a tie; what waiting and completing change, field by field |
| `DramLaws.OneTransferIff` | ChampSim/TryBest/src/dram_controller.cc:486-511 | exactly one transfer if the earliest scheduled request is due and finds bank and bus free, none otherwise |
| `DramLaws.CycleObeys` | ChampSim/TryBest/src/dram_controller.cc:218-268 | a cycle is a mode decision, a scheduling step and a processing step of the active queue, each under its law |
| `DramLaws.DueIsServed` | ChampSim/TryBest/src/dram_controller.cc:461-631 | a cycle that stays in its mode completes the earliest overdue request once bank and bus are free: the read is answered, slot and bank are freed, the row stays open; while only the bus is busy the bank waits for it |
| `DramLaws.ReadObeys` | ChampSim/TryBest/src/dram_controller.cc:633-856 | a read is answered at once iff it comes before warmup, or its address is in the write queue or in the DDRP buffer; else an LLC miss takes over a queued DDRP request, and an absent address takes one empty slot |
| `DramLaws.WriteObeys` | ChampSim/TryBest/src/dram_controller.cc:858-916 | a write is dropped before warmup, merges into a queued one of its address, or takes one empty slot |
| `DramRuns.RunInv` | ChampSim/TryBest/src/dram_controller.cc:33-916 | in every run scheduled entries and working banks correspond one to one, the counters count them, only the active queue has any, and the saved minima agree with full scans |
| `DramRuns.ProcessCases` | ChampSim/TryBest/src/dram_controller.cc:486-617 | a processing step only delays a bank, or completes exactly one request: one whose access time is over, and no other scheduled request was due before it |
| `DramRuns.BusSafety` | ChampSim/TryBest/src/dram_controller.cc:220-239 | in any run two transfers are a return time apart, and a turn-around more if a mode switch lies between |
| `DramRuns.RunBus` | ChampSim/TryBest/src/dram_controller.cc:486-511 | the bus reservation never moves back and covers every past transfer and switch |
| `DramRuns.ExactlyOnce` | ChampSim/TryBest/src/dram_controller.cc:508-856 | for every address, accepted LLC misses equal answers plus misses still queued, through every path |
| `DramRuns.AddRqAccount` | ChampSim/TryBest/src/dram_controller.cc:633-856 | a read adds exactly its own miss to what is answered or owed |
| `DramRuns.OperateAccount` | ChampSim/TryBest/src/dram_controller.cc:218-268 | a cycle, with its resets, neither loses nor doubles a miss |
| `DramRuns.BurstRetiresWrites` | ChampSim/TryBest/src/dram_controller.cc:218-253 | a burst that begins in a cycle with 56 writes queued and ends in a cycle with writes still queued has retired at least nine |
| `DramRuns.RunDrain` | ChampSim/TryBest/src/dram_controller.cc:218-253 | over any run the writes queued equal the writes completed plus those still in the queue |
| `DramRuns.RunBuffer` | ChampSim/TryBest/src/dram_controller.cc:1124-1145 | each DDRP buffer set is the LRU list of the addresses inserted into it |
| `DramRuns.BufferHitLaw` | ChampSim/TryBest/src/dram_controller.cc:1147-1162 | an address hits iff it was inserted and fewer than assoc distinct ones of its set were since |
| `DramRuns.BufferAnswers` | ChampSim/TryBest/src/dram_controller.cc:680-720 | after any run, a warm read in neither queue is answered without DRAM iff its line was buffered with fewer than assoc distinct lines of its set since; otherwise it is queued |
| `DramProgress.CyclePrimes` | ChampSim/TryBest/src/dram_controller.cc:218-268 | a cycle that finds work and nothing still going on completes a request or schedules one |
| `DramProgress.PrimedCompletes` | ChampSim/TryBest/src/dram_controller.cc:218-268 | the cycle after that completes one |
| `DramProgress.Drains` | ChampSim/TryBest/src/dram_controller.cc:218-631 | from any reachable state, cycles an access apart empty both queues in two cycles per request |
| `DramProgress.AllAnswered` | ChampSim/TryBest/src/dram_controller.cc:218-856 | any run followed by such cycles has handed back every address exactly as often as it missed |
| `Mshr.MissFile.constructor` | ChampSim/TryBest/inc/block.h:352-378 | no misses and no saved fill |
| `Mshr.MissFile.Check` | ChampSim/TryBest/src/cache.cc:4457-4519 | the first entry with the address |
| `Mshr.MissFile.AddNonfifo` | ChampSim/TryBest/src/cache.cc:4522-4561 | the first free entry takes the miss, in flight |
| `Mshr.MissFile.MergeRequest` | ChampSim/TryBest/src/cache.cc:945-968 | a later request overwrites a held miss of a weaker kind, whose address, status and event cycle survive |
| `Mshr.MissFile.ReturnData` | ChampSim/TryBest/src/cache.cc:4347-4393 | the entry is completed and due one latency later |
| `Mshr.MissFile.UpdateFillCycle` | ChampSim/TryBest/src/cache.cc:4423-4444 | saves the first minimum over completed entries |
| `Mshr.MissFile.HandleFill` | ChampSim/TryBest/src/cache.cc:50-64 | what becomes of the saved entry when it is due: it stays when the fill stalls, goes down again, or leaves; the index check passes |
| `Mshr.RunInv` | ChampSim/TryBest/src/cache.cc:4347-4561 | in every run, with merges and stalls, the saved fill agrees with a full scan, no line is held twice, the occupancy counts the lines held |
| `Mshr.FillsEarliest` | ChampSim/TryBest/src/cache.cc:57-64 | a fill is due iff a completed entry is, and it is the earliest one's, the first on a tie |
| `Mshr.MissesAreFilledOnce` | ChampSim/TryBest/src/cache.cc:4347-4561 | each line is filled as often as it missed, but for one miss that may still be held |
| `Mshr.OpObeys` | ChampSim/TryBest/src/cache.cc:4347-4561 | which entry a miss, a join, returned data or a due fill changes, and to what: a fill is due one latency after the later of the data and the entry's event |
| `Mshr.FilledAfterData` | ChampSim/TryBest/src/cache.cc:4347-4444 | in any run a line is filled no earlier than one latency after its data came back, and the data came after the miss |
| `SetAssociative.SetAssociativeCache.constructor` | ChampSim/TryBest/prefetcher/bingo_frame.h:227-236 | an empty map |
| `SetAssociative.SetAssociativeCache.Find` | ChampSim/TryBest/prefetcher/bingo_frame.h:295-305 | map lookup, through the CAM; the entry found carries key and data |
| `SetAssociative.SetAssociativeCache.Erase` | ChampSim/TryBest/prefetcher/bingo_frame.h:238-248 | map removal; the number of CAM entries erased is what the source asserts |
| `SetAssociative.SetAssociativeCache.VictimWay` | ChampSim/TryBest/prefetcher/bingo_frame.h:264-276 | the first free way, else the policy's choice, and then the set is full |
| `SetAssociative.SetAssociativeCache.Insert` | ChampSim/TryBest/prefetcher/bingo_frame.h:253-291 | map update that drops at most one other key, of the same set, only if the set was full |
| `SetAssociative.PlaceOk` | ChampSim/TryBest/prefetcher/bingo_frame.h:281-289 | overwriting a way keeps CAM and ways naming each other |
| `SetAssociative.EraseOk` | ChampSim/TryBest/prefetcher/bingo_frame.h:238-248 | so does erasing one |
| `SetAssociative.StrayTag` | ChampSim/TryBest/prefetcher/bingo_frame.h:388-393 | naming a way for a tag the CAM did not know breaks the set |
| `SetAssociative.RefinesUpdate` | ChampSim/TryBest/prefetcher/bingo_frame.h:227-305 | a change confined to one set keeps all sets agreeing with the map |
| `Recency.StackDistance` | ChampSim/TryBest/src/offchip_pred_perc.cc:233-271 | an element is in an LRU list iff it was touched before and fewer than cap distinct others were since |
| `Recency.OldestIsFurthest` | ChampSim/TryBest/src/offchip_pred_perc.cc:255-261 | the next victim is the resident touched longest ago |
| `Recency.ContentsAreTop` | ChampSim/TryBest/src/offchip_pred_perc.cc:240-270 | an LRU list holds exactly the last cap distinct elements, in order of last touch |
| `RankLru.PromoteRanked` | ChampSim/TryBest/replacement/base_replacement.cc:80-89 | promoting a way keeps the ranks a permutation of 0..K-1, in recency order |
| `RankLru.RankSet.LruVictim` | ChampSim/TryBest/replacement/base_replacement.cc:41-78 | the next free way, else the least recently used one: a victim always exists |
| `RankLru.RankSet.LruUpdate` | ChampSim/TryBest/replacement/base_replacement.cc:80-89 | the way becomes rank 0 and the ranks below its old one rise by one, the loop reading ranks as it changes them |
| `RankLru.RankSet.Touch` | ChampSim/TryBest/replacement/base_replacement.cc:17-89 | a hit or fill is one touch of the recency list, and an eviction takes its oldest key |
| `TimestampLru.LruSetAssociativeCache.SelectVictim` | ChampSim/TryBest/prefetcher/bingo_frame.h:379-384 | a way with the lowest stamp |
| `TimestampLru.LruSetAssociativeCache.SetMru` | ChampSim/TryBest/prefetcher/bingo_frame.h:370-393 | stamps the key's way with the running clock; an absent key gets its tag added for way 0, and the CAM agrees with the ways afterwards iff the key was present |
| `TimestampLru.LowestIsOldest` | ChampSim/TryBest/prefetcher/bingo_frame.h:379-384 | in a full set the lowest stamp is the least recently used key's |
| `TimestampLru.StampAged` | ChampSim/TryBest/prefetcher/bingo_frame.h:370 | stamping moves a key to the end of the recency order |
| `TimestampLru.LruSetAssociativeCache.Touch` | ChampSim/TryBest/prefetcher/bingo_frame.h:253-291 | insert then set_mru is one touch of that set's recency list and of no other's |
| `PageBuffer.TouchedStep` | ChampSim/TryBest/src/offchip_pred_perc.cc:243-269 | how one access changes which offsets were touched in a page's current residency |
| `PageBuffer.PageBuffer.LookupAddress` | ChampSim/TryBest/src/offchip_pred_perc.cc:233-271 | a page hits by the stack-distance law; first_access is false iff the offset was accessed since the page last came in |
| `ThreeLrus.RunRanks` | ChampSim/TryBest/replacement/base_replacement.cc:41-89 | rank counters hit, fill and evict as the recency list |
| `ThreeLrus.RunStamps` | ChampSim/TryBest/prefetcher/bingo_frame.h:253-396 | so do timestamps |
| `ThreeLrus.RunDeque` | ChampSim/TryBest/src/offchip_pred_perc.cc:233-271 | so does the deque |
| `ThreeLrus.RunAll` | ChampSim/TryBest/src/offchip_pred_perc.cc:233-271 | the three agree on every touch sequence, and hit by the stack-distance law |
| `FastSet.FastSet.constructor` | ChampSim/TryBest/inc/set.h:134-134 | the empty set |
| `FastSet.FastSet.Insert` | ChampSim/TryBest/inc/set.h:142-165 | adds one element, across the switch from array to bitset; an element already present changes nothing |
| `FastSet.FastSet.InsertSmall` | ChampSim/TryBest/inc/set.h:57-71 | keeps the array strictly increasing |
| `FastSet.FastSet.SearchSmall` | ChampSim/TryBest/inc/set.h:88-115 | linear or binary search decides membership |
| `FastSet.FastSet.SearchSmallLinear` | ChampSim/TryBest/inc/set.h:76-83 | stopping at the first larger element decides membership |
| `FastSet.FastSet.Search` | ChampSim/TryBest/inc/set.h:169-184 | true iff the element is in the set, in all four representations |
| `FastSet.FastSet.SmallToBit` | ChampSim/TryBest/inc/set.h:119-128 | the bitset holds exactly the array's elements |
| `FastSet.FastSet.Join` | ChampSim/TryBest/inc/set.h:189-216 | adds all of a small set, of a bitset what lies in the words up to bit n's; the result is the union iff nothing new lies beyond that word, in particular if all elements are below n |
| `FastSet.JoinBeyond` | ChampSim/TryBest/inc/set.h:210-215 | a join that adds none of thirteen elements |
| `FastSet.FastSet.Expand` | ChampSim/TryBest/inc/set.h:220-248 | lists the elements (of a bitset, those below n) strictly increasing |
| `Streaming.AbsorbAppend` | ChampSim/TryBest/inc/xxhash64.h:53-92 | absorbing two pieces is absorbing their concatenation |
| `Streaming.Leftover` | ChampSim/TryBest/inc/xxhash64.h:89-92 | the buffer holds the last bytes of the message, as many as the remainder of its length |
| `Streaming.Stream.Add` | ChampSim/TryBest/inc/xxhash64.h:43-96 | the state is the fold over all full blocks of everything added, the buffer the rest, the length the total modulo 2^64 |
| `Streaming.Stream.Refill` | ChampSim/TryBest/inc/xxhash64.h:53-95 | one chunk, through a partly filled buffer, whole blocks and a remainder |
| `Streaming.Hash` | ChampSim/TryBest/inc/xxhash64.h:100-150 | hash() is the one-shot digest of the message |
| `Streaming.HashChunks` | ChampSim/TryBest/inc/xxhash64.h:158-163 | for every split into add calls |
| `XxHash64.HashMessage` | ChampSim/TryBest/inc/xxhash64.h:29-150 | XXH64 of the joined chunks |
| `XxHash32.HashMessage` | ChampSim/TryBest/inc/xxhash32.h:29-134 | XXH32 of the joined chunks |
| `DdrpMonitor.Counter.constructor` | ChampSim/TryBest/inc/util.h:99-103 | saturates at 2^width - 1 |
| `DdrpMonitor.Counter.Incr` | ChampSim/TryBest/inc/util.h:104-107 | adds, stopping at the maximum |
| `DdrpMonitor.Counter.Decr` | ChampSim/TryBest/inc/util.h:108-110 | subtracts, stopping at zero |
| `DdrpMonitor.DdrpMonitor.constructor` | ChampSim/TryBest/src/ddrp_monitor.cc:44-75 | exploring the first configuration, the incumbent all off without confidence |
| `DdrpMonitor.DdrpMonitor.SetParameters` | ChampSim/TryBest/src/ddrp_monitor.cc:105-140 | the disable flags of the configuration |
| `DdrpMonitor.DdrpMonitor.GetWinnerConfig` | ChampSim/TryBest/src/ddrp_monitor.cc:213-257 | the fastest configuration, or under hysteresis the incumbent after this round |
| `DdrpMonitor.DdrpMonitor.MonitorInstr` | ChampSim/TryBest/src/ddrp_monitor.cc:142-211 | one step of the explore/exploit machine |
| `DdrpMonitor.StepIsClosed` | ChampSim/TryBest/src/ddrp_monitor.cc:142-211 | a step moves the closed form to the next place of the period |
| `DdrpMonitor.RunIsClosed` | ChampSim/TryBest/src/ddrp_monitor.cc:142-257 | after n calls the whole state, measured cycles and incumbent included, is a closed function of the clocks and n modulo 4E+X |
| `DdrpMonitor.PhaseIsPeriodic` | ChampSim/TryBest/src/ddrp_monitor.cc:105-211 | phase and explored configuration depend on n modulo 4E+X alone; the flags always match the configuration |
| `DdrpMonitor.MeasuresDifferences` | ChampSim/TryBest/src/ddrp_monitor.cc:169-205 | each finished epoch of a round is recorded as the difference of the clocks at its ends, and nothing else is |
| `DdrpMonitor.ChoosesFastest` | ChampSim/TryBest/src/ddrp_monitor.cc:213-257 | the round ends with the configuration of the shortest epoch, the first on a tie; under hysteresis only if it is the incumbent or the incumbent has no confidence left |
| `DdrpMonitor.AssertionHoldsIffClockMoves` | ChampSim/TryBest/src/ddrp_monitor.cc:218-226 | the zero-cycle assertion holds in a call iff the call ends no exploration or the clock moved in each of its four epochs |
| `DdrpMonitor.AssertionCanFail` | ChampSim/TryBest/src/ddrp_monitor.cc:218-226 | a run in which it fails: four instructions retired in one cycle, with one-instruction epochs |
| `DdrpMonitor.DisplacedExactly` | ChampSim/TryBest/src/ddrp_monitor.cc:228-251 | an incumbent with confidence c that keeps losing stays for exactly c rounds and does not come back |
| `DdrpMonitor.EightLossesDisplace` | ChampSim/TryBest/src/ddrp_monitor.cc:228-251 | after any history eight losses in a row displace the incumbent |
| `DdrpMonitor.RetainedIsPaidFor` | ChampSim/TryBest/src/ddrp_monitor.cc:228-251 | over any run, retained mismatches plus confidence equal matches minus those a full counter ignored |
| `Perceptron.PerceptronPredictor.constructor` | ChampSim/TryBest/src/perc_pred.cc:66-87 | zero weights, in range if zero is |
| `Perceptron.PerceptronPredictor.Predict` | ChampSim/TryBest/src/perc_pred.cc:152-182 | the sum of the selected weights, and whether it reaches the threshold |
| `Perceptron.PerceptronPredictor.Train` | ChampSim/TryBest/src/perc_pred.cc:184-249 | which of the four outcomes trains, and in which direction |
| `Perceptron.PerceptronPredictor.IncrWeights` | ChampSim/TryBest/src/perc_pred.cc:317-334 | raises each selected weight unless that leaves the range |
| `Perceptron.PerceptronPredictor.DecrWeights` | ChampSim/TryBest/src/perc_pred.cc:336-353 | lowers each selected weight unless that leaves the range |
| `Perceptron.WeightsStayInRange` | ChampSim/TryBest/src/perc_pred.cc:317-353 | all weights stay in range over any training, stale sums included |
| `Perceptron.SelectedTrains` | ChampSim/TryBest/src/perc_pred.cc:184-249 | training a state changes the weights it selects and no others |
| `Perceptron.TrainingBand` | ChampSim/TryBest/src/perc_pred.cc:184-249 | a wrong prediction, or a right one whose sum lies between the training thresholds, moves each selected weight one step unless that leaves the range; a right one outside them changes nothing |
| `Perceptron.PracticeEnds` | ChampSim/TryBest/src/perc_pred.cc:184-249 | a state predicted rightly goes on being trained, a full step a round, until its sum leaves the thresholds or no selected weight can move; then the weights are fixed |
| `Perceptron.AdjustGains` | ChampSim/TryBest/src/perc_pred.cc:317-353 | an adjustment gains a full step unless every selected weight has moved by as many whole steps as fit its range |
| `Perceptron.RightStaysRight` | ChampSim/TryBest/src/perc_pred.cc:152-249 | when one state is predicted and trained with a fixed label, a right prediction stays right for good |
| `Perceptron.MistakeBound` | ChampSim/TryBest/src/perc_pred.cc:152-249 | for any weight table and any step sizes: before the last of m mistakes, after m-1 full steps, the sum was still on the wrong side |
| `Perceptron.UnitMistakeBound` | ChampSim/TryBest/src/perc_pred.cc:152-249 | with unit steps and a table in range, at most T - F*min or F*max - T + 1 mistakes, and from that round on every prediction is right |
| `Perceptron.Relearn` | ChampSim/TryBest/src/perc_pred.cc:152-249 | the predictor itself, asked and trained n times, makes no more mistakes than that and is right afterwards |
| `Perceptron.LearnableIff` | ChampSim/TryBest/src/perc_pred.cc:152-249 | for any table and step sizes, a label is learned in some number of rounds iff the sum of the saturated weights is on its side |
| `Perceptron.UnitLearnable` | ChampSim/TryBest/src/perc_pred.cc:152-249 | with unit steps and weights in range that is whether the threshold leaves room: T <= F*max, or F*min < T |
| `PatternTable.Bucket.constructor` | ChampSim/TryBest/inc/kpcp.h:64-75 | an empty bucket satisfies the invariant |
| `PatternTable.Bucket.Lowest` | ChampSim/TryBest/inc/kpcp.h:369-381 | the lowest-counter search finds the first minimum |
| `PatternTable.Bucket.PtUpdate` | ChampSim/TryBest/inc/kpcp.h:317-393 | one update keeps the invariant |
| `PatternTable.CountedOk` | ChampSim/TryBest/inc/kpcp.h:324-334 | counting, with halving at saturation, leaves room for one more sighting |
| `PatternTable.VictimFound` | ChampSim/TryBest/inc/kpcp.h:369-381 | a target way always exists, and a victim is the first way with the lowest counter |
| `PatternTable.RunOk` | ChampSim/TryBest/inc/kpcp.h:317-393 | over any updates the delta counters sum to at most the signature counter, which stays below its maximum, and deltas are distinct |
| `PatternTable.SignatureCounter` | ChampSim/TryBest/inc/kpcp.h:322-327 | the signature counter is a closed function of the number of updates |
| `PatternTable.UpdateKeeps` | ChampSim/TryBest/inc/kpcp.h:336-392 | the updated delta is held; another is lost iff the bucket was full and it was the lowest |
| `PatternTable.UpdateLaw` | ChampSim/TryBest/inc/kpcp.h:317-393 | where an update goes (the way that holds the delta, a free one, the first lowest), that a hit counts one more and a new delta starts from zero, and that every other way only ages |
| `PatternTable.CountsAreFaithful` | ChampSim/TryBest/inc/kpcp.h:317-393 | while at most four deltas have followed a signature, each is held with the count of its own sightings, halved at each saturation |
| `PatternTable.NewSignature` | ChampSim/TryBest/inc/kpcp.h:117-135 | a nonzero delta within a page leads to a nonzero twelve-bit signature |
| `PatternTable.SignatureBits` | ChampSim/TryBest/inc/kpcp.h:117-135 | the signature bit by bit: the old one moved up three bits with the delta folded in |
| `PatternTable.SignatureSeparates` | ChampSim/TryBest/inc/kpcp.h:117-135 | from one signature, different deltas lead to different signatures |

## Left out

- Statistics, printing, traces, file I/O, option parsing, the main loop, empty stubs and the plotting scripts.
- More than one channel, rank or core, and the queue fields they need: the controller is modelled for one of each.
- The core's answer whether a ROB position lies in the selected partition is an uninterpreted function of the position and the cycle.
- The data and timestamps a packet carries; a packet here is what scheduling, merging and answering depend on.
- `DramRuns.ExactlyOnce`: answers are counted by address, not matched packet by packet, because packets carry no identity in the model.
- The saved index of a queue that has never been scanned (0 with cycle UINT64_MAX): the saved minima are claimed whenever the cycle is below UINT64_MAX.
- Starvation freedom of the scheduler while requests keep arriving, which is not claimed: row hits may overtake a request. `DramProgress` is about cycles without arrivals, far enough apart for an access each.
- PACKET_QUEUE as a ring with head and tail, and the priority queue: the DRAM queues and the miss file use it only as an array of slots with an occupancy.
- `Mshr.MissFile.HandleFill`: the victim search and the writeback of the victim are not modelled; what they decide about the fill is a parameter.
- `Mshr.MissFile.Check`: the translation of an L1 request's address before the search; the physical address is the argument.
- `Mshr.MissFile.MergeRequest`: the fill level and the fill, translation and dependence flags that a merge combines are not modelled.
- `num_returned` of the miss file, which one path of the source does not restore.
- Lines filled without consulting the miss file, so nothing is claimed about duplicate lines in a cache set.
- `OPTgen`: the uint64 counters of accesses and decisions do not wrap in the model. The sampler of its caller is not part of it, and a reuse that the caller's timer, which wraps at 1024, makes look younger than it is counts here as the younger reuse.
- The random victim of the base set-associative cache and its inheritance: the choice is a parameter of `Insert`, and the LRU cache holds the base cache as a part.
- `set_lru` and `NMRUSetAssociativeCache`.
- `TimestampLru.LruSetAssociativeCache.Touch`: covers insertions and hits; erasing a key from the LRU cache, after which ways no longer fill from the left, is covered for the base cache only.
- `RankLru.RankSet.Touch`: covers hits and fills without invalidation; writeback hits that leave the ranks alone are not touches.
- The age field of a page entry, which is never read, and the page hash, which is uninterpreted.
- The two members of the `fastset` union sharing their memory: the array and the words are separate, and `card` says which one is live. A word is the set of its one-bits.
- `Streaming.Stream.Add`: chunk lengths near 2^64, for which the pointer arithmetic of the source overflows, and `Streaming.Hash` for messages of 2^64 bytes or more.
- Unaligned and big-endian loads of the hashes: bytes are read little-endian, as the format says.
- Floating-point weights and thresholds of the perceptron: its knobs are whole numbers, so integers are used.
- The hash from a state to weight indices, and the knobs that move the activation threshold at run time.
- The pattern table's other buckets: an update touches only the bucket of its signature.
- The signature table of the prefetcher, whose rank replacement starts from all-zero ranks.
