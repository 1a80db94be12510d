# Verified model of the NVMeVirt / XHarvest storage emulator

The repository emulates NVMe drives: a kernel-side flash translation layer (FTL) with zoned and
key-value variants, an FTL inside an SGX enclave, and dispatcher threads between the host queues
and the FTL threads. This project models the stateful parts in Dafny and proves what they keep
over whole runs.

| file | models |
|---|---|
| FtlModel, FtlRuns | the conventional FTL as a state machine: mapping, counters, line lists, write credits, garbage collection; runs of host writes |
| FtlCollection | a collection page by page, in whatever order the pages are visited |
| LineMachine, StarvingRun, LineCountsOf, FtlLimits | how many logical pages the FTL can serve: the line counts as a machine of their own, a run of it that starves, and its simulation by the FTL |
| ConvFtl, GcOrder | the same FTL as a class over arrays and lists, each method proved to be a step of that machine |
| ConvNamespace | a namespace striped over partitions |
| BlockCounts | the page counters of the blocks |
| VictimQueue | the positional binary heap of victim lines |
| Geometry | page numbering and the visiting order of the write pointer |
| TimeSlots | the earliest-fit scheduler of a LUN, with 64-bit wrap-around |
| MapCache | the LRU write-back cache of mapping pages |
| EnclaveGc | the collection loop of the enclave FTL |
| DispatcherModel, Dispatcher | the dispatcher / FTL-thread protocol, as interleaved steps |
| DispatcherTimes, DispatcherPieces | what the threads are told and when commands are answered, over every run |
| DispatcherProgress | rings that never fill, and the completion of every command |
| FlagRing, CompletionQueue | the flagged rings between the threads, and the completion queues with their phase bit |
| WorkQueue | the index-chained work queue of an I/O worker |
| Split | splitting of requests between two FTL threads, and the warm-up |
| PrpTransfer | data transfer through PRP entries, with and without merging |
| ChannelModel | the bandwidth model of a channel |
| KvIndex | the coalesced hash index of the key-value FTL |
| ZoneModel, Zns | the zone state machine and its resources, on values and on the real fields |
| Collections, Wrappers | sets, sequences and Option |

Code that works in place is a class whose methods are tied to functions of an abstract state; the
properties over runs are lemmas about those functions. `NVMEV_ASSERT` and `ftl_assert` are
compiled out in the repository. Where they speak of state that is modelled they are proof
obligations here: of the FTL, the page states and the counters of blocks and lines; of the
dispatcher, the request numbers, tags and counts. Those that are not are listed under "Left out".

Four results say that the code does less than it seems to, each with its exact condition:

* The range check of the write path admits runs that leave the FTL without a free line; how many
  logical pages can be in use without that is exactly (T - 4) * P (`FtlLimits.LimitIff`).
* The scheduler subtracts a latency from an end time without a sign; it is an earliest-fit
  scheduler exactly when that does not wrap (`TimeSlots.EarliestFitIffNoWrap`).
* The completed list inserts behind the entry it should insert before; it stays sorted only under
  the condition of `Dispatcher.InsertSortedIff`. The protocol properties do not depend on it.
* Deleting a key wipes its slot without closing the chain; the other keys stay findable exactly
  under the condition of `KvTable.DeleteRefinesIff`.

Conventions: T is the number of lines of a partition, P the number of pages of a line. Time is in
nanoseconds and, outside TimeSlots and ChannelModel, unbounded. Queue pairs, channels and pages are
numbered from 0. Latencies, clock readings, allocator results and the order in which threads take
turns are inputs.

## Model

| member | source | states |
|---|---|---|
| `FtlRuns.NeverStarves` | NVMevirt/conv_ftl.c:928-1016 | over every run of host writes that touches no more than (T - 4) * P logical pages, T >= 5 and P >= 2, a free line is there whenever one is needed, the page budget holds, and every logical page reads back its last write |
| `FtlLimits.LimitIff` | NVMevirt/conv_ftl.c:928-1016 | the exact limit, for lines of five pages or more and any order of copying: every run within m logical pages can go on with every further write within them if and only if m <= (T - 4) * P |
| `FtlLimits.OnePageTooMany` | NVMevirt/conv_ftl.c:756-816 | with one logical page more there is a run, with each collection page by page and never two victims to choose from, after whose last write no victim can be collected: the copy pointer finds no free line |
| `FtlLimits.RangeCheckIsNotEnough` | NVMevirt/conv_ftl.c:958-962 | the range check of the write path rules none of this out: writing new pages only, in range, leaves a state in which no page can be written |
| `FtlLimits.CodeRunIsRun` | NVMevirt/conv_ftl.c:928-1016 | the runs that copy in a fixed order are runs of the state machine |
| `StarvingRun.StarvingTrace` | NVMevirt/conv_ftl.c:648-669 | on the counts of the lines alone: from the empty FTL to no free line, no credits and no victim that fits, with (T - 4) * P + 1 pages |
| `LineCountsOf.WriteShows` | NVMevirt/conv_ftl.c:974-1016 | overwriting a page of a chosen line changes the line counts as the counting machine says |
| `LineCountsOf.CollectShows` | NVMevirt/conv_ftl.c:756-816 | so does collecting a victim, with the change of the copy line on the way |
| `FtlCollection.CollectionIff` | NVMevirt/conv_ftl.c:756-816 | visiting the pages of a victim in any order, the collection runs through if and only if the free lines and the rest of the copy line have room for more pages than the victim has valid ones; then it is a collection of the state machine |
| `FtlCollection.WriteGoesThrough` | NVMevirt/conv_ftl.c:928-1016 | within the page limit the next write can always be performed |
| `FtlCollection.CodeWriteIsHostWrite` | NVMevirt/conv_ftl.c:928-1016 | a write with the collection performed page by page is a HostWrite |
| `ConvNamespace.OverProvisioningSuffices` | NVMevirt/conv_ftl.c:366-415 | the shipped sizing (107 units of flash for 100 of namespace) leaves the four lines spare from 62 lines per partition on |
| `FtlRuns.HostWriteOk` | NVMevirt/conv_ftl.c:928-1016 | one written page with the credit refill behind it keeps the invariant and the budget and changes the host view at that logical page only |
| `FtlRuns.RefillOk` | NVMevirt/conv_ftl.c:99-107 | refilling credits restores the budget `free pages >= 2P + credits`, with or without a collection, and leaves the host view alone |
| `FtlRuns.ForegroundGcOk` | NVMevirt/conv_ftl.c:756-825 | a foreground collection gains at least the credits it hands out, keeps the invariant and leaves what the host reads unchanged |
| `FtlRuns.VictimExists` | NVMevirt/conv_ftl.c:648-669 | while at most two lines are free and the page limit is kept there is a victim, unless the limit is reached exactly and the host has just opened a line |
| `FtlRuns.FullLinesFit` | NVMevirt/conv_ftl.c:214-276 | full lines hold mapped pages only, and free, full, victim and the two open lines add up to T |
| `FtlRuns.ReplayLastWrite` | NVMevirt/conv_ftl.c:836-926 | the reference view is the last write of each logical page, and nothing where there was none |
| `FtlRuns.InitGood` | NVMevirt/conv_ftl.c:109-160 | the initial state meets the invariant and the budget and reads nothing |
| `FtlRuns.WritePageOk` | NVMevirt/conv_ftl.c:974-1016 | retiring the old page and writing the new one keeps the invariant and costs one page of the budget |
| `FtlRuns.WriteMoves` | NVMevirt/conv_ftl.c:980-1000 | the page under the host pointer is then valid, mapped, recorded for the logical page and holds the payload; the page that held the old one is invalid and nothing is recorded for it |
| `FtlModel.MappingOneToOne` | NVMevirt/conv_ftl.c:25-65 | maptbl is injective, rmap undoes it, and every valid page is the page of its rmap entry |
| `FtlModel.EveryLineAccounted` | NVMevirt/conv_ftl.c:109-145 | each line has exactly one role, its counters are its numbers of valid and invalid pages, it is full iff all pages are valid, and a victim has an invalid page and no free one |
| `FtlModel.FullIffAllValid` | NVMevirt/conv_ftl.c:491-536 | vpc equals P exactly for the lines on the full list, which is the test mark_page_invalid relies on |
| `FtlModel.PlaceCore` | NVMevirt/conv_ftl.c:214-276 | writing an unmapped page through either write pointer keeps the invariant and uses one free page |
| `FtlModel.PlaceView` | NVMevirt/conv_ftl.c:974-1016 | such a write changes what is read at that logical page and nowhere else |
| `FtlModel.UnmapInv` | NVMevirt/conv_ftl.c:491-536 | invalidating a mapped page keeps the invariant and the budget, also when the line leaves the full list |
| `FtlModel.RoomToMove` | NVMevirt/conv_ftl.c:601-646 | a page can be copied exactly if the copy pointer has another page to go on to |
| `FtlModel.RoomToCopy` | NVMevirt/conv_ftl.c:601-646 | with room for the victim at the start the copy pointer has a page to go on to while pages are left to copy |
| `FtlModel.CollectBeginOk` | NVMevirt/conv_ftl.c:648-669 | a victim taken from the heap has fewer than P valid pages, valid and invalid ones making up the line |
| `FtlModel.CollectMoveOk` | NVMevirt/conv_ftl.c:601-646 | copying one page keeps the invariant although the old page stays marked valid, and keeps the host view |
| `FtlModel.CollectEraseOk` | NVMevirt/conv_ftl.c:561-580 | erasing pages already copied leaves those still to be copied intact |
| `FtlModel.CollectEndOk` | NVMevirt/conv_ftl.c:745-816 | a finished collection has freed the line, moved every live page off it and kept the host view |
| `FtlModel.MoveKeepsRow` | NVMevirt/conv_ftl.c:601-618 | gc_write_page touches neither the states nor the reverse map nor the payloads of the line under collection |
| `ConvFtl.ConvInitFtl` | NVMevirt/conv_ftl.c:331-357 | initialisation yields the initial state of the model |
| `ConvFtl.ConvFtl.WriteLpn` | NVMevirt/conv_ftl.c:974-1016 | one turn of the write loop on the real tables, lists and heap is one HostWrite of the model |
| `ConvFtl.ConvFtl.DoGc` | NVMevirt/conv_ftl.c:756-816 | with room for every victim, do_gc gives up exactly without a victim or, unless forced, when even the best one has more than an eighth valid pages; otherwise it collects a line with the fewest valid pages completely |
| `ConvFtl.ConvFtl.CopyBack` | NVMevirt/conv_ftl.c:769-805 | the nested loops over flash pages, channels and LUNs copy every valid page of the victim once and erase every block |
| `ConvFtl.ConvFtl.ForegroundGc` | NVMevirt/conv_ftl.c:818-825 | collects only at or below the threshold and is a ForegroundGc step of the model |
| `ConvFtl.ConvFtl.CheckAndRefillWriteCredit` | NVMevirt/conv_ftl.c:99-107 | credits are refilled only once used up, with the invalid pages of the last victim |
| `ConvFtl.ConvFtl.SelectVictimLine` | NVMevirt/conv_ftl.c:648-669 | takes a line with the fewest valid pages out of the heap, or none under the stated conditions |
| `ConvFtl.ConvFtl.GcWritePage` | NVMevirt/conv_ftl.c:601-646 | the copied page is mapped at the copy pointer, the source page stays as it was |
| `ConvFtl.ConvFtl.MarkPageInvalid` | NVMevirt/conv_ftl.c:491-536 | page state, counters, heap position and the move from full list to heap, as one step of the model; that the page was valid and the counters in range, as asserted, is demanded and proved |
| `ConvFtl.ConvFtl.MarkPageValid` | NVMevirt/conv_ftl.c:538-559 | page state and valid count of the line; that the page was free and the count below P, as asserted, is demanded of the callers |
| `ConvFtl.ConvFtl.SetStatus` | NVMevirt/conv_ftl.c:500-510 | page state and block counters together, the counters inside the ranges the code asserts |
| `ConvFtl.ConvFtl.BlockCounted` | NVMevirt/conv_ftl.c:500-510 | in every state between two steps, also inside a collection, each block counts exactly its valid and its invalid pages |
| `ConvFtl.ConvFtl.RetireLine` | NVMevirt/conv_ftl.c:248-263 | a used-up line goes to the full list or the heap; the asserted counters (no invalid page, or at least one) are demanded of the caller |
| `ConvFtl.ConvFtl.CountValid` | NVMevirt/conv_ftl.c:697-719 | the first loop over a flash page of the victim, none of whose pages is free, as asserted; a count of zero means that nothing is left to copy |
| `ConvFtl.ConvFtl.AdvanceWritePointer` | NVMevirt/conv_ftl.c:214-276 | one step of the walk through the line (Geometry.WalkOrder says which), or, after its last page, the line retired to the full list or heap and the first free line opened at its first page |
| `ConvFtl.ConvFtl.PointerOnWalk` | NVMevirt/conv_ftl.c:214-276 | where either write pointer stands is as many steps of the walk into its line as the model counts |
| `ConvFtl.ConvFtl.GetNextFreeLine` | NVMevirt/conv_ftl.c:167-181 | returns the first free line, and nothing exactly if there is none |
| `ConvFtl.ConvFtl.MarkLineFree` | NVMevirt/conv_ftl.c:745-754 | the collected line returns to the end of the free list with cleared counters |
| `ConvFtl.ConvFtl.MarkBlockFree` | NVMevirt/conv_ftl.c:561-580 | exactly the pages of the block become free, its counters zero, and one more erase is counted |
| `ConvFtl.ConvFtl.SetMaptblEnt` | NVMevirt/conv_ftl.c:30-34 | one entry of the map |
| `ConvFtl.ConvFtl.SetRmapEnt` | NVMevirt/conv_ftl.c:60-65 | one entry of the reverse map, at the page number of the address |
| `ConvNamespace.DealtOut` | NVMevirt/conv_ftl.c:974-980 | the logical pages go round the partitions: page k of partition p of n is logical page k * n + p |
| `ConvNamespace.PutThenRead` | NVMevirt/conv_ftl.c:974-980 | a page written through its partition is read back there and no other page is affected |
| `ConvNamespace.ConvWriteOk` | NVMevirt/conv_ftl.c:958-1028 | a write over several pages that finds room in the write buffer is refused exactly when its last page is out of range and otherwise keeps every partition good and writes exactly its pages |
| `ConvFtl.ConvFtl.ReadLpn` | NVMevirt/conv_ftl.c:882-893 | a page never written has no address, any other leads to the physical page that holds its last write |
| `BlockCounts.FreePageCounted` | NVMevirt/conv_ftl.c:546-553 | a block with a free page counts fewer than pgs_per_blk valid ones, and counts right again once the page is valid |
| `BlockCounts.ValidPageCounted` | NVMevirt/conv_ftl.c:500-510 | a block with a valid page has both counters inside the asserted ranges, and counts right again once the page is invalid |
| `BlockCounts.ErasedBlockCounted` | NVMevirt/conv_ftl.c:561-580 | erasing one block sets its counters to zero and leaves all others right |
| `HeapOrder.SubtreeSound` | NVMevirt/pqueue/pqueue.c:225-241 | the recursive check from the root accepts exactly the heaps |
| `HeapOrder.RootIsLeast` | NVMevirt/pqueue/pqueue.c:170-178 | in a heap the root has the least key of all |
| `VictimQueue.PQueue.Insert` | NVMevirt/pqueue/pqueue.c:104-128 | the heap gains exactly the element and stays ordered with consistent positions; no slot overflows |
| `VictimQueue.PQueue.ChangePriority` | NVMevirt/pqueue/pqueue.c:131-141 | the key changes, members do not, and order and positions hold again |
| `VictimQueue.PQueue.Pop` | NVMevirt/pqueue/pqueue.c:156-167 | returns a member of least key and leaves the others |
| `VictimQueue.PQueue.Remove` | NVMevirt/pqueue/pqueue.c:144-153 | takes out exactly the element asked for |
| `VictimQueue.PQueue.Peek` | NVMevirt/pqueue/pqueue.c:170-178 | shows a member of least key, or nothing exactly if the heap is empty |
| `VictimQueue.PQueue.MaxChild` | NVMevirt/pqueue/pqueue.c:73-84 | the child with the smaller key, the left one on a tie, 0 for a leaf |
| `VictimQueue.PQueue.BubbleUp` | NVMevirt/pqueue/pqueue.c:56-70 | from order but for one slot, too small for its place, to order |
| `VictimQueue.PQueue.PercolateDown` | NVMevirt/pqueue/pqueue.c:87-101 | from order but for one slot, too large for its place, to order |
| `Geometry.PgIdxBijection` | NVMevirt/conv_ftl.c:36-50 | ppa2pgidx is a bijection from the valid addresses to 0 .. tt_pgs - 1 |
| `Geometry.PgIdxStrides` | NVMevirt/conv_ftl.c:36-50 | page numbers count pages within a block, then blocks within a LUN, then LUNs within a channel, without gaps and from zero |
| `Geometry.TotalPages` | NVMevirt/ssd.c:133-156 | tt_pgs is the number of lines times the pages of a line |
| `Geometry.WalkOrder` | NVMevirt/conv_ftl.c:214-274 | step ((w * luns + l) * channels + ch) * os + r of the write pointer is page w * os + r of channel ch and LUN l, os being the pages of a oneshot page: first the pages of a oneshot page, then the channels, then the LUNs, then the next wordline |
| `Geometry.WalkStripes` | NVMevirt/conv_ftl.c:214-274 | each run of channels * os steps that starts at a multiple of that stays on one LUN number and one wordline and visits os pages on every channel in turn |
| `Geometry.WalkEnds` | NVMevirt/conv_ftl.c:252-266 | after wordlines * luns * channels * os steps the line is used up |
| `Geometry.NextIsSuccessor` | NVMevirt/conv_ftl.c:214-274 | one step of the write pointer raises the ordinal by one, and the line is used up exactly after its last page; by OrdIsWalk the ordinal is the number of steps |
| `Geometry.OrdIsWalk` | NVMevirt/conv_ftl.c:214-274 | the ordinal of a page is the number of steps the walk takes to it |
| `Geometry.WalkVisitsLine` | NVMevirt/conv_ftl.c:214-274 | from the first page the write pointer visits every page of a line once before it leaves it |
| `Geometry.LayoutAt` | NVMevirt/conv_ftl.c:36-50 | each address lies in the line of its block at its ordinal in the visiting order |
| `GcOrder.NextLun` | NVMevirt/conv_ftl.c:769-805 | visiting a flash page in the order of do_gc takes exactly its pages off those still to be copied |
| `TimeSlots.EarliestFitIffNoWrap` | XHarvest/Enclave/sgx_ftl.cpp:452-484 | a booking is the earliest free stretch at or after the request and exactly that stretch is removed, if and only if the unsigned subtraction does not wrap on the first slot it looks at |
| `TimeSlots.StepIsEarliestFit` | XHarvest/Enclave/sgx_ftl.cpp:452-484 | without a wrap the list stays sorted, separated and unbounded at its end, and no earlier start is possible |
| `TimeSlots.WrapOverbooks` | XHarvest/Enclave/sgx_ftl.cpp:473-484 | with a wrap the stretch that gets booked is not free |
| `TimeSlots.WrapTakesFirst` | XHarvest/Enclave/sgx_ftl.cpp:473-484 | it is the stretch from the start of the first slot that begins after the clock, however short, which is left ending before it begins |
| `TimeSlots.LateClockNeverWraps` | XHarvest/Enclave/sgx_ftl.cpp:473-475 | no wrap once the clock has reached the latency of the operation |
| `TimeSlots.WrapExample` | XHarvest/Enclave/sgx_ftl.cpp:473-484 | from the initial list two reads of 40 us at 100 us and 150 us and an erase issued at time 0: the erase is booked from 140 us on, over the second read |
| `TimeSlots.FlushKeeps` | XHarvest/Enclave/sgx_ftl.cpp:486-494 | the flush drops exactly the slots that end before its time, and keeps the list well formed and every free time from then on |
| `TimeSlots.FlushInvisible` | XHarvest/Enclave/sgx_ftl.cpp:486-494 | the flush never changes the answer to a request at its time or later |
| `TimeSlots.LunSlots.AdvanceTimeSlot` | XHarvest/Enclave/sgx_ftl.cpp:452-496 | the list changes by the modelled step and the flush; without a wrap no two bookings of a LUN overlap and the earliest free stretch is taken, with one the stretch taken was not free |
| `ChannelModel.Channel.Request` | NVMevirt/channel_model.c:37-120 | under a clock that does not go back no 4000 ns interval is ever charged beyond max_credits; a request within the window takes the fewest units of 128 bytes that hold it from the earliest credits of its own interval on, and ends after the transfer of those units and 4000 ns for each interval passed by beyond units / max_credits; one before the clock or beyond the window ends at once and charges nothing |
| `ChannelModel.Channel.MoveHead` | NVMevirt/channel_model.c:50-66 | moving on in time drops the intervals passed and refills their entries |
| `ChannelModel.Channel.Consume` | NVMevirt/channel_model.c:86-112 | the consuming loop ends, and valid_len covers every entry touched |
| `CreditRing.SlideKeepsLimit` | NVMevirt/channel_model.c:50-66 | the limit survives every jump of the clock, also one whose difference is cut to 32 bits |
| `CreditRing.ChargeKeepsLimit` | NVMevirt/channel_model.c:86-112 | the limit survives every charge |
| `CreditRing.TakeExactly` | NVMevirt/channel_model.c:86-106 | exactly the credits asked for leave the ring, but for those dropped when it is full |
| `CreditRing.TakeFrom` | NVMevirt/channel_model.c:86-106 | each interval is drained before the next one is touched, and credits are lost only after the last entry |
| `CreditRing.DrainedIsPassed` | NVMevirt/channel_model.c:86-106 | n drained intervals in a row are all passed by |
| `CreditRing.DrainedWaits` | NVMevirt/channel_model.c:115-119 | so a request behind n drained intervals takes at least (n - units / max_credits) * 4000 ns, as long as 32 bits hold its transfer time |
| `CreditRing.IdleTakes` | NVMevirt/channel_model.c:115-119 | with all intervals untouched it takes exactly the transfer time |
| `Dispatcher.RunsAreSafe` | NVMevirt/io.c:391-485 | however dispatchers and FTL threads interleave, the invariant holds and none of the assertions of the code is violated |
| `Dispatcher.EveryRun` | NVMevirt/io.c:391-485 | the same from the initial state on |
| `Dispatcher.StepOk` | NVMevirt/io.c:1091-1196 | every single step keeps the invariant and meets the assertions |
| `Dispatcher.InitOk` | NVMevirt/admin.c:120-160 | queue creation and thread set-up establish the invariant |
| `Dispatcher.ExactlyOnce` | NVMevirt/io.c:1108-1187 | a command has one completion entry, in its own queue, exactly when it is over; by then all its pieces are back and none ended later |
| `Dispatcher.NothingLost` | NVMevirt/io.c:1108-1187 | a command not posted yet is being split, has a piece under way or waits in the completed list |
| `Dispatcher.TagIffOutstanding` | NVMevirt/io.c:423-427 | tag_mapper[cid] is set exactly while a command with that identifier is outstanding and names its request |
| `Dispatcher.RequestsPartition` | NVMevirt/admin.c:144-152 | free requests and those of outstanding commands share out the numbers 1 .. queue_size |
| `Dispatcher.RemainingCounts` | NVMevirt/io.c:350-352 | remaining_req is the number of pieces under way |
| `Dispatcher.NoneFree` | NVMevirt/io.c:417-421 | a queue pair without a free request has as many commands outstanding as it is deep |
| `Dispatcher.PiecesCover` | NVMevirt/io.c:474-484 | a command not being split any more has pieces that follow each other from slba to slba + nlb |
| `Dispatcher.TilesCover` | NVMevirt/io.c:474-484 | pieces that follow each other hold every block of the command exactly once and no other block |
| `DispatcherPieces.EveryRunTold` | NVMevirt/io.c:391-485 | over every run what is handed out follows the splitting of each command, and the start and end times on the rings are those of the pieces, as the rows below say in detail |
| `DispatcherPieces.EntryIsPiece` | NVMevirt/io.c:334-370 | an entry on the ring to thread f is one of the pieces its command splits into, namely one for thread f with exactly its blocks, and carries the identity of the command and the time it was accepted |
| `DispatcherPieces.PartsTakeTurns` | NVMevirt/io.c:474-484 | the k-th piece of a command goes k threads further round than the first, every piece but the last is a whole segment of its thread, and each begins where the one before it ends, from the first block of the command to its last |
| `DispatcherPieces.PiecesAsSplit` | NVMevirt/io.c:459-484 | with the segments set up for two threads the pieces of a command are those of Split.Pieces, the first for the owner of its first block, so that Split.PiecesOwnedIff tells whether each thread gets its own blocks only |
| `DispatcherPieces.FirstIsOwner` | NVMevirt/io.c:459-463 | the first piece goes to the thread that owns the first block |
| `DispatcherPieces.BlocksHandedOut` | NVMevirt/io.c:474-484 | each block of a command that is split is in exactly one piece of it and no other block is in any |
| `DispatcherPieces.PieceOnLine` | NVMevirt/io.c:334-370 | a piece not back yet is on the line of its dispatcher and its thread, with its blocks |
| `DispatcherPieces.AnsweredAfterPieces` | NVMevirt/io.c:1124-1187 | a command is answered no earlier than its start plus the latency of each of its pieces |
| `DispatcherPieces.EndsWithLast` | NVMevirt/io.c:1124-1154 | it waits for nothing else: once all pieces are back, the time from which it may be posted is that of the piece that ends last |
| `DispatcherPieces.TakenOnce` | XHarvest/Enclave/sgx_ftl.cpp:1523-1640 | a piece is taken by its thread once, and the latency worked out then is the one it ends by |
| `DispatcherTimes.StepTimes` | NVMevirt/io.c:1124-1154 | every step keeps the times: the start of the command up to a thread, start plus latency behind it, and the latest of those back in nsecs_end |
| `Dispatcher.OldestReturnsFirst` | XHarvest/Enclave/sgx_ftl.cpp:1652-1728 | an FTL thread returns the pieces of a dispatcher in the order they were handed out |
| `Dispatcher.PoolNeverEmpty` | XHarvest/Enclave/sgx_ftl.cpp:1523-1558 | the pool of flight entries has one left whenever a thread takes a request |
| `Dispatcher.AcceptOk` | NVMevirt/io.c:391-458 | accepting a command: request taken, tag set, splitting begun |
| `Dispatcher.EnqueueOk` | NVMevirt/io.c:334-370 | handing a piece to a thread: the entry put on its ring carries the blocks of the piece and the identity of the command, and keeps doing so until it is back |
| `Dispatcher.DequeueOk` | NVMevirt/io.c:1108-1146 | taking a piece back, and listing the request after the last one |
| `Dispatcher.CompleteOk` | NVMevirt/io.c:1156-1187 | posting the first completed request and giving it back |
| `Dispatcher.TakeOk` | XHarvest/Enclave/sgx_ftl.cpp:1523-1640 | a thread takes a request of one dispatcher |
| `Dispatcher.DrainOk` | XHarvest/Enclave/sgx_ftl.cpp:1652-1728 | a thread returns what it has finished |
| `Dispatcher.PushInserts` | NVMevirt/io.c:41-59 | push_completed_req inserts behind the first entry that ends no earlier |
| `Dispatcher.InsertSortedIff` | NVMevirt/io.c:41-59 | so the completed list stays sorted exactly if the new end time is later than all others or equal to one of them |
| `Dispatcher.InsertElems` | NVMevirt/io.c:41-59 | the list gains exactly the new entry |
| `Dispatcher.UnsortedRun` | NVMevirt/io.c:41-59 | a run of eleven steps that leaves the completed list in the order 10, 5 |
| `DispatcherProgress.RingsNeverFill` | NVMevirt/io.c:334-370 | with rings of at least m entries for each request of the queue pairs of a dispatcher, and commands of m pieces at most, no ring fills, whatever the host does within its limits and however the threads interleave |
| `DispatcherProgress.LineFits` | NVMevirt/io.c:334-370 | the pieces between a dispatcher and a thread never outnumber that bound, and stay below it while a command is being split |
| `DispatcherProgress.AllPosted` | NVMevirt/io.c:1091-1196 | from every state with such rings some run, without a new command, posts every command accepted |
| `DispatcherProgress.EveryCommandCompletes` | NVMevirt/io.c:1091-1196 | so every run from the start can be continued until every command has its completion entry |
| `DispatcherProgress.ThreadReturns` | XHarvest/Enclave/sgx_ftl.cpp:1652-1728 | a thread with something to do returns a piece after finitely many of its steps |
| `FlagRing.Ring.Enqueue` | NVMevirt/io.c:334-370 | with room in the ring the entry is appended and no unread cell is written over; on a full ring the oldest unread entry is overwritten |
| `FlagRing.Ring.TryEnqueue` | XHarvest/Enclave/sgx_ftl.cpp:1660-1705 | the producer of the return ring succeeds exactly if there is room |
| `FlagRing.Ring.TryDequeue` | NVMevirt/io.c:1108-1146 | the consumer gets the oldest entry, exactly if there is one |
| `RingOrder.FlagsTell` | NVMevirt/io.c:343-347 | the set flags are the circular segment from consumer to producer, so each side learns from one flag all it needs |
| `RingOrder.WriteAppendsIffRoom` | NVMevirt/io.c:334-370 | an unguarded write appends exactly if the ring is not full; on a full ring the oldest unread entry is replaced |
| `CompletionQueue.Cq.Fill` | NVMevirt/io.c:795-845 | the n-th entry is written to slot n mod size with phase 1 - (n / size) % 2 |
| `CompletionQueue.PhaseTellsNew` | NVMevirt/io.c:825-838 | a host that was not overtaken finds the phase it expects exactly in new entries, and then finds the entry |
| `CompletionQueue.PostKeeps` | NVMevirt/io.c:825-838 | writing the next slot keeps the last lap of entries in place |
| `LruSpec.HoldsMostRecent` | XHarvest/Enclave/sgx_ftl.cpp:973-1138 | after any accesses the cache holds the pages used last, as many as it has slots, by their last use |
| `LruSpec.LargerHoldsMore` | XHarvest/Enclave/sgx_ftl.cpp:973-1138 | a larger cache holds everything a smaller one does |
| `LruSpec.DirtyIffUnsaved` | XHarvest/Enclave/sgx_ftl.cpp:993-1014 | a page is dirty exactly if flash does not have its last change, and such a page is always cached, so no change is lost |
| `LruSpec.RecencyNoDup` | XHarvest/Enclave/sgx_ftl.cpp:1098-1100 | the reference order lists each page used once |
| `LruSpec.RecencyOrder` | XHarvest/Enclave/sgx_ftl.cpp:1080-1100 | and of two pages in it the first has been used since the last use of the second |
| `MapCache.SgxCache.GetFtlPage` | XHarvest/Enclave/sgx_ftl.cpp:1128-1138 | one access of the cache on its slots and lists is one access of the LRU specification; a hit takes exactly the wait for the slot, a miss the wait for the slot it gets, plus the write-back exactly if all slots were in use and the page used longest ago was dirty, plus the read; while warming up only the wait |
| `MapCache.SgxCache.Hit` | XHarvest/Enclave/sgx_ftl.cpp:1080-1126 | a hit moves the page to the front, adds dirtiness and waits for the slot |
| `MapCache.SgxCache.Put` | XHarvest/Enclave/sgx_ftl.cpp:1018-1078 | a miss evicts exactly if no slot is free and reads the page into the slot, with the time the wait, the write-back and the read take |
| `MapCache.SgxCache.Pop` | XHarvest/Enclave/sgx_ftl.cpp:973-1016 | the page used longest ago leaves, written back exactly if dirty and not warming up, for as long as the write takes |
| `MapCache.SgxCache.ListIsMostRecent` | XHarvest/Enclave/sgx_ftl.cpp:1080-1100 | after any accesses SGXlist holds the pages used last, by their last use |
| `MapCache.SgxCache.MarkedIffUnsaved` | XHarvest/Enclave/sgx_ftl.cpp:993-1014 | a page has its last change missing in flash exactly if it is cached and its slot is marked dirty |
| `MapCache.BringInTurn` | XHarvest/Enclave/sgx_ftl.cpp:973-1078 | a dirty victim is written back exactly once, before the slot is filled again; operations on a slot never overlap |
| `MapCache.BringTakes` | XHarvest/Enclave/sgx_ftl.cpp:973-1078 | from when request and slot are both ready: the write-back if there is one, then the read, each for its whole latency; nothing while warming up |
| `MapCache.SlotsPartition` | XHarvest/Enclave/sgx_ftl.cpp:1018-1031 | every slot is on the free stack or holds one cached page |
| `EnclaveGc.EnclaveFtl.SsdWrite` | XHarvest/Enclave/sgx_ftl.cpp:1270-1345 | a request of at most a line of pages maps exactly its pages, get_next_free_line always finds a line, and a free line is left |
| `EnclaveGc.EnclaveFtl.ForegroundGc` | XHarvest/Enclave/sgx_ftl.cpp:1288-1296 | the collection loop ends, above the threshold, and does nothing if the free lines are above it already |
| `EnclaveGc.EnclaveFtl.BackgroundGc` | XHarvest/Enclave/sgx_ftl.cpp:1643-1648 | at or below the threshold, with a victim of which an eighth is invalid, the collection after a request gains pages; otherwise nothing changes |
| `EnclaveGc.EnclaveFtl.DoGc` | XHarvest/Enclave/sgx_ftl.cpp:1239-1268 | a collection takes a victim with the fewest valid pages, gains exactly its invalid ones and never lowers the number of free lines; it gives up exactly without a victim or, unforced, if all victims have less than an eighth invalid pages, and then changes nothing |
| `EnclaveGc.EnclaveFtl.Collect` | XHarvest/Enclave/sgx_ftl.cpp:1206-1237 | the victim is emptied and ends last on the free list with cleared counters, and only its valid pages cost room |
| `EnclaveGc.EnclaveFtl.SelectVictimLine` | XHarvest/Enclave/sgx_ftl.cpp:866-895 | a line with the fewest valid pages; none exactly if there is none or, unforced, if all have less than an eighth invalid pages |
| `EnclaveGc.EnclaveFtl.WritePage` | XHarvest/Enclave/sgx_ftl.cpp:155-212 | a page written costs exactly one page of room, across the change of lines |
| `EnclaveGc.EnclaveFtl.MarkPageInvalid` | XHarvest/Enclave/sgx_ftl.cpp:734-775 | the old page no longer counts, and a full line becomes a victim |
| `EnclaveGc.EnclaveFtl.WarmUp` | XHarvest/Enclave/sgx_ftl.cpp:1347-1382 | the warm-up maps exactly its pages, none of them mapped before, and leaves the FTL ready for requests |
| `LineCounts.VictimLeft` | XHarvest/Enclave/sgx_ftl.cpp:866-884 | while the free lines are at or below the threshold, and the logical pages leave room for it, there is a victim |
| `LineCounts.NoVictim` | XHarvest/Enclave/sgx_ftl.cpp:155-212 | without a victim all lines but the free ones and the current one are full of valid pages |
| `KvIndex.Index.Store` | NVMevirt/kv_ftl.c:505-640 | a new key gets the extent given; a stored key keeps its offset and takes over the new length exactly if both lengths are small; every other key keeps its extent |
| `KvIndex.Index.GetMappingEntry` | NVMevirt/kv_ftl.c:320-377 | the search ends for every table and, while no chain is broken, returns the stored extent or nothing |
| `KvIndex.Index.NewMappingEntry` | NVMevirt/kv_ftl.c:200-232 | a new key joins the map, and chains keep ending whatever the table looked like |
| `KvIndex.Index.UpdateMappingEntry` | NVMevirt/kv_ftl.c:268-318 | the length of a stored key changes, the status tells whether it was stored |
| `KvIndex.Index.DeleteMappingEntry` | NVMevirt/kv_ftl.c:438-490 | chains keep ending after every deletion; the other keys stay findable exactly if none is found by passing the slot |
| `KvIndex.Index.FindNextSlot` | NVMevirt/kv_ftl.c:164-198 | the end of the chain of a slot, and the first free slot from there on, round the table |
| `KvIndex.Index.Locate` | NVMevirt/kv_ftl.c:320-354 | the loop that three functions share finds a key exactly if it is stored |
| `KvTable.NoCycle` | NVMevirt/kv_ftl.c:159-232 | the links never form a cycle |
| `KvTable.InsertedRanked` | NVMevirt/kv_ftl.c:200-232 | linking a free slot to a chain end keeps the links acyclic |
| `KvTable.InsertRefines` | NVMevirt/kv_ftl.c:200-232 | insertion adds the key to the map and keeps every other key findable |
| `KvTable.DeleteRefinesIff` | NVMevirt/kv_ftl.c:480-483 | deletion removes the key and nothing else if and only if no other entry is found by passing the wiped slot |
| `KvTable.EndIsNotPassed` | NVMevirt/kv_ftl.c:480-483 | an entry without a live successor may always be deleted |
| `KvTable.DeleteExample` | NVMevirt/kv_ftl.c:480-483 | two keys with one home slot: deleting the first loses the second |
| `ZoneModel.RunOk` | NVMevirt/zns_mgmt_send.c:230-285 | over every run the counters are the numbers of zones holding each resource, within their totals, write pointers are in place, and the writes since reset tile a zone up to its write pointer |
| `ZoneModel.WriteOk` | NVMevirt/zns_read_write.c:64-175 | a write succeeds exactly if it starts at the write pointer in whole write units, stays in its zone and the zone is or can be opened; a failed write changes nothing |
| `ZoneModel.WriteFails` | NVMevirt/zns_read_write.c:104-124 | what a failed write reports: first a length that is no number of write units, then a zone boundary inside it, then a start off the write pointer, then what keeps the zone from being opened |
| `ZoneModel.ImplicitOpenOk` | NVMevirt/zns_read_write.c:126-166 | the zone of a write is opened exactly if it is closed or empty and no resource it lacks is used up; full, read-only and offline zones and each missing resource have their own status |
| `ZoneModel.OpenOk` | NVMevirt/zns_mgmt_send.c:66-106 | opening succeeds exactly if the state allows it and no missing resource is held by as many zones as may; each status has its exact condition, and a failure changes nothing |
| `ZoneModel.CloseOk` | NVMevirt/zns_mgmt_send.c:7-29 | closing succeeds exactly for active zones |
| `ZoneModel.FinishOk` | NVMevirt/zns_mgmt_send.c:31-64 | finishing makes every usable zone full and gives back what it held |
| `ZoneModel.ResetOk` | NVMevirt/zns_mgmt_send.c:108-156 | resetting empties every usable zone, with the write pointer at its start |
| `ZoneModel.OfflineOk` | NVMevirt/zns_mgmt_send.c:158-175 | only read-only zones go offline |
| `ZoneModel.FlushOk` | NVMevirt/zns_mgmt_send.c:177-228 | an explicit flush succeeds exactly inside the random write area of an active zone in whole flush groups, and fills the zone exactly at its end; an invalid field is reported exactly for a part of a flush group |
| `ZoneModel.ReleaseOk` | NVMevirt/zns_ftl.h:73-78 | the assertion of release_zone_resource: what a zone holds is counted |
| `ZoneModel.AllReleased` | NVMevirt/zns_mgmt_send.c:271-274 | after finishing or resetting all zones no resource is held, after closing all no zone is open |
| `ZoneModel.SendFromOk` | NVMevirt/zns_mgmt_send.c:271-274 | with select_all every command but opening does to each zone exactly what it does to that zone alone, and the invariant is kept |
| `ZoneModel.OpenAll` | NVMevirt/zns_mgmt_send.c:271-274 | opening all zones opens every zone whose state allows it unless a resource it lacks is used up in the end, and of two zones in the same state never only the later one |
| `ZoneModel.MgmtPointer` | NVMevirt/zns_mgmt_send.c:230-258 | management commands move a write pointer only by reset or, in a random write area, by flush |
| `ZoneModel.AdvancedOk` | NVMevirt/zns_read_write.c:17-39 | the write pointer moves over what was written and the zone fills exactly at its end |
| `Zns.ZnsFtl.ZmgmtSend` | NVMevirt/zns_mgmt_send.c:260-285 | the command on the real descriptors and counters is the modelled one, one zone after the other with select_all |
| `Zns.ZnsFtl.ZnsWrite` | NVMevirt/zns_read_write.c:64-175 | the write on the real descriptors and counters is the modelled one |
| `Zns.ZnsFtl.Open` | NVMevirt/zns_mgmt_send.c:66-106 | open with its fall-through cases |
| `Zns.ZnsFtl.Finish` | NVMevirt/zns_mgmt_send.c:31-64 | finish with its fall-through cases |
| `Zns.ZnsFtl.Reset` | NVMevirt/zns_mgmt_send.c:126-156 | reset with its fall-through cases |
| `Zns.ZnsFtl.Close` | NVMevirt/zns_mgmt_send.c:7-29 | close |
| `Zns.ZnsFtl.SetOffline` | NVMevirt/zns_mgmt_send.c:158-175 | offline |
| `Zns.ZnsFtl.FlushExplicitZrwa` | NVMevirt/zns_mgmt_send.c:177-228 | explicit flush |
| `Zns.ZnsFtl.IncreaseWritePtr` | NVMevirt/zns_read_write.c:17-39 | the write pointer and the release of both resources at the end of the zone; the boundary error is unreachable |
| `Zns.ZnsFtl.Acquire` | NVMevirt/zns_ftl.h:63-71 | a resource is taken exactly if one is available |
| `PrpTransfer.PerformIoUsingDma` | NVMevirt/io.c:170-263 | merging consecutive pages moves the same pairs of storage and memory bytes in the same order as the page by page walk |
| `PrpTransfer.PerformIo` | NVMevirt/io.c:90-165 | the page by page walk; a command that reaches past the storage moves nothing and says so |
| `PrpTransfer.WalkCovers` | NVMevirt/io.c:116-159 | the walk moves each byte of the request once, in the order of the storage area |
| `PrpTransfer.WalkFollowsPages` | NVMevirt/io.c:121-148 | each copy starts at its own PRP entry, stays within that page and fills it unless it is the last; the copies follow each other in the storage area |
| `PrpTransfer.WalkMovesBytes` | NVMevirt/io.c:116-159 | byte i of a command meets memory where the PRP entries put it: in the first page behind its offset, in the second entry itself if no more than a page is left, else in the page the list names |
| `PrpTransfer.MergeRun` | NVMevirt/io.c:225-260 | a run of consecutive entries, with the clipping at its last page |
| `Split.PiecesOwnedIff` | NVMevirt/io.c:459-485 | every piece stays with the thread that owns its blocks if and only if the request starts at a segment boundary or does not reach the next one |
| `Split.SplitRequest` | NVMevirt/io.c:474-484 | the splitting loop yields these pieces |
| `Split.RestIsOwn` | NVMevirt/main.c:874-882 | a segment ends exactly where the other thread's next one begins |
| `Split.WarmUpOwned` | XHarvest/Enclave/sgx_ftl.cpp:1362-1370 | every page the warm-up fills belongs to thread 1, as it asserts |
| `Split.WarmUpAscends` | XHarvest/Enclave/sgx_ftl.cpp:1362-1370 | no page is filled twice |
| `Split.WarmUpReaches` | XHarvest/Enclave/sgx_ftl.cpp:1362-1370 | the warm-up leaves out no page of thread 1 on its way |
| `Split.WarmUpFits` | XHarvest/Enclave/sgx_ftl.cpp:1359-1368 | the pages filled are pages of the host, if two units of thread 0 are |
| `Split.WarmUpShare` | XHarvest/Enclave/sgx_ftl.cpp:1359-1360 | the number of pages filled is half of the share of thread 1 in the pages of the host, rounded down |
| `WorkQueue.Worker.Enqueue` | NVMevirt/io.c:265-332 | exactly if more than one entry is free, the first of them moves right behind the last entry of the I/O chain that is due or ends no later; no other entry changes, and the order by target time is kept |
| `WorkQueue.Worker.Reclaim` | NVMevirt/io.c:595-644 | the longest prefix of entries that are over returns to the end of the free chain |
| `WorkQueue.Worker.Allocate` | NVMevirt/io.c:311-332 | the last free entry is never handed out |
| `WorkQueue.Worker.Search` | NVMevirt/io.c:282-291 | the search from the end stops behind the last entry that is due or ends no later |
| `WorkQueue.Worker.Link` | NVMevirt/io.c:293-308 | linking at the head, at the tail or in between |
| `Chains.InsertOrdered` | NVMevirt/io.c:282-308 | insertion keeps every entry ahead of the clock followed only by entries due no earlier |
| `Chains.OrderedLater` | NVMevirt/io.c:284-285 | time passing keeps that order |
| `Chains.DueComeFirst` | NVMevirt/io.c:610-622 | a scan that stops at the first entry not yet due has seen all that are |

## Left out

* NAND and PCIe timing, the write buffer, and how conv_read groups pages into flash reads.
* Payloads: page contents are ghost data that a copy carries along; the emulator keeps them outside the FTL.
- ConvNamespace.ConvWriteOk: a request that finds no room in the write buffer is refused as well (conv_ftl.c:965-967); the buffer is not modelled. The loop over partitions is modelled on values, one partition at a time, so the arrays of the partitions as separate objects are not captured; WriteLpn covers each partition in place.
- FtlLimits.LimitIff: lines of at least five pages. Down to two pages NeverStarves holds as well; where a run first starves is not stated for lines of two to four pages.
* Assertions that are not proof obligations: that a ring has room before a piece is written to it (FlagRing.Ring.Enqueue and RingOrder.WriteAppendsIffRoom say what happens otherwise, DispatcherProgress.RingsNeverFill when it cannot), pointers that are not null, opcodes and command set identifiers, list lengths right after initialisation, the constants npgs and pl, those of clean_one_block in conv_ftl.c, which nothing calls, and in the enclave FTL those on page states and block counters (sgx_ftl.cpp:744-751, 784-789, 811, 907, 916) on page numbers and the coordinates of the write pointer, and on the thread a line belongs to (1257), none of which EnclaveGc has.
* Planes: one plane per LUN, as the code assumes.
- Dispatcher.InitOk: the code allocates queue_size requests and one byte more (admin.c:144) and hands out the numbers 1 to queue_size, so that request queue_size lies past the end; the model has that entry.
- Dispatcher.RunsAreSafe: an SQ uses the CQ of its own number, as an assertion of the code demands; the host keeps to its queue depth and to unique identifiers, and no ring falls behind by a whole lap (DispatcherProgress.RingsNeverFill gives sizes for which that is so). Below the level of the atomic flags, memory order is not modelled.
- CompletionQueue.PhaseTellsNew: doorbells are not modelled; that the host is not overtaken is an assumption of this lemma.
* The start-up bypass for the first requests, interrupts, statistics and deletion of queues.
- EnclaveGc.EnclaveFtl.SsdWrite: pages are located by line only and copied in any order; the mutex around the line lists is not modelled, each FTL thread having its own.
* The constructors of MapCache and EnclaveGc take what is set up in files that are not part of this model (the free stack, the lines of a thread) as arguments.
- MapCache.SgxCache.GetFtlPage: the two flash latencies are inputs; the list iterator kept in the map is modelled as the one place of the page in the list.
- TimeSlots.LunSlots.AdvanceTimeSlot: calls are made on a list that is well formed; what a list is worth after a booking that wrapped is not followed further.
- EnclaveGc.EnclaveFtl.WarmUp: two units of thread 0 fit into the host's pages; with fewer the code may fill pages beyond those of the host.
- TimeSlots.EarliestFitIffNoWrap: latencies are positive and the clock stays below the end of time.
- WorkQueue.Worker.Enqueue: one queue; the choice of a worker and the worker thread that changes latest_nsecs and the completion flags while the dispatcher searches are modelled as separate steps.
* Zones: writes to a zone with a random write area, for which the shipped sizes are zero, the timing of writes, and the zone descriptor extension; an explicit flush needs nonzero area sizes, as it divides by one of them.
- KvIndex.Index.Store: keys of one length; the allocators, value bytes, iterators and batches are not modelled, and a new key needs a free slot, without which the search for one does not end.
- PrpTransfer.PerformIoUsingDma: the command has at most 512 pages, the size of the array that collects them; the list holds the entries needed and only the first page is entered in its middle, as section 4.3 of the NVM Express Base Specification 1.4 demands.
* `simple_ftl`, the admin queue, PCI emulation and the encryption-core timing.
