# Verified model of the core of the Lusca cache

A Dafny model of the libraries under the Lusca (Squid) proxy cache whose correctness is hardest to see
from the code, with proofs about every input and every run:

- **the allocator** (`MallocBins`, `ChunkLayout`, `FreeLists`, `BoundaryTags`, `Payload`, `MallocSteps`, `Dlmalloc`,
  `ArenaFacts`): malloc, free and realloc on one word-addressed memory with boundary tags, doubly linked bins,
  `last_remainder`, `binblocks` and `top`. The class `Dlmalloc.Arena` writes the same words as the C code; a ghost tiling
  and ghost lists say what they mean. The caller's view is `Blocks()`, the live blocks with their contents.
- **the threaded I/O queue** (`AioProtocol`, `AioProperties`, `AioRuns`, `AioProgress`, `AioSync`, `AioDone`,
  `AioPipe`): one main thread and any number of workers as a transition system whose steps are the atomic actions of the
  code; theorems over all runs, also that sync and drain can always end. `AioQueues` has the linked queues with their
  `tailp` pointers, and lemmas that they hold what the steps of the transition system put there.
- **the radix tree** of address prefixes (`RadixBits`, `Radix`), on linked nodes and on bytes.
- **the helper scheduler** (`Helper`): backlog, least loaded server, numbered slots, crashes and shutdown.
- **the hash table with its cursor** (`Hash`), **the splay tree** (`Splay`) and **the binary heap** (`Heap`), on linked
  nodes and handles. `SplayCost` proves the amortised cost of splaying over whole runs, in powers of two instead of
  logarithms.
- **DNS names, queries and replies** (`Rfc1035`, `DnsQuery`, `DnsAnswers`), **MD5** (`Md5`; `Md5Steps` for the steps of RFC
  1321, `Md5Answers` for two of its known answers) and **the callback-data registry** (`Cbdata`). `Options` has the option type.

## How to read it

Every class has an invariant (`Valid`) that each method keeps and a few functions that give its abstract contents; the
`ensures` clauses tie the new contents to the old ones. Where a structure is linked, ghost fields name its contents
(chains, keys, trees, a tiling) and the invariant ties each field of each object to them.

Six promises turn out not to hold as one would state them first; the exact condition is proved instead.

- A finished I/O request can wait with an empty pipe although no worker is between its append and its write: a worker that
  holds the done queue's lock and has not appended makes the main thread's trylock fail after it has cleared the flag.
  `LockHolderIsNeeded` is such a run; `NoLostSignal` is the statement with that worker counted in. The worker signals after
  its append, so the delay ends with that signal.
- A request that went to `request_queue2` because a worker held the lock can stay there with all workers asleep and nothing
  in the pipe. `OverflowStrands` is such a run; `OverflowIsTold` says exactly when the main thread will be told to poll.
- `radix_search_best` for a query shorter than some stored prefixes can return a prefix longer than the query. `Best` has the
  condition, and `FullQueries` the case of full addresses, for which the result is the longest match; `ShortQuery`
  shows the other one.
- `request2size` computes with 32 bits; a block returned is large enough if and only if the request is below 2^31 - 11 bytes
  (`RequestFits`, `Malloc`, `Realloc`).
- `realloc` tests for room in top with `(long)(nb + MINSIZE)`, which is negative for requests from 2^31 - 27 up to 2^31 - 12
  bytes. A block that borders top is then given a top outside memory. `Expand` and `Realloc` have this as their outcome
  `overrun`, with the exact condition, and promise everything else when it does not hold.
- A DNS name whose first labels fill the 256-octet buffer exactly is accepted cut off, and the fields are then read from inside
  the name. `StandsUnlessFull` has the condition and `FullRecord` such a message; `UnpacksToMeaning` covers
  all names that are short enough.

Conventions: the allocator's addresses are word indexes (4-byte words), with the `av_` array below the arena; `top` and
`binblocks` are fields instead of words of `av_`, and `top == 0` stands for `initial_top`. sbrk does not take the break past
2^31: beyond that a `long` cannot hold the difference of two chunk sizes (`ExcessIsExact`), and malloc passes over chunks that
fit. In the I/O queue, every lock operation and every access to a variable that another thread may touch at that time is a
step of its own, under sequential consistency; condition variables may wake spuriously; the choice of the woken waiter, of
the handler's validity and of the end of the drain are free. In the helper, hash and heap modules the caller's data, clocks,
started processes and the validity of callback data are parameters.

## Model

| member | source | states |
|---|---|---|
| `Dlmalloc.Arena.Malloc` | lib/dlmalloc.c:2033-2263 | the block is new, aligned and of the padded size; every other live block keeps its contents; for all answers of sbrk: the block is an exact fit of the request's bin, else cut from last_remainder if that reaches, else cut from a smallest binned chunk that fits, else at the old top, and what is cut off becomes last_remainder; 0 is returned, or memory grown, only when no free chunk fits and top is too short; a block returned is large enough exactly when the request is below 2^31 - 11 bytes; a block is returned whenever sbrk grants what is asked and the break stays within 2^31 |
| `Dlmalloc.Arena.Free` | lib/dlmalloc.c:2290-2380 | exactly the freed block leaves the live blocks, the contents of the others are kept, and the whole arena invariant holds again; the chunk that it and its free neighbours make is in the bin of its size, or is last_remainder if a neighbour was, and every other free chunk stays in its bin; free(0) changes nothing |
| `Dlmalloc.Arena.Realloc` | lib/dlmalloc.c:2422-2616 | on every path (shrink, forward, into top, backward, both ways, malloc-copy-free) the result has the padded size and the old contents up to the shorter length, other blocks are unchanged, failure changes nothing; for all answers of sbrk: a block that is large enough, or that a free successor or top lets grow, stays where it is, else one that a free predecessor lets grow is at that predecessor, else it is where malloc puts a new one, and 0 means that there is nowhere; the code writes the head of a top outside memory if and only if the block borders top and the request is from 2^31 - 27 up to 2^31 - 12 bytes |
| `Dlmalloc.Arena.Expand` | lib/dlmalloc.c:2483-2571 | with the tests as 32-bit longs: an expanded block has the old contents and keeps the invariant; it stays at its place if and only if a free successor or top reaches far enough, otherwise it is at the free predecessor that does with what follows, and nothing changes if and only if there is neither; the block is given a top outside memory exactly when it borders top and the padded size plus MINSIZE wraps |
| `Dlmalloc.Arena.Resize` | lib/dlmalloc.c:2452-2600 | realloc of a block: shrink, expand or move, each exactly when the neighbours say so, and the exact condition for leaving memory |
| `MallocSteps.ReachesIsExact` | lib/dlmalloc.c:2496-2556 | inside the arena the signed test against nb is the integer one always, and the one against nb + MINSIZE exactly when that sum stays below 2^31; if it does not, the test succeeds for every size |
| `MallocSteps.WrappingRequests` | lib/dlmalloc.c:2452-2496 | the sum wraps for requests from 2^31 - 27 up to 2^31 - 12 bytes and no others |
| `MallocSteps.WrappingRequest` | lib/dlmalloc.c:2496-2496 | at 2^31 - 12 bytes any block that borders top passes the test, whatever there is |
| `MallocSteps.ExcessIsExact` | lib/dlmalloc.c:2091-2105 | remainder_size, a long, is the difference of the sizes exactly while that is below 2^31 |
| `Dlmalloc.Arena.Move` | lib/dlmalloc.c:2573-2593 | the malloc-copy-free fallback, including the case that the new chunk is the old one's successor: the place is the one malloc chooses, and 0 means that it has none |
| `MallocSteps.GrowthTold` | lib/dlmalloc.c:2493-2570 | what the code learns from the neighbours tells whether the block can grow at its place or at a free predecessor |
| `MallocSteps.NoGrowthToLimit` | lib/dlmalloc.c:2496-2534 | a size that wraps when MINSIZE is added fits nowhere in the arena |
| `Dlmalloc.Arena.ExpandForward` | lib/dlmalloc.c:2506-2512 | joining a free successor keeps contents and invariant |
| `Dlmalloc.Arena.ShiftBack` | lib/dlmalloc.c:2548-2570 | moving the contents down into a free predecessor (overlapping copy) keeps them |
| `Dlmalloc.Arena.ExpandTop` | lib/dlmalloc.c:2493-2546 | growing into top, with or without the predecessor |
| `Dlmalloc.Arena.SplitTail` | lib/dlmalloc.c:2597-2616 | the tail of a resized chunk is cut off and freed, the head keeps its contents |
| `Dlmalloc.Arena.Copy` | lib/dlmalloc.c:424-440 | ascending word copy moves a block down correctly even when source and target overlap |
| `Dlmalloc.Arena.FreeIntoTop` | lib/dlmalloc.c:2325-2344 | a block bordering top, with its free predecessor, becomes part of top |
| `Dlmalloc.Arena.FreeIntoBin` | lib/dlmalloc.c:2346-2380 | coalescing with both neighbours, special treatment of last_remainder, filing in the right bin, with every other chunk left in its list |
| `Dlmalloc.Arena.SearchFree` | lib/dlmalloc.c:2054-2234 | the three searches together miss no free chunk that fits, take from them in their order, and make the cut-off part last_remainder; memory and top stay |
| `Dlmalloc.Arena.FindExact` | lib/dlmalloc.c:2054-2110 | the last fitting chunk of the bins where a fit is exact, or the bin from which to scan on, and then no chunk is an exact fit |
| `Dlmalloc.Arena.TryRemainder` | lib/dlmalloc.c:2112-2142 | last_remainder is split, used whole, or filed in its bin; then it is empty and nothing else has changed |
| `Dlmalloc.Arena.ScanBins` | lib/dlmalloc.c:2149-2234 | scanning by bin blocks finds a smallest fitting chunk or proves that there is none; of the blocks passed just those with a chunk stay marked, the other marks are unchanged |
| `Dlmalloc.Arena.ClearBlock` | lib/dlmalloc.c:2204-2217 | the block bit is cleared if and only if all its bins are empty |
| `Dlmalloc.Arena.UseTop` | lib/dlmalloc.c:2237-2262 | a top with room gives the chunk at its start whatever sbrk would say, without a call; otherwise it is extended first; succeeds when sbrk grants and the break stays within 2^31 |
| `Dlmalloc.Arena.TopSize` | lib/dlmalloc.c:1390-1466 | the size of top; before there is one, the binblocks word that is read for it is 0 |
| `Dlmalloc.Arena.ExtendTop` | lib/dlmalloc.c:1862-1966 | more core from a contiguous sbrk enlarges top by what is asked, rounded to pages, and leaves chunks and blocks alone; top ends at a page boundary; with both requests granted and the break within 2^31 there is room for the chunk and a remainder |
| `Dlmalloc.Arena.Frontlink` | lib/dlmalloc.c:1668-1695 | a chunk enters its bin at the place that keeps the bin sorted by decreasing size, and the bin is marked |
| `Dlmalloc.Arena.Unlink` | lib/dlmalloc.c:1700-1705 | the chunk leaves its list, all lists stay proper |
| `Dlmalloc.Arena.LinkLastRemainder` | lib/dlmalloc.c:1710-1714 | last_remainder holds exactly this chunk |
| `Dlmalloc.Arena.constructor` | lib/dlmalloc.c:1396-1414 | the start state satisfies the invariant with no blocks |
| `Dlmalloc.Arena.Write` | lib/dlmalloc.c:1128-1144 | a caller's write inside its block changes that word and keeps the invariant |
| `MallocSteps.RequestFits` | lib/dlmalloc.c:1219-1222 | the padded size holds the request exactly when the request is below 2^31 - 11; above that it wraps to the minimum |
| `MallocSteps.Correction` | lib/dlmalloc.c:1910-1925 | the second sbrk request aligns the first chunk and ends the space at a page boundary |
| `MallocSteps.BinsBySize` | lib/dlmalloc.c:1427-1436 | a chunk in an earlier bin is smaller than the request, one in a later bin is larger |
| `MallocSteps.FreedChunk` | lib/dlmalloc.c:2346-2380 | the writes of free merge the chunks around the block and remove just that block |
| `MallocSteps.FreedIntoTop` | lib/dlmalloc.c:2325-2344 | the same for a block that borders top |
| `MallocSteps.CarvedChunk` | lib/dlmalloc.c:2119-2128 | splitting a free chunk makes one block and one free chunk and keeps all tags true |
| `MallocSteps.TookChunk` | lib/dlmalloc.c:2073-2077 | handing out a whole free chunk makes just one new block |
| `MallocSteps.JoinedRegion` | lib/dlmalloc.c:2506-2570 | a chunk joined with its free neighbours keeps the invariant and the other blocks |
| `MallocSteps.GrownIntoTop` | lib/dlmalloc.c:2493-2546 | a chunk grown into top keeps the invariant and the other blocks |
| `MallocSteps.SplitPending` | lib/dlmalloc.c:2597-2612 | cutting a joined chunk in two live ones |
| `MallocBins.BinIndexMonotone` | lib/dlmalloc.c:1427-1436 | bin_index is monotone in the size |
| `MallocBins.LaterBinIsLarger` | lib/dlmalloc.c:1427-1436 | a chunk in a later bin than the request's is larger than the request |
| `MallocBins.SmallBinExact` | lib/dlmalloc.c:1444-1450 | a small bin holds one size only |
| `MallocBins.BlockLeqMeansMarkedAbove` | lib/dlmalloc.c:2149-2165 | block <= binblocks guarantees a marked block at or above it, so the skipping loop stops |
| `MallocBins.SetBitAt` | lib/dlmalloc.c:1470-1471 | marking a block changes one bit |
| `MallocBins.ClearBitAt` | lib/dlmalloc.c:1472-1472 | clearing a block changes one bit |
| `ChunkLayout.TilingIsExact` | lib/dlmalloc.c:1527-1545 | every word of the arena below top lies in exactly one chunk |
| `BoundaryTags.FootLeadsBack` | lib/dlmalloc.c:1548-1580 | a clear PREV_INUSE bit means that prev_size leads to the free chunk before |
| `BoundaryTags.MergeTags` | lib/dlmalloc.c:2346-2377 | the tags written by a merge describe the merged tiling |
| `BoundaryTags.SplitTags` | lib/dlmalloc.c:2119-2128 | the tags written by a split describe the split tiling |
| `FreeLists.UnlinkLinked` | lib/dlmalloc.c:1700-1705 | unlinking keeps every bin a proper doubly linked list |
| `FreeLists.InsertLinked` | lib/dlmalloc.c:1668-1695 | inserting between two neighbours keeps every bin a proper doubly linked list |
| `FreeLists.FdTellsRemainder` | lib/dlmalloc.c:2356-2372 | the test fd == last_remainder recognises just the chunk in last_remainder |
| `Payload.BlocksKept` | lib/dlmalloc.c:1527-1636 | live blocks outside the words rewritten keep their contents |
| `ArenaFacts.BlocksApart` | lib/dlmalloc.c:1613-1635 | live blocks lie in the arena, are 8-byte aligned and do not overlap |
| `ArenaFacts.FreeLinkedOnce` | lib/dlmalloc.c:1548-1580 | every free chunk is linked exactly once, in the bin of its size, which binblocks marks, or in last_remainder |
| `ArenaFacts.LinkedAreFree` | lib/dlmalloc.c:1548-1580 | only free chunks are linked |
| `ArenaFacts.Coalesced` | lib/dlmalloc.c:1548-1612 | a free chunk's foot is its size, it borders no free chunk and not top, and each PREV_INUSE bit is true of the chunk before |
| `AioRuns.NoLostSignal` | libasyncio/aiops.c:361-369 | in every reachable state outside the drain loop, finished work not yet handed out has a byte in the pipe, unless a worker is between locking the done queue and writing one |
| `AioRuns.LockHolderIsNeeded` | libasyncio/aiops.c:778-813 | a run in which a finished request waits with an empty pipe while the only worker near the signal holds the lock and has not appended: that worker cannot be left out of the condition |
| `AioRuns.NoStrandedWork` | libasyncio/aiops.c:308-317 | with requests in the request queue, some worker is not blocked in the condition wait, or all are and the main thread is at its signal, between append and unlock, and wakes one; one signal publishes a whole batch |
| `AioProgress.OverflowIsTold` | libasyncio/aiops.c:397-416 | the main thread is between calls with requests in request_queue2: whatever the workers do until none can go on, the pipe is readable then, so that the main thread will poll, if and only if some request was with the workers or on its way back |
| `AioProgress.OverflowStrands` | libasyncio/aiops.c:397-416 | a run to a state where that is not so: the only request is in request_queue2, the only worker waits, the pipe is empty, and only another call moves the request |
| `AioProgress.QuietOverRuns` | libasyncio/aiops.c:303-365 | the workers alone neither begin nor end such a quiet time and do not touch request_queue2 |
| `AioProgress.QuietMeans` | libasyncio/aiops.c:303-365 | in a quiet time every request is finished or in request_queue2 |
| `AioProgress.Settles` | libasyncio/aiops.c:303-365 | from every state the workers can be run until none can go on |
| `AioProgress.WorkIsFinite` | libasyncio/aiops.c:303-365 | every step of a worker brings the workers nearer to their wait |
| `AioProgress.PollMoves` | libasyncio/aiops.c:768-778 | a poll that gets the lock moves all of request_queue2 behind the request queue |
| `AioRuns.CancelledUnwritten` | libasyncio/aiops.c:460-497 | after a cancel, the result of the request is not written however the run goes on |
| `AioRuns.WrittenWhileUsed` | libasyncio/aiops.c:460-497 | a result is written only while its control block is on used_list |
| `AioRuns.MutualExclusion` | libasyncio/aiops.c:303-365 | the two queue mutexes exclude workers and main thread from each other in every reachable state |
| `AioRuns.ExactlyOnePlace` | libasyncio/aiops.c:385-417 | in every reachable state each submitted request is in exactly one place |
| `AioRuns.TakenInOrder` | libasyncio/aiops.c:385-417 | workers have taken a prefix of the submissions, in order, despite the trylock overflow queue |
| `AioSync.SyncDrains` | libasyncio/aiops.c:838-846 | in every reachable state, the step that ends squidaio_sync, called by itself or from a submission, leads to a state in which both request queues, the workers and the done queue are empty |
| `AioSync.SyncReturnsDrained` | libasyncio/aiops.c:838-846 | the same from the call of sync to its return, over every run in between |
| `AioSync.SyncCanReturn` | libasyncio/aiops.c:838-846 | from every reachable state inside sync there is a run of workers and main thread to its return: the loop cannot get stuck |
| `AioSync.HandledAsCalled` | libasyncio/async_io.c:431-475 | over every run, each request's handler is called once for each step that hands it out or cancels it while its data is valid, and at no other time |
| `AioSync.CalledOnce` | libasyncio/async_io.c:227-262 | a finished request's handler was called once if its data was valid when it ended, and else never |
| `AioPipe.PipeStaysSmall` | libasyncio/aiops.c:361-369 | with up to 128 workers, in every reachable state the pipe holds at most two bytes for each worker, so that it never fills and one read of 256 bytes empties it |
| `AioPipe.PipeFits` | libasyncio/aiops.c:361-369 | with any number of workers the pipe never holds more than its capacity |
| `AioDone.PollReturns` | libasyncio/aiops.c:794-831 | a call of squidaio_poll_done with something done drops the cancelled requests at the front and hands out the first other one, without a poll and with nothing else changed |
| `AioDone.HandsOutAll` | libasyncio/async_io.c:431-475 | from every state between calls, a drain comes to its end by steps of the main thread alone, and then all requests on the done list, and in the done queue unless a worker has locked it, are finished in order |
| `AioDone.CancelsAtOnce` | libasyncio/async_io.c:227-262 | between calls a request in use can be cancelled; its block is released then, and its handler called if its data is valid |
| `AioRuns.FinishedOnce` | libasyncio/async_io.c:431-475 | a finished request was returned or cancelled but not both, its result was written once if it was not cancelled and never if it was, its control block was released exactly once, its handler called at most once |
| `AioRuns.UnfinishedBlock` | libasyncio/async_io.c:227-262 | an unfinished request owns a block on used_list or was cancelled, and its result has not been written; a cancelled one is never returned |
| `AioRuns.InvOverRuns` | libasyncio/aiops.c:275-458 | the combined invariant holds after every run of any length |
| `AioRuns.InitInv` | libasyncio/aiops.c:157-254 | the start state with any number of workers satisfies it |
| `AioProtocol.LocksKept` | libasyncio/aiops.c:303-365 | every step keeps lock ownership true |
| `AioProperties.SignalKept` | libasyncio/aiops.c:361-369 | every step keeps the signal invariant: a set flag has a byte behind it, and waiting work is told of |
| `AioProperties.NotStrandedKept` | libasyncio/aiops.c:308-317 | every step keeps queued work from being stranded |
| `AioProperties.PlacesKept` | libasyncio/aiops.c:385-417 | a step changes the number of places of a request just as it changes the submissions |
| `AioProperties.ConservedKept` | libasyncio/aiops.c:765-792 | conservation and request_queue_len are kept by every step |
| `AioProperties.CountedKept` | libasyncio/aiops.c:765-792 | request_queue_len counts the requests queued, in hands and in the done queue |
| `AioProperties.OrderedKept` | libasyncio/aiops.c:385-417 | every step keeps the submission order |
| `AioProperties.ReleasedKept` | libasyncio/async_io.c:227-262 | every step keeps the account of control blocks |
| `AioQueues.Submit` | libasyncio/aiops.c:387-417 | on the linked queues: the request joins the end of the request queue behind all that overflowed, or the end of the overflow queue while the first is locked; both chains stay well linked with tailp at their end |
| `AioQueues.KickOverflow` | libasyncio/aiops.c:768-778 | the whole overflow chain goes behind the request queue, in order, unless that is locked |
| `AioQueues.Collect` | libasyncio/aiops.c:779-792 | the done chain goes behind the list of done requests, in order, and the count falls by its length |
| `AioQueues.TakeDone` | libasyncio/aiops.c:802-822 | takes the first done request, and resets tailp when it was the last |
| `AioQueues.Queue.Put` | libasyncio/aiops.c:357-360 | linking through tailp adds at the end, also to an empty queue |
| `AioQueues.Queue.Pop` | libasyncio/aiops.c:308-317 | a worker takes the first request; the last one resets tailp |
| `AioQueues.SubmitMatches` | libasyncio/aiops.c:387-417 | what Submit leaves in the linked queues is what the steps of the transition system leave in its sequences |
| `AioQueues.KickMatches` | libasyncio/aiops.c:768-778 | the same for the overflow queue |
| `AioQueues.CollectMatches` | libasyncio/aiops.c:779-792 | the same for the done queue and the count |
| `AioQueues.TakeMatches` | libasyncio/aiops.c:802-822 | the same for the list of done requests |
| `AioQueues.WorkerMatches` | libasyncio/aiops.c:303-365 | the same for what a worker takes and puts |
| `AioQueues.Joined` | libasyncio/aiops.c:765-792 | two well linked chains joined at the last next field are one, in order |
| `Helper.Pool.GetFirstAvailable` | libhelper/helper.c:894-926 | a server exactly when an eligible one has spare capacity: the first eligible one, unless it is busy and a later one has less to do, and then the first such |
| `Helper.Pool.Submit` | libhelper/helper.c:295-314 | with a server that has room, the request is in the first free slot of the chosen one and last on its wire if its callback data is valid, and silently over if not, and the backlog was empty; without one it is at the end of the backlog; no other request moves; the code gives up exactly when the backlog is then too long and no warning is recent |
| `Helper.Pool.Kick` | libhelper/helper.c:1069-1076 | sends from the front of the backlog until it is empty or no server has room; what was sent is in a slot if its data is valid and silently over if not |
| `Helper.Pool.Dispatch` | libhelper/helper.c:992-1032 | the request takes the server's first free slot and nothing else changes; with stale callback data it ends silently and is unlocked |
| `Helper.Pool.Enqueue` | libhelper/helper.c:820-842 | the backlog grows at its end, with the exact condition for giving up and for a warning |
| `Helper.Pool.Overload` | libhelper/helper.c:820-842 | exactly when the code warns of, and gives up on, too long a backlog |
| `Helper.Pool.Dequeue` | libhelper/helper.c:868-879 | the backlog shrinks at its front |
| `Helper.Pool.HandleReply` | libhelper/helper.c:715-753 | a reply on a channel finishes the request last written on that channel, once, and unlocks its data; a reply on a free or unknown channel changes nothing |
| `Helper.Pool.HandleRead` | libhelper/helper.c:677-764 | a batch of replies ends exactly the requests its lines name, each with its own text, and leaves all others where they were or sends them on, into a slot if their data is valid, so that what is over stays as it ended; a server that is to go is closed exactly when nothing is left in its slots; the pool is quiet again |
| `Helper.Pool.HandleReplies` | libhelper/helper.c:701-753 | line by line, each reply finishes what its slot holds at that point; nothing that is over changes |
| `Helper.Pool.ServerFree` | libhelper/helper.c:587-632 | the requests in a lost server's slots end, told of the failure if their data is valid; other requests in slots and the other servers stay; new servers are started, or the code gives up, exactly as the counts and the last restart say; what the backlog then sends is in a slot if its data is valid; the pool is quiet again |
| `Helper.Pool.OpenServers` | libhelper/helper.c:118-201 | one new server for each process that started, after the old ones, and they take from the backlog what is valid |
| `Helper.Pool.Shutdown` | libhelper/helper.c:411-470 | all servers are marked, just the idle ones among those not marked before are closed, no request is touched, and no server counts as active |
| `Helper.Pool.DispatchDone` | libhelper/helper.c:953-990 | a server that has finished writing is closed exactly when it is to go and has nothing pending |
| `Helper.Pool.RequestFree` | libhelper/helper.c:1089-1095 | one unlock for the end of one request, keeping the locks equal to the open requests of each callback data |
| `Helper.Pool.InOrder` | libhelper/helper.c:295-314 | no overtaking: what was sent is a prefix of what was submitted and the backlog is the rest |
| `Helper.Pool.OneSlot` | libhelper/helper.c:992-1032 | a request is in at most one slot, and then neither in the backlog nor over |
| `Helper.Pool.Bounded` | libhelper/helper.c:992-1032 | pending equals the occupied slots and never exceeds their number, which is one unless the helper takes requests by number |
| `Helper.Pool.constructor` | libhelper/helper.c:537-545 | an empty pool, with the settings given, is valid and quiet |
| `Radix.Tree.Lookup` | libcore/radix.c:365-501 | afterwards the tree is well formed and holds exactly the old prefixes and this one, at the old node if it was there already; other nodes keep their prefixes |
| `Radix.Tree.Remove` | libcore/radix.c:504-575 | afterwards the tree is well formed and holds exactly the old prefixes without this node's |
| `Radix.Tree.SearchExact` | libcore/radix.c:277-309 | finds the node that holds the prefix exactly when one does |
| `Radix.Tree.SearchBest` | libcore/radix.c:312-355 | the longest matching stored prefix not longer than the query, unless, inclusively, the way down ends at a longer stored prefix that the whole address matches; the stack never needs more than 129 entries |
| `Radix.Tree.Best` | libcore/radix.c:358-362 | returns the longest stored prefix of the query if and only if the way down does not end at a stored prefix longer than the query; what the way down ends at is returned if it is stored and matches |
| `Radix.ShortQuery` | libcore/radix.c:358-362 | after one lookup of a 16-bit prefix, a query for 8 bits of the same address returns that prefix, which does not cover it |
| `Radix.Tree.FullQueries` | libcore/radix.c:358-362 | which never happens for queries as long as every stored prefix |
| `Radix.Tree.Walk` | libcore/radix.h:132-154 | visits every stored prefix exactly once, by ascending address with a prefix before what it covers, on a stack of at most 128 entries |
| `Radix.Tree.FindPlace` | libcore/radix.c:386-428 | descent, first differing bit and climb find the place where the prefix belongs |
| `Radix.Tree.InsertGlue` | libcore/radix.c:471-499 | a glue node with the new leaf and the old subtree keeps the tree well formed |
| `Radix.Tree.InsertAbove` | libcore/radix.c:455-470 | a node for a shorter prefix goes above the old subtree |
| `Radix.Tree.Attach` | libcore/radix.c:445-454 | a new leaf below a node with a free side |
| `Radix.Tree.RemoveWithParent` | libcore/radix.c:516-549 | a leaf goes together with a glue parent, whose other child takes its place |
| `Radix.Tree.RemoveInner` | libcore/radix.c:550-574 | a node with one child gives its place to the child |
| `Radix.Tree.PrefixAbove` | libcore/radix.c:277-309 | a node whose bits are a prefix of another's is its ancestor |
| `Radix.Tree.UniqueKeys` | libcore/radix.c:365-501 | no two nodes stand for the same bits |
| `RadixBits.CompWithMask` | libcore/radix.c:102-112 | byte comparison with a mask tells whether the first bits agree |
| `RadixBits.DifferBit` | libcore/radix.c:403-422 | the byte and bit loops find the first differing bit up to the bound |
| `Hash.Table.First` | lib/hash.c:210-218 | every link is ahead of the cursor exactly once |
| `Hash.Table.Next` | lib/hash.c:226-236 | returns the first link that is ahead, which is in the table, and steps over it |
| `Hash.Table.Join` | lib/hash.c:166-174 | the link goes to the front of its chain and nothing else moves; what else the cursor will return is not changed |
| `Hash.Table.Remove` | lib/hash.c:258-278 | the link leaves its chain and the cursor's future, the order of the rest is kept; what else the cursor will return is not changed |
| `Hash.Table.Complete` | lib/hash.c:199-278 | when a traversal ends, every link that stayed since hash_first was returned exactly once |
| `Hash.Table.Lookup` | lib/hash.c:181-197 | finds a link with an equal key exactly when there is one, for a hash function that agrees with the comparison |
| `Hash.Table.NextBucket` | lib/hash.c:199-204 | moves to the first link of a later bucket, skipping empty ones only |
| `Hash.Table.Last` | lib/hash.c:242-248 | gives a traversal up |
| `Hash.Table.OnceFrom` | lib/hash.c:210-218 | from bucket k on, a link occurs once if its bucket is not before k |
| `Hash.Table.constructor` | lib/hash.c:143-158 | an empty table is valid |
| `Splay.BringToRoot` | lib/splay.c:49-102 | the same nodes in the same order; the root separates smaller from larger ones; the last comparison is the one with the root, and is 0 exactly when an equal key exists; the tree has the shape of recursive top-down splaying, and no node of the search path is compared with more than twice |
| `Splay.Insert` | lib/splay.c:22-47 | adds one new node in order at the root of the splayed tree, or nothing when the key is there |
| `Splay.SplayLoop` | lib/splay.c:63-96 | the loop splits the nodes into what is before, around and after the key, on every comparator that orders |
| `Splay.Assemble` | lib/splay.c:97-100 | the four final writes make one tree of the parts |
| `Splay.GoLeft` | lib/splay.c:65-78 | one turn to the left, with or without a rotation |
| `Splay.GoRight` | lib/splay.c:79-92 | one turn to the right, with or without a rotation |
| `Splay.Walk` | lib/splay.c:117-125 | visits the data in order |
| `SplayCost.FromEmpty` | lib/splay.c:22-102 | over every run of m searches and insertions from the empty tree, the search paths together have at most 4 m log2(m + 1) nodes |
| `SplayCost.RunCost` | lib/splay.c:22-102 | from any tree, the paths of a run of m operations are paid for by 4 log2 of the size plus m for each of them and by the fall of the potential, the sum of the logarithms of all subtree sizes |
| `SplayCost.SearchCost` | lib/splay.c:49-102 | a single search costs at most 3 log2 of the size and the fall of the potential |
| `SplayCost.InsertCost` | lib/splay.c:22-47 | a single insertion costs at most 4 log2 of the size and the fall of the potential |
| `SplayCost.SameSize` | lib/splay.c:49-102 | splaying keeps the number of nodes |
| `Heap.PriorityHeap.Insert` | lib/heap.c:143-161 | heap order and ids are kept, exactly one handle is added, all others keep key and data |
| `Heap.PriorityHeap.Delete` | lib/heap.c:169-193 | exactly the given handle goes, the others keep key and data |
| `Heap.PriorityHeap.Update` | lib/heap.c:258-272 | the handle has the new key and data, the heap order is restored, the handles are the same |
| `Heap.PriorityHeap.ExtractMin` | lib/heap.c:216-232 | a handle with the least key goes; nothing from an empty heap |
| `Heap.PriorityHeap.Drain` | lib/heap.c:216-232 | extraction until empty gives every handle once, by ascending key |
| `Heap.PriorityHeap.IfyUp` | lib/heap.c:389-399 | restores heap order above a node whose key may be too small |
| `Heap.PriorityHeap.IfyDown` | lib/heap.c:355-383 | restores heap order below a node whose key may be too large |
| `Heap.PriorityHeap.SwapElements` | lib/heap.c:406-414 | exchanges two nodes and their ids |
| `Heap.RootIsMin` | lib/heap.c:216-232 | the root of a heap has the least key |
| `Rfc1035.NameUnpack` | lib/rfc1035.c:280-338 | ends on every message; writes at most ns octets, also when the message is rejected, and less when it is not; succeeds exactly when the name reads through the allowed pointers with a text shorter than ns, and then gives that text with its exact final dot, its length and the offset after the name, or when its first labels fill ns octets exactly, and then gives those |
| `Rfc1035.Follows` | lib/rfc1035.c:289-308 | what is unpacked behind a pointer continues what was unpacked before it |
| `Rfc1035.EmptyKeepsDot` | lib/rfc1035.c:328-333 | a pointer to the root leaves the dot before it standing |
| `Rfc1035.ReadSound` | lib/rfc1035.c:280-338 | what is read through bounded pointers is what section 4.1.4 of RFC 1035 says the name means |
| `Rfc1035.ReadComplete` | lib/rfc1035.c:280-338 | a name that needs no more pointers than allowed is read |
| `Rfc1035.DenotesOne` | lib/rfc1035.c:280-338 | a name means one sequence of labels only |
| `Rfc1035.UnpacksToMeaning` | lib/rfc1035.c:280-338 | a name whose text is shorter than the buffer is unpacked to its meaning, text, length and end if and only if it goes through no more pointers than allowed |
| `Rfc1035.BrimsIsLong` | lib/rfc1035.c:317-327 | labels that fill the buffer exactly begin a name that is too long for it |
| `Rfc1035.StopsAtEnd` | lib/rfc1035.c:286-327 | for a name that fits, the offset is left at its end |
| `Rfc1035.PointerIs` | lib/rfc1035.c:292-304 | a pointer is the last fourteen bits of its two octets, the high ones first |
| `DnsAnswers.RRUnpack` | lib/rfc1035.c:350-426 | name, fields and data of the record at the offset, or nothing exactly when they cannot be read; always moves on and stays in the message, and the name takes less than 256 octets |
| `DnsAnswers.AnswersUnpack` | lib/rfc1035.c:608-619 | the records one after the other, up to the announced number or the first that cannot be read |
| `DnsAnswers.ReplyUnpack` | lib/rfc1035.c:563-631 | every good reply in which the announced answers stand, with compressed names or not, is unpacked to its question and to all of them; error, empty and corrupt replies exactly as header, question and records say |
| `DnsAnswers.AllUnderstood` | lib/rfc1035.c:608-619 | answers laid out by section 4.1.3 of RFC 1035 are all read, in order, whatever follows |
| `DnsAnswers.OnlyAnswers` | lib/rfc1035.c:608-619 | all that is read stands in the message, and where reading stops early no answer stands, if no name among them fills its buffer |
| `DnsAnswers.StandsUnlessFull` | lib/rfc1035.c:350-426 | what is unpacked as a record stands in the message if and only if none of its names fills its 256 octets exactly |
| `DnsAnswers.FullRecord` | lib/rfc1035.c:350-426 | a message of 300 octets with four 63-octet labels at its start is unpacked as a record, and no record stands there |
| `DnsAnswers.NamedIsHost` | lib/rfc1035.c:280-338 | a host name that RFC 1035 gives a meaning to is just one that is unpacked without filling the buffer |
| `DnsAnswers.LongIs` | lib/rfc1035.c:377-379 | a 32-bit field has its most significant octet first |
| `DnsQuery.QueryUnpack` | lib/rfc1035.c:487-508 | the name as NameUnpack leaves it in less than 256 octets, type and class, or nothing exactly when there is no such name or no room for them |
| `DnsQuery.MessageUnpack` | lib/rfc1035.c:563-607 | the header, the single query and where the records begin, or the rejection and its cause |
| `DnsQuery.QueryCompare` | lib/rfc1035.c:529-550 | equal type, class and name, up to case and, for different lengths, up to final dots |
| `DnsQuery.RoundTrip` | lib/rfc1035.c:643-693 | a built query, for any name whose text as sent is shorter than 256 octets, unpacks to the same id, flags, labels, type and class, and for a host name compares as equal |
| `DnsQuery.BuiltReads` | lib/rfc1035.c:643-693 | for every name, a built message has the header, the labels cut to 63 octets and the fields it was built from |
| `DnsQuery.BuildQuery` | lib/rfc1035.c:643-667 | the octets of the message and the query kept for comparison |
| `DnsQuery.KeptName` | lib/rfc1035.c:660-664 | the name kept for comparison is the whole name if it is shorter than 256 octets, and else its first 255 octets |
| `DnsQuery.ReverseIsHostName` | lib/rfc1035.c:705-737 | the name of a PTR query is a host name that fits its buffer of 32 octets |
| `DnsQuery.BuildAQuery` | lib/rfc1035.c:643-667 | the message and the kept query of an address lookup: type 1 |
| `DnsQuery.BuildAAAAQuery` | lib/rfc1035.c:669-693 | the same for an IPv6 address: type 28 |
| `DnsQuery.BuildPTRQuery` | lib/rfc1035.c:705-737 | the same for the name of an address: type 12, on its octets in decimal, the last one first |
| `DnsQuery.AddressQuery` | lib/rfc1035.c:643-667 | the 22 octets of the query for the address of a.bc |
| `DnsQuery.NameQuery` | lib/rfc1035.c:705-737 | the 40 octets of the query for the name of 127.0.0.1 |
| `DnsQuery.DecimalTells` | lib/rfc1035.c:714-718 | the text of a number has that value and no leading zero |
| `DnsQuery.QueryHeaderOctets` | lib/rfc1035.c:643-652 | the twelve octets of a query header: the id, the flag for recursion, one question |
| `DnsQuery.HostSent` | lib/rfc1035.c:165-180 | a host name is sent with its own labels |
| `DnsQuery.LowerTells` | lib/rfc1035.c:549-549 | two octets compare as equal exactly when they are the same or the two cases of one letter |
| `DnsQuery.TrimTakesDots` | lib/rfc1035.c:539-545 | what is compared is the name without all its final dots |
| `DnsQuery.HeaderRoundTrip` | lib/rfc1035.c:95-130 | unpacking a packed header gives it back |
| `DnsQuery.PackedDenotes` | lib/rfc1035.c:165-180 | packed labels mean the labels, each cut to 63 octets, and end after the zero octet |
| `DnsQuery.TokensHostName` | lib/rfc1035.c:165-180 | splitting a host name at dots gives its labels, with or without a final dot |
| `DnsQuery.NamePack` | lib/rfc1035.c:165-180 | packs what strtok finds |
| `Md5.DigestOf` | lib/md5.c:72-159 | for every byte string and every way to cut it into pieces, Init, Update and Final give the sixteen octets, low ones first, of the block function folded over the padded message |
| `Md5.Context.Update` | lib/md5.c:88-123 | the context then stands for all bytes given so far |
| `Md5.Context.Final` | lib/md5.c:129-159 | the sixteen octets are the digest of all bytes given |
| `Md5.OctetsTell` | lib/md5.c:154-156 | the sixteen octets determine the four registers |
| `Md5Steps.TransformIsSteps` | lib/md5.c:180-262 | the unrolled block function is the sixty-four steps of section 3.4 of RFC 1321, by step number, with one table of constants, the shift table and the word order of each round, added to the old registers |
| `Md5Steps.SameLogic` | lib/md5.c:165-169 | the rewritten bit functions are F, G, H and I of RFC 1321 |
| `Md5Answers.EmptyAnswer` | lib/md5.c:72-159 | the digest of the empty message is the one of appendix A.5 of RFC 1321, octet by octet |
| `Md5Answers.AbcAnswer` | lib/md5.c:72-159 | the same for the message abc |
| `Md5.Context.Pad` | lib/md5.c:131-148 | marker and zeros, with an extra block when there is no room for the length |
| `Md5.Context.Count` | lib/md5.c:94-98 | the two byte-count words with carry hold the length modulo 2^64 |
| `Md5.LengthWords` | lib/md5.c:150-152 | the last two words are the low 64 bits of the length in bits |
| `Md5.FoldAppend` | lib/md5.c:88-123 | folding over a concatenation is folding twice |
| `Md5.Context.constructor` | lib/md5.c:72-82 | the start state stands for the empty message |
| `Cbdata.Registry.ReleasedOnce` | libcb/cbdata.c:178-344 | over any run an object is released exactly once, by the first call after which it is freed and not locked, and is in the registry until then |
| `Cbdata.Registry.FreeObject` | libcb/cbdata.c:210-243 | released now exactly when it is not locked |
| `Cbdata.Registry.UnlockObject` | libcb/cbdata.c:289-327 | the last unlock of a freed object releases it, no other does |
| `Cbdata.Registry.LockObject` | libcb/cbdata.c:263-287 | one more lock; the assertion that a registered object is valid or locked never fails |
| `Cbdata.Registry.AllocObject` | libcb/cbdata.c:178-208 | a new object, valid and not locked |
| `Cbdata.Registry.IsValid` | libcb/cbdata.c:329-344 | tells whether the object has been freed |

## Left out

- dlmalloc: mmap and mremap, space from foreign sbrk calls and its fenceposts, `malloc_trim`, memalign, valloc, calloc,
  statistics and mallopt are not modelled; sbrk is two flags that say whether it grants space right after the arena; the page
  size is 4096 bytes and `top_pad` is 0.
- dlmalloc: an arena that reaches 2^31 bytes. Signed 32-bit comparisons are modelled as they are written; unsigned sums do not
  wrap below that. Where free writes words that do not overlap, their order is not always the source's. Copying is by words in
  ascending order, as in the variant of `MALLOC_COPY` without memcpy.
- Dlmalloc.Arena.Malloc: success when sbrk grants what is asked is promised only while the break, with the rounding to pages, stays
  within 2^31 bytes (`Room`), because an arena beyond that is not modelled.
- Dlmalloc.Arena.Realloc: success when sbrk grants what is asked is promised only while the break, with the rounding to pages, stays
  within 2^31 bytes (`Room`), because an arena beyond that is not modelled.
- Dlmalloc.Arena.Move: success when sbrk grants what is asked is promised only while the break, with the rounding to pages, stays
  within 2^31 bytes (`Room`), because an arena beyond that is not modelled.
- Dlmalloc.Arena.UseTop: success when sbrk grants what is asked is promised only while the break, with the rounding to pages, stays
  within 2^31 bytes (`Room`), because an arena beyond that is not modelled.
- Dlmalloc.Arena.ExtendTop: success when sbrk grants what is asked is promised only while the break, with the rounding to pages, stays
  within 2^31 bytes (`Room`), because an arena beyond that is not modelled.
- aiops: in the transition system the linked queues are sequences, the pipe is a count of bytes, and the memory of requests
  and results is represented by unique request numbers; `AioQueues` treats each
  locked section as one operation; queue warnings and the `squidaio_do_*` bodies are not modelled, nor is whether a worker
  skips the operation of a request that is cancelled meanwhile.
- async_io: the kinds of operations and their buffers, so nothing is said of a read buffer that aioCancel frees while a worker
  may still be reading into it; aioCancel is a step for one control block of the descriptor, and its handler is
  taken not to cancel the same descriptor again.
- radix: the address family and the reference counts of prefixes; `Clear_Radix`, which makes the same walk as `Walk`; parsing
  and printing of addresses; failing allocations.
- helper: stateful helpers, process creation, the bytes of the line protocol (replies come as channel and text), the average
  service time. Callbacks are taken not to submit from inside the read and close handlers.
- hash: `hash_string`, `hash4` and `hashPrime`; links with a NULL key.
- splay: `splay_destroy` and the printing functions. The node data are integers under an arbitrary consistent comparator.
- heap: growth of the node array, which is a sequence here; keys are real numbers, so NaN is left out.
- rfc1035: the error texts and the memory of replies. A pointer with fewer than two octets left is the
  rejection that the code reaches after reading it. A name is the text before its terminating zero, and names with a zero octet inside a label are not treated specially.
- md5: the clearing of the context is not modelled.
- cbdata: the type index, the free functions and the hashed variant of the registry.
