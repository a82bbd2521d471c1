# Verified model of Anamnesis

Anamnesis is a fixed-slot memory pool whose 64-bit handles carry a 16-bit generation, a
Michael-Scott queue built on that pool, and a per-thread trace ring. This project models
the three in Dafny and proves what they promise, over every run.

`dafny verify dfyconfig.toml` checks the whole project.

## How the model is built

**Handles.** `HandleCodec` works on the 64-bit words, with bit operations defined in
`Bits`. The concurrent models use handles annotated with the unbounded number of times
their slot had been released (`TaggedHandles`); the program sees that number modulo 65536,
so every comparison it makes is `SameWord`. `SlotWords.WordsFaithful` proves that `SameWord`
is equality of the real words, and `ConcurrentPoolErasure` and `ConcurrentQueueErasure`
prove that no step depends on an annotation.

**Concurrency.** `ConcurrentPool` and `ConcurrentQueue` are step systems: any number of
threads, one shared-memory access a step, any interleaving, and weak compare-exchanges that
may fail spuriously (section 7.17.7.4 of ISO/IEC 9899:2011). A queue thread inside
`anam_alloc` or `anam_release` takes the pool's own steps. Runs obey these hypotheses:

- callers release only handles that were issued, and two releases of one handle do not
  overlap (`ConcurrentPool.Legal`);
- fewer than 65536 releases of a slot fall inside one load-to-exchange window
  (`ConcurrentPool.AllocWindow`, `ConcurrentQueue.HeadWindow`);
- a handle whose release is being checked is not of an incarnation that is a multiple of
  65536 older than the current one; any other stale handle may be released at any time and
  is rejected (`ConcurrentPool.ReleaseWindow`);
- in the queue, a push enters its section (lines 111 to 132) only when no other push is in
  one; its allocation may overlap anything (`ConcurrentQueue.Legal`).

Besides safety, a thread that runs alone is shown to come to the right answer in a bounded
number of steps (`ConcurrentPoolSolo`, `ConcurrentQueueSolo`), from any point of its call
(`ConcurrentQueueProgress`); and `ConcurrentQueueAnyRun` states what needs no hypothesis.

Runs show what happens without the hypotheses: `OverlappingReleases` when releases overlap,
`WindowIsExact` at 65536 releases in one window, `ReleaseWindowIsExact` when a handle is
released again 65536 incarnations later, `OverlapLeavesStuck` when pushes overlap.

**One thread.** `SequentialPool.Pool` and `SequentialQueue.Queue` are classes over the words
in memory; their retry loops take a number of spurious failures. `TraceBuffer.Buffer` is
the ring array with 32-bit positions, proved against the unbounded `TraceRing.Ring`.

## Where the code and its documentation differ

The model follows the code.

- The repository's README.md:45 says that a double free returns false. It does in every run
  under the hypotheses (`ReleaseAnswers`). An overlapping second release answers true exactly
  if it checks before the first one stores (`OverlappingReleaseAnswers`), and the free list
  is then a loop (`OverlappingReleases`).
- include/anamnesis_queue.h:2 calls the queue multi-producer. With overlapping pushes `tail`
  can move back to a node that is then released (`OverlappingPushes`). From there, in every
  interleaving, no pop that is called returns, and no push that is called returns anything
  but null, which it does once the pool is exhausted (`NothingReturns`).
- src/anamnesis_trace.c:219 says that an overflow loses the oldest entries. Of the
  `capacity` entries the ring still has, the next flush writes only the newest
  `pending % capacity`, unless that is zero (`FlushWrites`, `OverrunWritesRemainder`).
- `overflow_count` is 32 bits wide. It can be trusted for fewer than 2^32 records
  (`CounterTrusted`) and can be back at zero after losses at 2^32 (`CounterWraps`).
- `slots_free` can pass below zero, so that a reader sees 2^64 - 1, in a run in which all
  callers keep to the rules (`FreeCountBelowZero`).

## Model

| member | source | states |
|---|---|---|
| `ConcurrentPool.AbaFree` | src/anamnesis.c:211-221 | If the pop exchange can succeed, the head is the same incarnation that was loaded and the link read earlier is still its successor |
| `ConcurrentPool.ApplyInv` | src/anamnesis.c:204-303 | Every step of every thread keeps the pool invariant: memory spells out the free list, each slot has one owner, each thread's locals mean what they should |
| `ConcurrentPool.InitInv` | src/anamnesis.c:174-189 | A freshly created pool satisfies that invariant |
| `ConcurrentPoolRuns.AbaFreeInEveryRun` | src/anamnesis.c:211-221 | ABA freedom in every state of every run from creation |
| `ConcurrentPoolRuns.Partition` | src/anamnesis.c:211-297 | In every run each slot is in exactly one of free list, being allocated, being released, in use; the list is duplicate-free and tagged with true generations |
| `ConcurrentPoolRuns.StackSteps` | src/anamnesis.c:211-297 | Linearization against a stack: only a successful alloc exchange pops, only a successful release exchange pushes, and an exhausted answer saw the empty stack |
| `ConcurrentPoolRuns.ReturnedHandleInUse` | src/anamnesis.c:223-245 | The handle an allocation returns carries its slot's true generation and is in use |
| `ConcurrentPoolRuns.ExclusiveOwnership` | src/anamnesis.c:204-346 | From issue to the accepted release no allocation returns the slot and `anam_get` keeps accepting the handle |
| `ConcurrentPoolRuns.IncarnationsCount` | src/anamnesis.c:273-275 | A slot's generation counts its accepted releases, over any interleaving |
| `ConcurrentPoolRuns.StaleWindow` | src/anamnesis.c:263-275 | A handle is accepted later if and only if the accepted releases since are a multiple of 65536 |
| `ConcurrentPoolRuns.CountersStep` | src/anamnesis.c:219-231 | At every step `slots_free` is the list length plus pops not yet subtracted minus pushes not yet added; likewise the two totals |
| `ConcurrentPoolRuns.QuiescentCounters` | src/anamnesis.c:291-300 | When all calls have returned, `slots_free` plus slots in use is `slot_count`, and allocations minus releases is the number in use |
| `ConcurrentPoolAnswers.ReleaseAnswers` | src/anamnesis.c:261-302 | In every run from creation a release answers true if and only if the handle was in use, that is not released before, at the call; so every double free answers false |
| `ConcurrentPoolAnswers.TotalsCountAnswers` | src/anamnesis.c:230-245 | In every run, lawful or not, `alloc_count` is the number of handles returned or about to be, and `release_count` that of releases that returned true or are about to |
| `ConcurrentPoolSolo.AllocAlone` | src/anamnesis.c:204-246 | An allocation that runs alone answers within seven steps: null exactly if the free list is empty, otherwise the current handle of its top |
| `ConcurrentPoolSolo.ReleaseAlone` | src/anamnesis.c:248-303 | A release that runs alone, given any word at all, answers within seven steps: true exactly if the word is a current handle |
| `ConcurrentPoolSolo.GetAcceptsExactly` | src/anamnesis.c:309-346 | `anam_get` accepts exactly the words of current handles: slot, LIVE bits and true generation |
| `ConcurrentPoolSolo.Finishes` | src/anamnesis.c:204-303 | From any point of an allocation or a release, in every state of the invariant, a thread that runs alone comes to its answer within nine steps |
| `ConcurrentPoolAnswers.CheckDecides` | src/anamnesis.c:267-302 | Once a release has checked, its answer is fixed, whatever any thread does, lawful or not |
| `ConcurrentPoolAnswers.OverlappingReleaseAnswers` | src/anamnesis.c:263-275 | A second release that overlaps the first answers true if and only if it checks before the first stores the next generation |
| `ConcurrentPoolErasure.AnnotationsInvisible` | src/anamnesis.c:204-303 | States with equal words, generations and counters stay indistinguishable under every action |
| `ConcurrentPoolWitnesses.AllocatedReached` | src/anamnesis.c:204-246 | The state the next two runs start from, one slot allocated and no call under way, is reached lawfully from creation |
| `ConcurrentPoolWitnesses.OverlappingReleases` | src/anamnesis.c:263-297 | A run in which two overlapping releases of one handle both return true and the slot links to itself |
| `ConcurrentPoolWitnesses.FreeCountBelowZero` | src/anamnesis.c:230-299 | A lawful run in which `slots_free` passes below zero |
| `ConcurrentPoolWindow.WindowIsExact` | src/anamnesis.c:211-221 | A run lawful up to the 65536th release in one window, after which an unreleased handle is handed out again |
| `ConcurrentPoolWindow.ReleaseWindowIsExact` | src/anamnesis.c:263-297 | A run lawful up to the second release of a handle, 65536 incarnations later, which answers true and pushes a free slot again |
| `ConcurrentQueueInvariant.ApplyInv` | src/anamnesis_queue.c:102-176 | Every step keeps the queue invariant: chain, lagging tail, roles of slots, and the locals of every push and pop |
| `ConcurrentQueueRuns.InitInv` | src/anamnesis_queue.c:73-90 | A freshly created queue satisfies that invariant and is empty |
| `ConcurrentQueueRuns.StepItems` | src/anamnesis_queue.c:119-172 | Each successful link appends that push's item, each successful head exchange removes the front, which is the item already copied out, and no other step changes the items |
| `ConcurrentQueueRuns.FifoOrder` | src/anamnesis_queue.c:102-176 | Over whole runs, items taken followed by items left are the items there before followed by the items linked, in order |
| `ConcurrentQueueRuns.Linearizable` | src/anamnesis_queue.c:102-176 | From creation on, what was popped followed by what is in the queue is what was pushed |
| `ConcurrentQueueRuns.EmptyAnswers` | src/anamnesis_queue.c:148-155 | Every empty answer loaded `head->next` at a moment, inside that call, when the queue was empty |
| `ConcurrentQueueRuns.ChainInEveryRun` | src/anamnesis_queue.c:111-174 | In every run the links from `head` form a finite duplicate-free chain ending in null, `tail` is last or last but one, all nodes are live slots with current handles, and the items are theirs in order |
| `ConcurrentQueueRuns.RemovedNodeIsFree` | src/anamnesis_queue.c:160-169 | After a successful head exchange the old head is on neither the chain nor `tail` |
| `ConcurrentQueueRuns.SafeRecycling` | src/anamnesis_queue.c:167-172 | In every state of the invariant the release that follows is a lawful call on a node off the chain, and it never returns false |
| `ConcurrentQueueRecycling.ReleasedOnlyByTaker` | src/anamnesis_queue.c:167-169 | In every run from creation, after a pop takes a node, the only step that ever ends that incarnation is the store of that pop's own release |
| `ConcurrentQueueHistories.FullAnswers` | src/anamnesis_queue.c:105-109 | Every null answer of a push had a moment inside its call when the free list was empty |
| `ConcurrentQueueHistories.PopHistory` | src/anamnesis_queue.c:139-176 | Every pop that answers with an item took exactly that item by exactly one head exchange inside its call |
| `ConcurrentQueueHistories.PushHistory` | src/anamnesis_queue.c:102-137 | Every push that answers with a handle linked exactly that node, with the item it was called with, by exactly one link exchange inside its call |
| `ConcurrentQueueSolo.PopAlone` | src/anamnesis_queue.c:139-176 | A pop that runs alone, from any state of the invariant, also while `tail` lags, answers within 24 steps: nothing exactly if the queue is empty, otherwise the front item |
| `ConcurrentQueueSolo.PushAlone` | src/anamnesis_queue.c:102-137 | A push that runs alone answers within 20 steps: null exactly if the pool is exhausted, otherwise the handle of the slot on top of the free list |
| `ConcurrentQueueProgress.Finishes` | src/anamnesis_queue.c:102-176 | From any point of a push or a pop, however stale what it has loaded, a thread that runs alone comes to its answer within 33 steps |
| `ConcurrentQueueAnyRun.TailWrites` | src/anamnesis_queue.c:123-132 | In every state, lawful or not, `tail` changes exactly by exchanges that find the loaded word; the final swing does not fail spuriously |
| `ConcurrentQueueAnyRun.HeadWrites` | src/anamnesis_queue.c:165-168 | `head` changes exactly by a pop's exchange that finds the loaded word |
| `ConcurrentQueueAnyRun.LinkWrites` | src/anamnesis_queue.c:54-121 | A link changes only when its owner clears it, or from null to the node of a push |
| `ConcurrentQueueAnyRun.LinkWasValidated` | src/anamnesis_queue.c:112-121 | In every run each link exchange follows directly upon a check that found `tail` unchanged and its link null |
| `ConcurrentQueueAnyRun.NullAnswers` | src/anamnesis_queue.c:49-109 | In every run a push answers null only because its allocation loaded a null head of the free list |
| `ConcurrentQueueRuns.LengthStep` | src/anamnesis_queue.c:134-170 | At every step `length` is the number of items corrected by the pushes and pops that have yet to count |
| `ConcurrentQueueRuns.Quiescent` | src/anamnesis_queue.c:102-176 | When all calls have returned `length` is exact and no slot has leaked |
| `ConcurrentQueueRuns.ReencodingIsIdentity` | src/anamnesis_queue.c:123-168 | Wherever the queue decodes and re-encodes a handle it stores the same handle |
| `ConcurrentQueueErasure.AnnotationsInvisible` | src/anamnesis_queue.c:102-176 | Queue states the program cannot tell apart stay so under every action |
| `ConcurrentQueueWitness.OverlappingPushes` | src/anamnesis_queue.c:111-132 | A run from creation with two overlapping pushes that leaves `tail` on a released slot |
| `ConcurrentQueueWitness.SpinsAlone` | src/anamnesis_queue.c:111-151 | In such a state a push that stands at the head of its loop, or a pop, comes back to the same state again and again when it runs alone |
| `ConcurrentQueueStuck.OverlapLeavesStuck` | src/anamnesis_queue.c:111-132 | That run, from creation, ends in a stuck state: empty queue, rejected `tail`, no call past its test of `tail` |
| `ConcurrentQueueStuck.NothingMoves` | src/anamnesis_queue.c:111-174 | In every run from a stuck state no link and no head exchange ever succeeds |
| `ConcurrentQueueStuck.NothingReturns` | src/anamnesis_queue.c:102-176 | In every run from a stuck state a call that begins never returns, unless it is a push and answers null |
| `HandleCodec.RoundTrip` | src/anamnesis.c:36-52 | For 8-aligned addresses below 2^48 all three fields come back |
| `HandleCodec.Reencode` | src/anamnesis_queue.c:14-24 | Decoding and encoding with LIVE bits is the identity exactly on words that carry LIVE bits |
| `SlotWords.WordsFaithful` | src/anamnesis.c:40-44 | Two handles of a pool have equal words if and only if slot, 16-bit generation and state agree |
| `PoolLayout.AlignUpRounds` | src/anamnesis.c:127-129 | Without wrap-around the mask trick gives the least multiple not below the value |
| `PoolLayout.LayoutSafety` | src/anamnesis.c:139-172 | Headers and user regions lie inside the block, are disjoint and aligned, and the requested size is a multiple of the alignment |
| `PoolLayout.LayoutExact` | src/anamnesis.c:147-172 | Header and user region take the least multiples of the alignment that hold them, a slot just these two, the block the slots and one more unit; the first user region lies one header in |
| `PoolLayout.AcceptedConfigurations` | src/anamnesis.c:139-142 | Exactly the configurations with something to store and no alignment, or a power of two from 8 on, are accepted |
| `PoolLayout.CoversExactlyWhenFits` | src/anamnesis.c:147-172 | The allocated block covers all slots if and only if no size computation wrapped |
| `SlotWords.StrictPathsAgree` | src/anamnesis.c:116-121 | The mask path and the modulo path of the strict check agree |
| `SlotWords.StrictAccepts` | src/anamnesis.c:107-125 | Strict mode accepts exactly the slot addresses |
| `SlotWords.LooseAccepts` | src/anamnesis.c:107-125 | Outside strict mode exactly the addresses inside some slot's stride pass |
| `SlotWords.HeaderReadInside` | src/anamnesis.c:99-125 | For every word that passes the check, in either mode, the header read stays inside the block |
| `SlotWords.ComputedGeometryValid` | src/anamnesis.c:147-172 | The computed layout satisfies all that the pool model assumes of it |
| `SequentialPool.Pool.constructor` | src/anamnesis.c:174-189 | Creation gives the stack of slots 0 to count - 1 with slot 0 on top |
| `SequentialPool.Pool.Alloc` | src/anamnesis.c:204-246 | Pops the abstract stack and returns the live handle of the top; null exactly when the stack is empty; clears that slot's link, counts down, and touches nothing else |
| `SequentialPool.Pool.Release` | src/anamnesis.c:248-303 | Accepted exactly when the 64-bit word is a current handle; then pushes the slot in its next incarnation; otherwise nothing changes; the list survives exactly if the slot was not on it |
| `SequentialPool.Pool.Get` | src/anamnesis.c:309-346 | The slot's address exactly for the current handles among all 64-bit words, null otherwise |
| `SequentialPool.AcceptedExactly` | src/anamnesis.c:312-345 | Among all 64-bit words exactly the handles with a slot's address, its true generation and the LIVE bits are accepted |
| `SequentialPool.Pool.MarkFree` | src/anamnesis.c:371-388 | The walk ends for arbitrary links, and marks exactly the free slots of a sound pool |
| `SequentialPool.Pool.ForEach` | src/anamnesis.c:368-401 | Visits the live handles in order until the callback answers false; if it never does, exactly the slots not on the free list, ascending |
| `SequentialPool.AllVisited` | src/anamnesis.c:390-398 | With a callback that always answers true the visited words are the handles of exactly the slots not on the list, ascending, once each |
| `SequentialPool.LiveSlotsExact` | src/anamnesis.c:390-398 | The visited slots are exactly those not on the free list, ascending, once each |
| `SequentialPool.LiveWordAccepted` | src/anamnesis.c:393-397 | The handle visited, which is the one alloc returned, is accepted and names its slot |
| `SequentialPoolRuns.StaleWindow` | src/anamnesis.c:263-275 | After any calls with any words, an issued handle is accepted if and only if the accepted releases of its slot are a multiple of 65536 |
| `SequentialPoolRuns.ReleasedHandleRejected` | src/anamnesis.c:325-345 | A released handle is rejected throughout the next 65535 incarnations |
| `SequentialPoolRuns.UnreleasedHandleAccepted` | src/anamnesis.c:325-345 | Until it is released a handle stays accepted, whatever else is called |
| `SequentialPoolRuns.Execute` | src/anamnesis.c:204-346 | The class runs any sequence of calls as that specification says, answer by answer |
| `SequentialQueue.Create` | src/anamnesis_queue.c:60-91 | Null exactly for a zero size, a zero capacity or no memory; otherwise an empty queue, whose nodes each have header, link and item inside the block and before the next header |
| `SequentialQueue.NodeSizeFits` | src/anamnesis_queue.c:71 | A node is a multiple of 8 with room for link and item and less than 8 bytes to spare |
| `SequentialQueue.Queue.constructor` | src/anamnesis_queue.c:73-90 | A pool with one slot more than the capacity, whose first slot is the dummy |
| `SequentialQueue.Queue.Push` | src/anamnesis_queue.c:102-137 | Null exactly at `capacity` items, leaving the items alone; otherwise appends the item |
| `SequentialQueue.Queue.Pop` | src/anamnesis_queue.c:139-176 | Nothing exactly when empty; otherwise the front item, which is removed |
| `SequentialQueue.Queue.Peek` | src/anamnesis_queue.c:178-189 | The front item, or nothing exactly when empty |
| `SequentialQueue.Queue.IsEmpty` | src/anamnesis_queue.c:191-197 | True exactly when there are no items |
| `SequentialQueue.Queue.Drain` | src/anamnesis_queue.c:93-100 | The drain takes out every item in order and the last release makes every slot free |
| `TraceRing.LosslessTracing` | src/anamnesis_trace.c:134-220 | With no overflow counted, the file followed by the pending entries is the whole log, for any failed opens |
| `TraceRing.LosslessExactly` | src/anamnesis_trace.c:134-220 | File and ring hold the whole log if and only if never more than `capacity` entries were pending |
| `TraceRing.CounterTrusted` | src/anamnesis_trace.c:216-220 | For fewer than 2^32 records the program's counter is zero exactly when no overflow happened |
| `TraceRing.CounterWraps` | src/anamnesis_trace.c:216-220 | A run of exactly 2^32 records after which the counter reads zero and all but two entries are lost |
| `TraceRing.NoOverflow` | src/anamnesis_trace.c:196-220 | From capacity 8 on, with opens succeeding, no overflow ever and at most three quarters pending, also where `capacity * 3` wraps |
| `TraceRing.WorkingSizes` | src/anamnesis_trace.c:210-220 | The capacities that never overflow while opens succeed are exactly those from 8 on |
| `TraceRing.OverflowsAreFullMoments` | src/anamnesis_trace.c:216-220 | The overflow count is exactly the number of records after which the positions were at least a full ring apart |
| `TraceRing.RecordFlushes` | src/anamnesis_trace.c:210-214 | A record whose file opens writes to the file if and only if the ring then looks more than three quarters full, or past 2^29 where the product wraps |
| `TraceRing.RecordFlushesAtThreeQuarters` | src/anamnesis_trace.c:210-214 | Below a full ring the file stays as it is exactly up to three quarters of the capacity, or up to 2^29 of 2^31 |
| `TraceRing.FlushWrites` | src/anamnesis_trace.c:120-178 | For every ring, overrun or not: which newest entries a flush writes, and when it writes none |
| `TraceRing.OverrunWritesRemainder` | src/anamnesis_trace.c:134-177 | Whatever was recorded into a ring that could not be flushed, the first flush writes only the last `n % capacity` of the `n` entries |
| `TraceRing.FlushAfterOverflow` | src/anamnesis_trace.c:134-177 | A flush of an overrun ring keeps the newest `capacity` entries if and only if the pending count is a multiple of the capacity and neither it nor the overflow count is a multiple of 2^32 |
| `TraceRing.EightEntriesDropped` | src/anamnesis_trace.c:134-177 | Any ten records into an unflushable ring of eight, then a flush: the last two reach the file |
| `TraceBuffer.MaskWord` | src/anamnesis_trace.c:196-197 | Masking a wrapped 32-bit position gives the place of the unbounded position |
| `TraceBuffer.WritePaths` | src/anamnesis_trace.c:148-172 | The contiguous and the wrapped write both give the newest entries in order |
| `TraceBuffer.Create` | src/anamnesis_trace.c:83-112 | Null exactly for a capacity that is no power of two or when memory runs out |
| `TraceBuffer.Buffer.Flush` | src/anamnesis_trace.c:120-178 | Flushes as the unbounded model does, through 32-bit positions and the ring array |
| `TraceBuffer.Buffer.Record` | src/anamnesis_trace.c:191-221 | Records as the unbounded model does |
| `TraceBuffer.Buffer.PendingWindow` | src/anamnesis_trace.c:196-211 | While less than a full ring is pending, reading from the tail gives the pending entries |
| `TraceBuffer.Execute` | src/anamnesis_trace.c:120-221 | Whole runs on the class are the runs of the model |

## Left out

- Weak memory orders: atomics are sequentially consistent steps, because Dafny has no model of acquire and release.
- Overlapping pushes: excluded by hypothesis in the concurrent queue; the witness shows why.
- Concurrent `anam_queue_peek`, `anam_queue_empty` and `anam_foreach`: they take no validated snapshot; modelled for one thread only.
- SequentialPool.Pool.Release: outside strict mode, words whose address lies inside a slot are excluded, because the bytes read there as a header are user data.
- SequentialPool.Pool.Get: the same exclusion as for release.
- SequentialPoolRuns.Execute: the same exclusion, for each call.
- SequentialQueue.Create: assumes of a block that the allocator did return that its sizes did not wrap and that it ends below 2^48; the codec cannot hold other addresses.
- TraceBuffer.Buffer.Record: the timestamp and the other fields of an entry are given by the caller, and the buffer is active.
- SequentialPool.Pool.ForEach: the callback is a function of the handle, and the allocation of the mark array does not fail.
- NULL pools, queues, configurations and data pointers, whose tests return at once.
- Payload bytes, `memset` on allocation or release and `memcpy`: an item is one opaque value per node.
- The operating system's allocators, and pool and buffer destruction: memory is given or refused by a parameter.
- `generation_max`, `anamnesis_count`, `push_count`, `pop_count`, `push_fails`, `pop_fails`, `aba_prevented` and `entries_written`: single increments, or a running maximum, that no other code reads.
- `alloc_count` and `release_count` in the sequential classes: the concurrent model counts them.
- Incomplete writes of the tracer, which the code only reports; file names, directories and thread-local storage.
- The calls of the pool into the tracer, the C++ wrappers, the tools, the benchmarks and the analysis scripts.
