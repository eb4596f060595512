# Verified models of the virtual router

A Dafny 4.11 project that models the algorithmic core of the virtual router and proves what that
core is for. `dafny verify dfyconfig.toml` checks all of it. Four groups:

1. **Control scheduler** (`ControlScheduler`, `ThreadPool`). The sequence-numbered ring, the
   post/drain/destroy protocol of a process queue, packed timer handles, the delayed-slot table with
   its threaded free list, and the lifetime of a `ProcessQueueRef`. The rings and the protocol are
   transition systems with one atomic load, store, exchange or compare-exchange per step; main
   results hold in every state of every interleaving. Modules `Ring`, `RingProgress`, `ProcessQueue`,
   `ProcessQueueRuns`, `ProcessQueueBodies`, `ProcessQueueProgress`, `Handles`, `DelayedSlots`, `TimerRuns`,
   `TimerCallbacks`.
2. **pugixml**. XPath query rewriting and evaluation that stops early, document order, three-way
   quicksort, triangular-probe hashing, in-place attribute decoding against the printer, and
   saturating integer parsing. Modules `Documents`, `Traversal`, `AxisWalks`, `NodeOrder`, `NodeSorting`,
   `XPath`, `XPathRewrite`, `XPathPreserves`, `XPathModes`, `XPathMeaning`, `XPathFilters`, `Sorting`, `Hashing`,
   `AttributeText`, `GapParser`, `Spellings`, `Integers`, `Numerals`.
3. **Neighbour resolution** (`Arp`, `Ndp`). The ARP cache against its data-plane table, and the
   unreachability-detection machine, both with the timers nobody has cancelled. Modules `Arp`, `ArpTimers`,
   `ArpPackets`, `Nud`, `NudProbing`, `NudAnswers`, `NudPackets`, `NudCache`.
4. **Indentation parser** (`CommandParser`). Module `CommandTree`.

`Arith` holds integer facts; remainders and bit operations there are recursive so that proofs stay linear.
`Collections` holds options, sequences without repetition, and runs.

## How the parts fit

- A ring satisfies one invariant, `Ring.Inv`, kept by every step; the FIFO, overwrite and
  exactly-once results follow from it. A process queue's steps inside a sub-queue are steps of that
  sub-queue's ring, so `ProcessQueueRuns.ProjectIsRingRun` carries the ring results over.
- `scheduled` is treated as a token with one holder. `draining` and `drainThreadMarker` carry no weight.
- `XPath.EvalSet` is the plain meaning of a query; `XPathRewrite.Optimize` is the rewriting done after
  parsing; `XPathModes.FastSet` is evaluation as pugixml does it. `XPathModes.QueryPreserved` joins the three.
- What a query denotes is said apart from any evaluator, as a set of nodes described by their paths
  (`XPathMeaning.SetMeaning`, `XPathMeaning.Reaches`); `XPathMeaning.QueryMeans` says that evaluation finds it.
- What character data denotes is likewise said apart from the scanners: `Numerals.NumberOf` by the places of
  digits, `Spellings.Utf8Read` by the bytes of UTF-8, `Spellings.ValueMeaning` by the parts of a value.
- Safety says that no task runs too often, and `ProcessQueueBodies`, `TimerCallbacks`, `ArpPackets` and
  `NudPackets` say that none is forgotten: each task, callback or packet is run or sent, still waits, or was lost
  at a named event. `RingProgress` and `ProcessQueueProgress` bound the steps that this takes.
- Programs that work in place (sorting, hashing, filtering, decoding, digit writing, the slot table)
  are methods on arrays or classes, proved against a function of the old contents.
- The ARP and NUD objects are classes. `Valid()` says that the data-plane table agrees with the cache;
  every handler keeps it, touches one address only (clearing and the running flag aside), and equals a function
  on the state value, so that the run theorems, which quantify over sequences of those functions, speak of the
  objects too. That a handler touches one neighbor only is what the step `Elsewhere` of a run of one address
  stands for. Bodies without `Valid()` (`TakeAttempt`, `Resolving` and the like) are what the handlers are made of.
- A timer whose recorded id is erased or overwritten without a cancel still fires. `Nud.Ndp` counts such callbacks
  in `loose` and `late`, `ArpTimers.Timed` in `requests` and `expiries`.
- `Sorting.Sort` calls a comparison that decides a total order between different elements;
  `NodeSorting.CompareNodes` is the one pugixml uses, and `NodeSorting.SortSet` joins the two.
- `ProcessQueue.CoverOk` holds of open and closed queues: whoever leaves a non-empty sub-queue leaves
  someone else responsible for it. That the queue is empty once everyone has returned follows at once.

## Findings

- ARP: `retries` is 32 bits wide and is compared with `>` after the increment. An unanswered entry is
  given up after exactly `IP_ARP_INCOMPLETE_RETRY` requests if and only if that setting is below
  2^32 - 1 (`Arp.UnansweredGivesUp`, `Arp.UnansweredForever`).
- ARP: `addStaticArpEntry` overwrites an entry without cancelling its timers. Without a reply that completes it
  and without removal by hand, a static entry can still be lost, if and only if a request or expiry callback for
  its address was pending when it was added, and then at an exact firing (`ArpTimers.StaticSafeIff`,
  `ArpTimers.StaticRun`).
- NUD: `nudGroup` is 8 bits wide and is compared with `<=`. Probing ends if and only if `NUD_RETRY` is
  below 255 (`NudProbing.NudTerminates`, `NudProbing.NudForever`), `NUD_RETRY_ATTEMPTS` at 0 included.
- NDP: `completeNdpEntry` cancels no retry timer, and outside probing the callback counts on up to `NUD_RETRY`
  and then removes the entry, REACHABLE or not. An answer can be lost again if and only if a retry callback is
  pending when it arrives, and then at an exact firing (`NudAnswers.AnswerSafeIff`, `NudAnswers.AnsweredRun`).
  A first resolution with the default settings ends so (`NudAnswers.AnsweredYetRemoved`); so can every answer
  inside a group of probes, but between groups only if a callback is left without its record
  (`NudAnswers.ProbeAnswers`).
- NDP: such callbacks arise only with `NUD_RETRY_ATTEMPTS` at 0 (`Nud.RunInv`), when a probe begins while a retry
  timer is running: the exhaustion at once erases the timer's id without cancelling it. Then an answer between
  groups is lost too (`NudAnswers.ZeroAnswers`, `NudAnswers.AnsweredBetweenYetRemoved`); otherwise never
  (`NudAnswers.ReachableAnswers`).
- XPath: `document_order_comparator` answers true for an attribute and itself when its document keeps no buffer
  positions, so it is a strict order if and only if every attribute has one (`NodeSorting.ComparisonDecides`).
  Sorting a set without repetitions is right all the same (`NodeSorting.SortNodes`).
- Delayed slots: when a fired task is rejected, the token and `onTimerFired` both discard the slot; the
  second discard finds a newer generation and does nothing (`TimerRuns.DiscardTwice`).

## Model

| member | source | states |
|---|---|---|
| Ring.MaskPicksSlot | VirtualRouter/src/core/ThreadPool.hpp:165-199 | for a power-of-two capacity `pos & mask` is the slot of ticket pos |
| Ring.StepInv | VirtualRouter/src/core/ThreadPool.hpp:165-302 | every atomic step of any thread keeps the ring invariant: sequence numbers, claimed tickets and slot contents match |
| Ring.HeadClaim | VirtualRouter/src/core/ThreadPool.hpp:171-190 | a successful compare-exchange on head claims a vacant slot for the next ticket |
| Ring.TailClaim | VirtualRouter/src/core/ControlScheduler.cpp:85-118 | a successful compare-exchange on tail claims the oldest published task |
| Ring.StepRefinesFifo | VirtualRouter/src/core/ThreadPool.hpp:165-302 | every step is a step of a FIFO queue: head claims append, tail claims remove the front, all else leaves it alone |
| Ring.RunConserves | VirtualRouter/src/core/ThreadPool.hpp:165-302 | over any run, queued before plus accepted equals taken plus queued after, as sequences |
| Ring.RingIsBoundedFifo | VirtualRouter/src/core/ThreadPool.hpp:165-302 | for every capacity of at least 2 and every interleaving, tasks taken are a prefix of tasks accepted in claim order, and at most cap are outstanding |
| Ring.NoOverwrite | VirtualRouter/src/core/ThreadPool.hpp:191-199 | threads holding tickets hold different slots; a task is stored only into a vacant cell and a running task's cell still holds it |
| Ring.EnqueueFalseMeansFull | VirtualRouter/src/core/ThreadPool.hpp:178-189 | enqueue returns false only when the ticket one lap earlier is not recycled: the ring is full or that task is still being consumed |
| Ring.OldestTask | VirtualRouter/src/core/ControlScheduler.cpp:120-127 | an accepted task hasItem does not see is still being written by the thread that claimed it |
| Ring.DequeueFalseMeansEmpty | VirtualRouter/src/core/ControlScheduler.cpp:85-118 | a failed dequeue saw the current oldest ticket unpublished |
| Ring.DestroyedOnce | VirtualRouter/src/core/ThreadPool.hpp:266-302 | when all accepted tasks are claimed and no thread is inside, each was destroyed exactly once |
| Ring.AcceptedCount | VirtualRouter/src/core/ThreadPool.hpp:165-199 | head counts the accepted tasks of the run |
| RingProgress.SoloEnqueue | VirtualRouter/src/core/ThreadPool.hpp:165-199 | from any reachable ring that nobody is inside, steps of one thread alone end an enqueue: with room the task is the last of the queue, without room nothing has changed |
| RingProgress.SoloDequeue | VirtualRouter/src/core/ControlScheduler.cpp:82-118 | and a dequeue: the first task is taken and cleaned, or nothing has changed because there is none |
| ProcessQueue.StepInv | VirtualRouter/src/core/ControlScheduler.cpp:581-717 | every step of posters, drains and destroyers keeps the wiring, token, closing, fairness and coverage invariants (which bodies run is the matter of ProcessQueueBodies) |
| ProcessQueue.RunInv | VirtualRouter/src/core/ControlScheduler.cpp:581-717 | the invariants hold after every run |
| ProcessQueue.SerialExecution | VirtualRouter/src/core/ControlScheduler.cpp:600-656 | scheduled is true exactly when one drain right exists, held once; at most one thread is in a task body |
| ProcessQueue.NoStrandedTask | VirtualRouter/src/core/ControlScheduler.cpp:641-655 | in every reachable state, open or closed, a non-empty sub-queue has a drain right, a poster before its exchange, a drain before the end of its re-check, or (only when closed) a discarding thread not yet done with it |
| ProcessQueue.QuietQueueIsEmpty | VirtualRouter/src/core/ControlScheduler.cpp:641-662 | once all threads have returned and the pool holds no drain, every sub-queue is empty and no thread is inside a ring: open or closed, destroyed from outside or by one of its tasks |
| ProcessQueue.AtMostOneBodyAfterClose | VirtualRouter/src/core/ControlScheduler.cpp:602-648 | over all overlapping drains at most one task body starts after closed is set |
| ProcessQueueRuns.RoundRobinBound | VirtualRouter/src/core/ControlScheduler.cpp:600-639 | while a drain runs on an open queue and sub-queue k keeps an item, at most n - 1 tasks of other sub-queues are served before k |
| ProcessQueueRuns.DestroyLeavesNothing | VirtualRouter/src/core/ControlScheduler.cpp:705-717 | when the sweep of a destroyer ends, whatever other threads still do, every sub-queue is empty, if no post was in flight when it stopped waiting |
| ProcessQueueRuns.NoBodyAfterWait | VirtualRouter/src/core/ControlScheduler.cpp:705-714 | when a destroyer stops waiting no task body is running and none ever starts again, so posts made by tasks are never in flight then |
| ProcessQueueRuns.ProjectIsRingRun | VirtualRouter/src/core/ControlScheduler.cpp:581-717 | what a run does to one sub-queue is a run of its ring |
| ProcessQueueRuns.EveryTaskDestroyedOnce | VirtualRouter/src/core/ControlScheduler.cpp:581-717 | in any run that ends with all threads returned and no drain in the pool, every task ever accepted, run or unrun, was destroyed exactly once: no assumption on who closes, when, or on posts in flight |
| ProcessQueueBodies.OpenQueueRunsAll | VirtualRouter/src/core/ControlScheduler.cpp:600-656 | in every run in which the queue is not closed, each sub-queue starts the bodies of its accepted tasks in the order of acceptance, each once: of as many as have been taken, and of all of them once every thread has returned and no drain is queued |
| ProcessQueueBodies.RunBeforeDestroyed | VirtualRouter/src/core/ControlScheduler.cpp:97-118 | in such a run a task is destroyed only after its body has started |
| ProcessQueueBodies.BodySpan | VirtualRouter/src/core/ControlScheduler.cpp:97-118 | a thread is in a task body exactly from the step that starts one to the step that destroys that task |
| ProcessQueueBodies.TakenIsRun | VirtualRouter/src/core/ControlScheduler.cpp:602-613 | on an open queue every task taken is run, and nothing else is |
| ProcessQueueBodies.TopReadDecides | VirtualRouter/src/core/ControlScheduler.cpp:602-639 | however others interleave, a drain that read closed as false at the top of its loop runs what it takes until it comes there again, and one that read true destroys it unrun |
| ProcessQueueBodies.UnrunOnlyAfterClose | VirtualRouter/src/core/ControlScheduler.cpp:600-656 | in every run a task is taken unrun only once closed has been set |
| ProcessQueueBodies.LatePostsBounded | VirtualRouter/src/core/ControlScheduler.cpp:664-717 | after close at most as many tasks are accepted as there were posts that had seen the queue open and not yet claimed a ticket |
| ProcessQueueProgress.NoThreadStuck | VirtualRouter/src/core/ControlScheduler.cpp:581-717 | in every reachable state every thread inside has a next step of its own, except a destroyer that waits for scheduled or is done |
| ProcessQueueProgress.QueuedDrainStarts | VirtualRouter/src/core/ControlScheduler.cpp:581-600 | a queued drain can be started by any thread that is not busy |
| ProcessQueueProgress.OwnStepCounts | VirtualRouter/src/core/ControlScheduler.cpp:581-717 | apart from claiming a task, losing a race and taking the drain right again, every step of its own brings a thread nearer to its return, whatever the others do |
| ProcessQueueProgress.StepsBounded | VirtualRouter/src/core/ControlScheduler.cpp:581-717 | so in every run a thread takes at most 6 n + 10 steps, n the number of sub-queues, for each call it begins and each of those |
| ProcessQueueProgress.ReloadsFollowClaims | VirtualRouter/src/core/ThreadPool.hpp:191-195 | a counter is loaded again only if another thread has moved it meanwhile |
| Handles.CeilLog2NonZero | VirtualRouter/src/core/ControlScheduler.cpp:17-31 | the least number of bits whose power of two reaches v |
| Handles.GenerationMaskIs | VirtualRouter/src/core/ControlScheduler.cpp:41-47 | the generation mask is all ones over the bits the index leaves |
| Handles.PackIs | VirtualRouter/src/core/ControlScheduler.cpp:281-287 | packing puts the generation above the index and fits the word |
| Handles.PackRoundTrip | VirtualRouter/src/core/ControlScheduler.cpp:281-303 | unpacking a packed handle gives index and generation back; no handle is zero |
| Handles.UnpackRoundTrip | VirtualRouter/src/core/ControlScheduler.cpp:281-303 | packing what was unpacked gives any word back |
| Handles.HandlesDistinct | VirtualRouter/src/core/ControlScheduler.cpp:281-316 | equal handles mean equal slot and generation |
| Handles.NextGenerationIs | VirtualRouter/src/core/ControlScheduler.cpp:305-316 | generations cycle through 1..mask |
| Handles.FreedIs | VirtualRouter/src/core/ControlScheduler.cpp:346-376 | the generation after n frees, in closed form |
| Handles.StaleHandleMatches | VirtualRouter/src/core/ControlScheduler.cpp:281-316 | a stale handle matches again if and only if its slot was freed a multiple of mask times |
| DelayedSlots.DelayedTimers.constructor | VirtualRouter/src/core/ControlScheduler.cpp:150-171 | all slots vacant with generation 1, linked in index order |
| DelayedSlots.DelayedTimers.Alloc | VirtualRouter/src/core/ControlScheduler.cpp:318-344 | unlinks the head of the free list, or reports that there is none |
| DelayedSlots.DelayedTimers.FreeSlot | VirtualRouter/src/core/ControlScheduler.cpp:346-376 | next generation and back to the head of the free list |
| DelayedSlots.DelayedTimers.Schedule | VirtualRouter/src/core/ControlScheduler.h:552-663 | arms the first free slot and returns its handle, or 0 with the table as after a free |
| DelayedSlots.DelayedTimers.Claim | VirtualRouter/src/core/ControlScheduler.cpp:441-454 | claims a slot exactly if it is armed with this generation |
| DelayedSlots.DelayedTimers.Cancel | VirtualRouter/src/core/ControlScheduler.cpp:524-560 | true exactly if the handle names an armed slot, which is then freed |
| DelayedSlots.DelayedTimers.Release | VirtualRouter/src/core/ControlScheduler.cpp:378-425 | frees the slot if its generation still matches |
| DelayedSlots.Conservation | VirtualRouter/src/core/ControlScheduler.cpp:318-376 | free plus in-use slots number the maximum |
| DelayedSlots.ArmKeeps | VirtualRouter/src/core/ControlScheduler.cpp:318-344 | arming keeps each vacant slot on the free list exactly once |
| DelayedSlots.FreeKeeps | VirtualRouter/src/core/ControlScheduler.cpp:346-376 | freeing keeps each vacant slot on the free list exactly once |
| TimerRuns.StepInv | VirtualRouter/src/core/ControlScheduler.cpp:378-579 | every event keeps slots, tokens, counts and callbacks consistent (that no callback is forgotten is TimerCallbacks.OneFate) |
| TimerRuns.RunInv | VirtualRouter/src/core/ControlScheduler.cpp:378-579 | and so does every run |
| TimerRuns.SlotCensus | VirtualRouter/src/core/ControlScheduler.cpp:318-560 | in every run a slot is free once, armed, or fired with exactly one token; free plus in-use is the maximum |
| TimerRuns.AtMostOnceAndCancelIsFinal | VirtualRouter/src/core/ControlScheduler.cpp:378-560 | each callback starts at most once, and never if it was cancelled |
| TimerRuns.CancelStopsItsCallback | VirtualRouter/src/core/ControlScheduler.cpp:524-560 | while its slot was freed fewer than mask times since, cancel of the handle schedule returned succeeds exactly while that callback is armed, and cancels that callback and no other |
| TimerRuns.CancelledNeverRuns | VirtualRouter/src/core/ControlScheduler.cpp:524-560 | after such a cancel its callback has not started and never does, in any continuation |
| TimerRuns.DiscardTwice | VirtualRouter/src/core/ControlScheduler.cpp:505-522 | discarding a fired slot twice is discarding it once |
| TimerRuns.TokenEndFreesSlot | VirtualRouter/src/core/ControlScheduler.cpp:378-425 | the end of a token's job, run or discarded, frees exactly its slot |
| TimerRuns.FiredSlotWaitsForToken | VirtualRouter/src/core/ControlScheduler.cpp:378-560 | nothing else changes a fired slot |
| TimerRuns.PendingCountsTokens | VirtualRouter/src/core/ControlScheduler.h:71-130 | pending equals the number of live tokens of the ref in every run |
| TimerRuns.ReleasedNothing | VirtualRouter/src/core/ControlScheduler.h:843-870 | once release returned, no job or slot holds a callback of the ref |
| TimerRuns.ReleaseIsFinal | VirtualRouter/src/core/ControlScheduler.h:843-870 | in every continuation no callback of the ref is queued, armed or running, and none starts |
| TimerCallbacks.OneFate | VirtualRouter/src/core/ControlScheduler.cpp:378-560 | in every run each callback ever posted or scheduled waits in a job or slot, or was started once, or was cancelled, or was dropped (refused by a ring or by the time manager, discarded, or begun after its ref closed): exactly one of these |
| TimerCallbacks.UndisturbedRunsAll | VirtualRouter/src/core/ControlScheduler.cpp:378-425 | in every run without cancel, refusal, discard or release, each callback that no longer waits was started, exactly once |
| TimerCallbacks.CanStart | VirtualRouter/src/core/ControlScheduler.cpp:378-522 | in every reachable state a waiting callback of a live ref is at most two events from its start: its timer fires and its token is begun, or its job is begun |
| TimerCallbacks.ReleaseCanEnd | VirtualRouter/src/core/ControlScheduler.h:843-870 | a release can end once no job and no slot holds a callback of its ref |
| Traversal.WalkDescendants | VirtualRouter/external/pugixml.cpp:10186-10214 | following first-child, next-sibling and parent links visits the descendants of a node, each once, in preorder, and stops |
| Traversal.NextNode | VirtualRouter/external/pugixml.cpp:10199-10212 | one round goes from a visited node to the next in preorder, or ends at the last |
| AxisWalks.BehindIsFollowing | VirtualRouter/external/pugixml.cpp:10237-10272 | what comes behind the subtree of a node is its following axis |
| AxisWalks.WalkFollowing | VirtualRouter/external/pugixml.cpp:10237-10272 | the stackless loop lists the following axis of an element in document order, and stops |
| AxisWalks.WalkFollowingAttribute | VirtualRouter/external/pugixml.cpp:10391-10412 | from an attribute it goes on below its element |
| AxisWalks.FrontIsPreceding | VirtualRouter/external/pugixml.cpp:10274-10314 | what the backward walk visits is the preceding axis: every node before n that is not above it |
| AxisWalks.LeaveNode | VirtualRouter/external/pugixml.cpp:10276-10286 | the start of the walk: up to the nearest node with a previous sibling |
| AxisWalks.ClimbBack | VirtualRouter/external/pugixml.cpp:10298-10310 | from a leaf up, listing the parents passed unless they are ancestors of n |
| AxisWalks.WalkPreceding | VirtualRouter/external/pugixml.cpp:10274-10314 | the stackless loop lists the preceding axis from the nearest node backwards, each node once, and stops |
| Documents.PreorderHas | VirtualRouter/external/pugixml.cpp:10186-10214 | the traversal lists exactly the nodes of the tree |
| Documents.BeforeIsTraversalOrder | VirtualRouter/external/pugixml.cpp:8246-8311 | document order is position in the traversal |
| NodeOrder.NodeIsBeforeSibling | VirtualRouter/external/pugixml.cpp:8246-8268 | walking sibling links from both nodes decides their order |
| NodeOrder.NodeIsBefore | VirtualRouter/external/pugixml.cpp:8270-8311 | for any two distinct nodes of a tree, true exactly if the left one comes first in preorder |
| NodeOrder.NodeIsBeforeUneven | VirtualRouter/external/pugixml.cpp:8285-8310 | the same at different depths, where one may be an ancestor of the other |
| NodeOrder.DocumentOrderTotal | VirtualRouter/external/pugixml.cpp:8246-8311 | document order is a total order, as sorting demands |
| NodeSorting.NodeOrderTotal | VirtualRouter/external/pugixml.cpp:8366-8402 | document order of elements and attributes, an element before its attributes, is a total order |
| NodeSorting.SortedIsSortDoc | VirtualRouter/external/pugixml.cpp:9180-9183 | any rearrangement of a node set, attributes included, that is in order is the document order of that set |
| NodeSorting.CompareNodes | VirtualRouter/external/pugixml.cpp:8351-8402 | the comparator, with its shortcut by buffer positions and its attribute cases, answers document order, except that an attribute without a position comes before itself |
| NodeSorting.ComparisonDecides | VirtualRouter/external/pugixml.cpp:8366-8402 | between different nodes that is the total document order; it is a strict order exactly if every attribute has a position |
| NodeSorting.SortNodes | VirtualRouter/external/pugixml.cpp:7752-7780 | the quicksort with that comparator, applied to the array of a node set, gives its document order, the rest of the array untouched |
| NodeSorting.GetOrder | VirtualRouter/external/pugixml.cpp:9048-9062 | comparing neighbours finds a set in document order or its reverse, and never calls another one so |
| NodeSorting.SortSet | VirtualRouter/external/pugixml.cpp:9064-9085 | whatever the set is known or found to be, it ends in document order, or in reverse if asked for |
| NodeSorting.FirstNode | VirtualRouter/external/pugixml.cpp:9087-9106 | the first node in document order: from the front, from the end, or by a search |
| NodeSorting.Reverse | VirtualRouter/external/pugixml.cpp:7660-7664 | reverses the range in place |
| Sorting.InsertionSort | VirtualRouter/external/pugixml.cpp:7691-7711 | rearranges the range into order, leaving the rest of the array alone |
| Sorting.Median3 | VirtualRouter/external/pugixml.cpp:7713-7723 | the index of the middle one of three elements |
| Sorting.Partition3 | VirtualRouter/external/pugixml.cpp:7725-7750 | rearranges the range into what compares below the pivot, what equals it and what is greater |
| Sorting.Sort | VirtualRouter/external/pugixml.cpp:7752-7780 | for any comparison that decides a total order between different elements, and is strict or given no repetitions, terminates with a sorted rearrangement of the range and nested calls within log2 of its length |
| Sorting.SortedUnique | VirtualRouter/external/pugixml.cpp:7752-7780 | a sequence has only one sorted rearrangement |
| Hashing.ProbesDistinct | VirtualRouter/external/pugixml.cpp:7796-7811 | 2^k triangular probes never repeat a bucket |
| Hashing.ProbeVisitsEvery | VirtualRouter/external/pugixml.cpp:7796-7811 | they visit every bucket, each exactly once |
| Hashing.NextBucket | VirtualRouter/external/pugixml.cpp:7796-7810 | the masked update of the bucket follows the triangular sequence |
| Hashing.HashInsert | VirtualRouter/external/pugixml.cpp:7782-7815 | with a bucket free, inserts and returns true exactly if the key is absent; the full assertion is never reached |
| Hashing.HashSize | VirtualRouter/external/pugixml.cpp:9200-9201 | the smallest power of two that is at least one and a half times n |
| Hashing.SkipHead | VirtualRouter/external/pugixml.cpp:7668-7670 | the skipped head has no equal neighbours |
| Hashing.UniqueInPlace | VirtualRouter/external/pugixml.cpp:7666-7689 | keeps each element that differs from the one before it |
| Hashing.HashDedupe | VirtualRouter/external/pugixml.cpp:9194-9222 | keeps, in order, the first element of each non-null key |
| Hashing.RemoveDuplicates | VirtualRouter/external/pugixml.cpp:9192-9228 | hashing on unsorted sets of more than two nodes, merging neighbours otherwise |
| Hashing.RemoveDuplicatesIsDedupe | VirtualRouter/external/pugixml.cpp:9192-9228 | either way what remains is the first occurrence of each node |
| Hashing.DedupeIsFirsts | VirtualRouter/external/pugixml.cpp:9192-9228 | that is, exactly the positions holding a node for the first time, in order |
| XPathRewrite.EvalSetNoDup | VirtualRouter/external/pugixml.cpp:10486-10490 | a node set never repeats a node, on any axes, although some of them skip remove_duplicates |
| XPathRewrite.StepSelects | VirtualRouter/external/pugixml.cpp:10448-10493 | a step selects whatever its sources yield |
| XPathRewrite.OptimizeNormal | VirtualRouter/external/pugixml.cpp:11240-11364 | one pass leaves no mergeable step and no [position() = e], and gives every predicate the kind that it deserves |
| XPathPreserves.PositionFree | VirtualRouter/external/pugixml.cpp:11320-11349 | an expression is_posinv_expr accepts has the same value at every position and size |
| XPathPreserves.MergeFrom | VirtualRouter/external/pugixml.cpp:11277-11293 | descendant-or-self::node() followed by an axis reaches what the merged axis reaches, from elements and attributes |
| XPathPreserves.MergeSame | VirtualRouter/external/pugixml.cpp:11277-11293 | with position-invariant predicates the merged step selects the same node set |
| XPathPreserves.PositionEquals | VirtualRouter/external/pugixml.cpp:11257-11264 | [position() = e] and [e] keep the same nodes |
| XPathPreserves.ConstantAgrees | VirtualRouter/external/pugixml.cpp:9995-10022 | the constant-position path keeps what the generic loop keeps |
| XPathPreserves.OnceEnough | VirtualRouter/external/pugixml.cpp:10454-10458 | stopping the fill at the first match is enough for a sole predicate [1] |
| XPathPreserves.OptimizePreserves | VirtualRouter/external/pugixml.cpp:11240-11364 | every parsed query and its optimized form have the same type and value in every context of every tree |
| XPathModes.ModesAgree | VirtualRouter/external/pugixml.cpp:9867-9870 | on every axis, evaluation in mode all is full evaluation; first keeps the first node in document order; any keeps emptiness; a set typed sorted or reverse is so |
| XPathModes.QueryPreserved | VirtualRouter/external/pugixml.cpp:11124-11146 | an optimized query evaluated with early stops has the value, node set and first node of the parsed query evaluated in full (what these are is XPathMeaning.QueryMeans) |
| XPathModes.AxisArranged | VirtualRouter/external/pugixml.cpp:10448-10452 | every axis, from elements and attributes, lists its nodes in the order step_do takes it to have: document order, or its reverse on the reverse axes |
| XPathModes.FirstOfIs | VirtualRouter/external/pugixml.cpp:9087-9106 | taking the first of a sorted set, the last of a reverse one, or the least of an unsorted one, gives the first in document order |
| XPathMeaning.AxisIs | VirtualRouter/external/pugixml.cpp:10163-10435 | each of the twelve axes, from elements and attributes, lists exactly the nodes of the tree in that relation to the context node: for siblings, same parent and before or after it |
| XPathMeaning.PlaceIs | VirtualRouter/external/pugixml.cpp:9943-9993 | position() in an arranged set counts the nodes of the set that come before, in its direction |
| XPathMeaning.StepMeans | VirtualRouter/external/pugixml.cpp:10448-10493 | a step from one node, through all its predicates, keeps the nodes that axis, test and conditions describe |
| XPathMeaning.UnionSelects | VirtualRouter/external/pugixml.cpp:11112-11129 | a node is in a union if and only if it is in its left or its right operand |
| XPathMeaning.FilterSelects | VirtualRouter/external/pugixml.cpp:11130-11145 | a filter keeps exactly the nodes of its argument of which the condition is true, at their places in document order |
| XPathMeaning.ExprMeans | VirtualRouter/external/pugixml.cpp:10545-10725 | numbers and conditions have the value that the query denotes |
| XPathMeaning.SetMeans | VirtualRouter/external/pugixml.cpp:11108-11209 | full evaluation of a parsed query yields exactly the nodes that the query denotes, described by their paths |
| XPathMeaning.QueryMeans | VirtualRouter/external/pugixml.cpp:11108-11209 | so does what pugixml computes, rewritten and stopping early: the number, the truth, the node set, its first node in document order, none exactly if the set is empty |
| XPathMeaning.EarlyStop | VirtualRouter/external/pugixml.cpp:9867-9870 | asked only whether there is a node, or for the first on a forward axis, a step stops at one |
| XPathMeaning.NumberOrder | VirtualRouter/external/pugixml.cpp:9872-9877 | numbers but NaN are totally ordered, finite ones as reals between the infinities; NaN compares with nothing |
| XPathMeaning.NumberSums | VirtualRouter/external/pugixml.cpp:10689-10690 | sums with infinities and NaN |
| XPathFilters.ApplyPredicateBoolean | VirtualRouter/external/pugixml.cpp:9943-9967 | the in-place filter loop, with and without stopping at the first match |
| XPathFilters.ApplyPredicateNumber | VirtualRouter/external/pugixml.cpp:9969-9993 | the in-place loop for numeric predicates |
| XPathFilters.ApplyPredicateNumberConst | VirtualRouter/external/pugixml.cpp:9995-10022 | the node at a constant position, if it is one, moved to the front |
| XPathFilters.ApplyPredicate | VirtualRouter/external/pugixml.cpp:10024-10036 | dispatch on kind and type |
| XPathFilters.ApplyPredicates | VirtualRouter/external/pugixml.cpp:10038-10046 | each predicate filters what the one before it kept |
| AttributeText.TextOutputEscaped | VirtualRouter/external/pugixml.cpp:3961-4011 | writes the escaped form of an attribute value, for either kind of quote |
| AttributeText.EscapedToken | VirtualRouter/external/pugixml.cpp:3973-4009 | whatever follows, an escaped character reads as one token that stands for the character; it is left as it is exactly if it is no control character, ampersand, less-than sign or the quote in use |
| AttributeText.EscapeRoundTrip | VirtualRouter/external/pugixml.cpp:3961-4011 | decoding the escaped form of any NUL-free value gives the value and stops at its quote |
| GapParser.Gap.Push | VirtualRouter/external/pugixml.cpp:2450-2467 | opens or widens the gap without changing the text decoded so far or anything unread |
| GapParser.Gap.Flush | VirtualRouter/external/pugixml.cpp:2469-2480 | closes the gap: the decoded text becomes contiguous |
| GapParser.FindReference | VirtualRouter/external/pugixml.cpp:2483-2621 | finds the entity or character reference at an ampersand, or how far it looked in vain (which character each stands for is Spellings.SpellingToken) |
| GapParser.StrconvEscape | VirtualRouter/external/pugixml.cpp:2483-2621 | replaces a reference in place, or passes over characters that stand for themselves |
| GapParser.ParseWconv | VirtualRouter/external/pugixml.cpp:2819-2853 | decodes in place up to the quote exactly as Decode says, NULL if there is none; writes stay behind the read position and nothing outside is touched (what Decode yields for any spelling is Spellings.ValueRead) |
| GapParser.PrintedValueParses | VirtualRouter/external/pugixml.cpp:2819-2853 | the printed form of any NUL-free value, parsed in place, leaves that value in the buffer |
| GapParser.PrintThenParse | VirtualRouter/external/pugixml.cpp:3961-4011 | printing a value in quotes into a buffer and parsing it there in place leaves the value, for either quote and any text behind it |
| Spellings.Utf8Inverts | VirtualRouter/external/pugixml.cpp:1504-1538 | every code of up to 22 bits, all of Unicode with it, is read back from the bytes written for it, by a decoder that knows nothing of the writer |
| Spellings.SpellingToken | VirtualRouter/external/pugixml.cpp:2483-2621 | whatever follows, each of the five names and each decimal or hexadecimal reference, in either letter case and with leading zeros, is one token that stands for its character in UTF-8 |
| Spellings.OnlySpellings | VirtualRouter/external/pugixml.cpp:2483-2621 | an ampersand with which none of these begins stands for itself |
| Spellings.PartToken | VirtualRouter/external/pugixml.cpp:2819-2853 | whatever follows, a spelling, a plain character or a line break or tab is one token that stands for what it should |
| Spellings.ValueRead | VirtualRouter/external/pugixml.cpp:2819-2853 | a value in which these are mixed in any way decodes to what its parts stand for, in order, and stops at its quote |
| Spellings.ParseSpelled | VirtualRouter/external/pugixml.cpp:2819-2853 | parsed in place, such a value leaves that in the buffer, the rest of which is untouched |
| Integers.HexOverflowExact | VirtualRouter/external/pugixml.cpp:4590-4592 | the hexadecimal digit count detects overflow exactly |
| Integers.DecOverflowExact | VirtualRouter/external/pugixml.cpp:4611-4619 | digit count, lead digit and high bit of the wrapped result detect overflow exactly, for 16, 32 and 64 bits |
| Integers.StringToInteger | VirtualRouter/external/pugixml.cpp:4552-4632 | the value the text denotes, clamped to the bounds, for numerals of any length |
| Integers.IntegerToString | VirtualRouter/external/pugixml.cpp:4683-4701 | fills the end of the buffer with sign and decimal digits |
| Integers.PrintedValue | VirtualRouter/external/pugixml.cpp:4683-4701 | the decimal form of every integer denotes that integer |
| Integers.PrintedWord | VirtualRouter/external/pugixml.cpp:4683-4701 | what is written for the machine word of x is the decimal form of x |
| Integers.RoundTrip | VirtualRouter/external/pugixml.cpp:4552-4701 | parsing what was printed gives the same machine word, the minimum included |
| Numerals.DigitIs | VirtualRouter/external/pugixml.cpp:4552-4632 | the scanner takes exactly the digits of the base for digits, letters in either case, and reads what they stand for |
| Numerals.ValueIsNumber | VirtualRouter/external/pugixml.cpp:4552-4632 | reading digits from the left gives the number that they denote by their places |
| Numerals.NumeralAt | VirtualRouter/external/pugixml.cpp:4581-4632 | a numeral is read to its end, whatever comes behind it but a digit |
| Numerals.TextValue | VirtualRouter/external/pugixml.cpp:4552-4632 | spaces, sign, 0x or 0X prefix and digits of the base, with anything behind them but a digit, denote that number with that sign |
| Numerals.DecimalIs | VirtualRouter/external/pugixml.cpp:4683-4701 | the decimal form consists of digits that denote the number, without a leading zero |
| Arp.RunInv | VirtualRouter/src/infrastructure/Arp.cpp:70-184 | over every run the table is the COMPLETE part of the cache, queues keep their bounds, and every removal for want of an answer follows exactly the configured number of requests |
| Arp.StepInv | VirtualRouter/src/infrastructure/Arp.cpp:244-317 | every operation keeps that, stale timers included |
| Arp.LookupAgrees | VirtualRouter/src/infrastructure/Arp.cpp:237-241 | the data plane finds exactly the COMPLETE entries, with their MACs; these have empty queues |
| Arp.UnansweredRequests | VirtualRouter/src/infrastructure/Arp.cpp:396-437 | up to the limit every firing of the retry timer sends one request |
| Arp.UnansweredGivesUp | VirtualRouter/src/infrastructure/Arp.cpp:413-419 | the firing after the configured number of requests removes the entry, for limits below 2^32 - 1 |
| Arp.UnansweredForever | VirtualRouter/src/infrastructure/Arp.cpp:413-419 | at the limit 2^32 - 1 no firing ever removes it |
| Arp.ArpCache.ResolveAndSend | VirtualRouter/src/infrastructure/Arp.cpp:244-280 | keeps the table equal to the COMPLETE part of the cache, touches no other address and never changes what the data plane finds; sends, queues or drops the packet |
| Arp.ArpCache.ScheduleRequest | VirtualRouter/src/infrastructure/Arp.cpp:396-437 | keeps the object valid and other addresses untouched: either one more request is counted and lookups stay, or the entry is gone everywhere after exactly the configured number of requests |
| Arp.ArpCache.CompleteArpEntry | VirtualRouter/src/infrastructure/Arp.cpp:122-160 | keeps the object valid and other addresses untouched: unless sticky, the address is found at the new MAC, nothing is queued and what waited was sent in order |
| Arp.ArpCache.ProcessQueuedPackets | VirtualRouter/src/infrastructure/Arp.cpp:364-377 | sends the queue in order to the new MAC and empties it |
| Arp.ArpCache.ReceiveReply | VirtualRouter/src/infrastructure/Arp.cpp:290-317 | keeps the object valid and other addresses untouched: an accepted reply makes its sender resolvable at that MAC, any other changes nothing |
| Arp.ArpCache.AddStaticArpEntry | VirtualRouter/src/infrastructure/Arp.cpp:99-111 | keeps the object valid, whatever entry and timers there were: the address is then found at that MAC with nothing queued, others untouched |
| Arp.ArpCache.RemoveStaticArpEntry | VirtualRouter/src/infrastructure/Arp.cpp:113-120 | keeps the object valid: the address is in neither cache, table nor order, others untouched |
| Arp.ArpCache.RemoveArpEntry | VirtualRouter/src/infrastructure/Arp.cpp:171-184 | the same for the expiry callback |
| Arp.ArpCache.RenewArpEntry | VirtualRouter/src/infrastructure/Arp.cpp:162-169 | keeps the object valid: a renewal probe is counted, or the entry given up after exactly the configured number; an unknown address changes nothing |
| Arp.ArpCache.OnRetry | VirtualRouter/src/infrastructure/Arp.cpp:426-436 | the same for the retry callback, stale or not |
| Arp.ArpCache.ClearAll | VirtualRouter/src/infrastructure/Arp.cpp:70-92 | keeps the object valid and leaves no address resolvable |
| Arp.ArpCache.GetMac | VirtualRouter/src/infrastructure/Arp.cpp:237-241 | in a valid object the data plane finds the MAC of a COMPLETE entry and nothing else |
| Arp.ArpCache.SetRunning | VirtualRouter/src/infrastructure/Arp.cpp:54-68 | keeps the object valid and every lookup as it is |
| ArpTimers.StaticRun | VirtualRouter/src/infrastructure/Arp.cpp:99-111 | in every run in which nobody completes or removes it, a static entry stands as long as no expiry callback has fired and at most PROBE_COUNT request callbacks have sent a probe, and no longer |
| ArpTimers.StaticSafeIff | VirtualRouter/src/infrastructure/Arp.cpp:99-111 | some such run loses it if and only if a callback for its address, recorded or not, was pending when it was added |
| ArpPackets.ResolvedSends | VirtualRouter/src/infrastructure/Arp.cpp:244-280 | a packet for a resolved address goes out at once, to the MAC that the data plane finds, and nothing else changes |
| ArpPackets.UnresolvedQueues | VirtualRouter/src/infrastructure/Arp.cpp:244-280 | a packet for an unresolved one is the last of its queue, if there is room, and one more request is made |
| ArpPackets.UnknownEnters | VirtualRouter/src/infrastructure/Arp.cpp:244-280 | one for an unknown address makes an entry with the packet waiting and a first request, unless there are too many unresolved ones |
| ArpPackets.OffDrops | VirtualRouter/src/infrastructure/Arp.cpp:244-280 | with IP_ARP_INCOMPLETE off packets are dropped |
| ArpPackets.HeldRun | VirtualRouter/src/infrastructure/Arp.cpp:244-280 | over any run in which the address stays unresolved, its queue is what was handed over and found room, in order |
| ArpPackets.CompleteSends | VirtualRouter/src/infrastructure/Arp.cpp:122-160 | completing an unresolved entry sends its queue in order, to the new MAC, and empties it |
| ArpPackets.ReplySendsAll | VirtualRouter/src/infrastructure/Arp.cpp:364-377 | from the packet that finds an address unknown to the reply that completes it, in any run: the reply sends every packet handed over since that found room, each once, in order |
| Nud.StepInv | VirtualRouter/src/infrastructure/Ndp.cpp:240-470 | every handler and every timer callback, recorded or not, keeps table, counters and timer records consistent and touches one neighbor only |
| Nud.RunInv | VirtualRouter/src/infrastructure/Ndp.cpp:240-470 | in every run from the empty cache the table is the resolved part of the cache, counters keep their width, and if NUD_RETRY_ATTEMPTS is not 0 no callback is without its record |
| NudProbing.ProbingRun | VirtualRouter/src/infrastructure/Ndp.cpp:316-470 | every timer of the neighbor that ends brings removal one timer closer; solicitations sent plus still possible never grow |
| NudProbing.ZeroRun | VirtualRouter/src/infrastructure/Ndp.cpp:316-470 | with NUD_RETRY_ATTEMPTS at 0 every final wait, the recorded one or another, ends one group, and retry callbacks left over end none and send nothing |
| NudProbing.NudTerminates | VirtualRouter/src/infrastructure/Ndp.cpp:316-470 | unanswered probing of any idle neighbor, whatever timers are left over, is in a group or UNREACHABLE between two with at most attempts times groups solicitations (NUD_RETRY + 1 groups in a first run), until exactly a fixed number of its timers have ended and it is removed; without timers left over it is gone without trace and the solicitations are counted exactly |
| NudProbing.ReachableIdle | VirtualRouter/src/infrastructure/Ndp.cpp:418-433 | in every run, a resolved neighbor outside probing is idle |
| NudProbing.NudForever | VirtualRouter/src/infrastructure/Ndp.cpp:332-336 | with NUD_RETRY at 255 it never ends |
| NudProbing.ForeverStart | VirtualRouter/src/infrastructure/Ndp.cpp:418-433 | from the start of probing any idle neighbor |
| NudAnswers.AnsweredRun | VirtualRouter/src/infrastructure/Ndp.cpp:148-177 | a settled neighbor with retry callbacks pending is removed, in every run without a new probe, at exactly their max(0, NUD_RETRY - attempt) + 1st firing, and they fall silent after NUD_RETRY + 1 firings for every further one |
| NudAnswers.SafeRun | VirtualRouter/src/infrastructure/Ndp.cpp:148-177 | one without a pending retry callback stays, in every run without a new probe |
| NudAnswers.AnswerSafeIff | VirtualRouter/src/infrastructure/Ndp.cpp:402-415 | so some run loses an answered neighbor if and only if a retry callback, recorded or not, was pending when it answered |
| NudAnswers.ProbeAnswers | VirtualRouter/src/infrastructure/Ndp.cpp:316-470 | an answer inside a group of probes can be lost; one between two groups can exactly if a callback is left without its record |
| NudAnswers.ReachableAnswers | VirtualRouter/src/infrastructure/Ndp.cpp:316-470 | in every reachable state with NUD_RETRY_ATTEMPTS above 0 that is: inside a group always, between groups never |
| NudAnswers.ZeroAnswers | VirtualRouter/src/infrastructure/Ndp.cpp:369-374 | with it at 0, probing is between groups at once and an answer can be lost exactly if a callback was pending when it began |
| NudAnswers.AnsweredYetRemoved | VirtualRouter/src/infrastructure/Ndp.cpp:267-286 | a run from an empty cache with the default settings: first packet, solicitation, answer, and three firings of the timer left running remove the neighbor |
| NudAnswers.AnsweredBetweenYetRemoved | VirtualRouter/src/infrastructure/Ndp.cpp:369-374 | a run with NUD_RETRY_ATTEMPTS at 0: an answer between groups, then four firings of the callback left without its record |
| NudPackets.PacketWaits | VirtualRouter/src/infrastructure/Ndp.cpp:240-286 | a packet for a neighbor that is not REACHABLE is not sent and is the last of what waits, if there was room |
| NudPackets.StaleIsProbed | VirtualRouter/src/infrastructure/Ndp.cpp:258-261 | a packet for a STALE or DELAY neighbor starts a probe: the neighbor is afterwards in a group, between groups or lost |
| NudPackets.UnknownIsSolicited | VirtualRouter/src/infrastructure/Ndp.cpp:267-286 | a packet for an unknown one enters it with a retry timer running and, if the interface is up and no timer was left running, exactly one more solicitation; with NUD_RETRY at 0 and no timer left it is gone at once |
| NudPackets.HeldRun | VirtualRouter/src/infrastructure/Ndp.cpp:240-286 | over any run in which the neighbor stays in the cache and not REACHABLE, what waits for it is what was handed over and found room, in order |
| NudPackets.NothingWaitsForResolved | VirtualRouter/src/infrastructure/Ndp.cpp:148-177 | in every run from the empty cache nothing waits for a neighbor whose address is known and that is not under probe |
| NudPackets.AnswerSendsAll | VirtualRouter/src/infrastructure/Ndp.cpp:288-303 | from the packet that finds a neighbor unknown or STALE to its next answer, in any run: the answer sends every packet handed over since that found room, each once, in order, to the MAC it brings |
| NudPackets.RemovalLoses | VirtualRouter/src/infrastructure/Ndp.cpp:221-234 | a neighbor that is removed takes with it what waits; at most the packet that was just handed over stays |
| NudCache.NeighborCache.GetMac | VirtualRouter/src/infrastructure/Ndp.cpp:137-142 | in a valid object the data plane finds exactly the resolved neighbors, with their MACs |
| NudCache.NeighborCache.CompleteNdpEntry | VirtualRouter/src/infrastructure/Ndp.cpp:148-177 | keeps the object valid and other neighbors untouched; the table has the MAC, what waited was sent, and the neighbor is doomed exactly if a retry callback is pending |
| NudCache.NeighborCache.ProcessQueuedPackets | VirtualRouter/src/infrastructure/Ndp.cpp:288-303 | sends what waited in order and forgets it |
| NudCache.NeighborCache.RemoveEntry | VirtualRouter/src/infrastructure/Ndp.cpp:221-234 | keeps the object valid and other neighbors untouched; the neighbor is in neither cache, table, order nor pending packets |
| NudCache.NeighborCache.ScheduleNeighborSolicitation | VirtualRouter/src/infrastructure/Ndp.cpp:316-416 | from any state a caller schedules in, keeps the object valid and other neighbors untouched; afterwards a retry timer runs, or the final wait does, or the neighbor is gone |
| NudCache.NeighborCache.SendNeighborSolicitation | VirtualRouter/src/infrastructure/Ndp.cpp:309-314 | the same, and nothing is sent while a retry timer runs |
| NudCache.NeighborCache.Begin | VirtualRouter/src/infrastructure/Ndp.cpp:418-433 | startNud without a probe limit: keeps the object valid and brings a resolved neighbor into a group, between groups or out of the cache; with attempts above 0 one solicitation goes out if the interface is up and a retry timer runs; with NUD_RETRY_ATTEMPTS at 0 every pending callback stays pending without its record |
| NudCache.NeighborCache.OnRetryTimer | VirtualRouter/src/infrastructure/Ndp.cpp:402-415 | the callback, recorded or not, keeps the object valid; inside a group it brings the end one timer closer, and of a settled neighbor it counts one attempt more or removes it |
| NudCache.NeighborCache.OnFinalWait | VirtualRouter/src/infrastructure/Ndp.cpp:459-470 | the callback, recorded or not, keeps the object valid and, between groups, brings the end one timer closer |
| NudCache.NeighborCache.ResolveAndSend | VirtualRouter/src/infrastructure/Ndp.cpp:240-286 | keeps the object valid and other neighbors untouched: a REACHABLE neighbor is sent the packet at once, to its MAC; for any other it is the last of what waits, if there is room; an unknown one is entered and solicited, a STALE or DELAY one is put under probe or lost, and one in resolution or under probe is left at that; the lookup never turns to another MAC |
| NudCache.NeighborCache.OnReachableTimeout | VirtualRouter/src/infrastructure/Ndp.cpp:435-447 | keeps the object valid: a new probe if the cache is refreshed, otherwise STALE with table and timers as they were; an unknown neighbor changes nothing |
| NudCache.NeighborCache.RefreshNeighborEntry | VirtualRouter/src/infrastructure/Ndp.cpp:449-457 | keeps the object valid: a REACHABLE neighbor is put under probe or lost, anything else stays |
| CommandTree.GetLevel | Utils/CommandParser/CommandParser.cpp:18-34 | one level per four leading spaces |
| CommandTree.HarvestCommand | Utils/CommandParser/CommandParser.cpp:36-65 | the first word and what follows it without the spaces between |
| CommandTree.ProcessCommands | Utils/CommandParser/CommandParser.cpp:67-85 | terminates, reads at least one line, and leaves a list of the lines read with each node below the nearest line further out |
| CommandTree.ParseCommands | Utils/CommandParser/CommandParser.cpp:127-132 | in preorder the tree lists the harvested lines, and every parent is the nearest earlier line with a strictly smaller level |
| CommandTree.TreeOfUnique | Utils/CommandParser/CommandParser.cpp:67-85 | that determines the tree |
| CommandTree.PrintParseRoundTrip | Utils/CommandParser/CommandParser.cpp:18-85 | any tree read from the printed form of a forest is that forest |
| CommandTree.LaidLine | Utils/CommandParser/CommandParser.cpp:18-65 | however a line is laid out, with up to three odd leading spaces and any number between name and description, it is read as its level and entry |
| CommandTree.LineIsLaid | Utils/CommandParser/CommandParser.cpp:18-65 | every line with more than spaces is laid out for the level and entry read from it, and for no other |
| CommandTree.LaidRoundTrip | Utils/CommandParser/CommandParser.cpp:18-85 | lines laid out so for the nodes of a forest are read as that forest |
| CommandTree.PrintedFirst | Utils/CommandParser/CommandParser.cpp:67-85 | a printed forest starts at level 0, as the parser demands |

## Left out

- ProcessQueueRuns.DestroyLeavesNothing: speaks of the moment the sweep ends, so it takes external posters to have stopped by then, as ControlScheduler.h:171-172 demands; posts of tasks are covered by NoBodyAfterWait, and EveryTaskDestroyedOnce assumes nothing of the kind.
- Weak memory orderings, counter overflow in the rings, `_mm_pause`, condition variables and fair scheduling: steps are sequentially consistent over unbounded counters, and progress is stated as steps a thread can take and bounds on them.
- The rings, the process queue and the ref machinery are values changed by steps, not heap objects, since their point is the interleaving of threads; the delayed-slot table alone is also given in place.
- The pool is a counter of queued drains inside `ProcessQueue`, because its ring hands each queued task to one worker; the destroyer goes on when `scheduled` is false, which admits every run of the source and more.
- Queue creation, queue generations and `finalizeDestroy`, and the label lookup of `post`. In the source a drain queued before `finalizeDestroy` but starting after it returns at once, which is why external posters must have stopped before a queue is destroyed; in the model such a drain runs.
- Interleavings inside one delayed-slot operation, the lock-free free list, `RefTimerNode` memory, calls through a ref that overlap its release, and `TimeManager`, which is a source of fire events here.
- Handle widths with `indexBits` of 32 or more, where the source shifts a 32-bit word by its width; overflow of `size_t` in `ceilLog2NonZero`.
- XPath strings, name and string functions, node-set variables, namespaces, `translate` tables and the attribute-comparison shortcut; numbers are reals with NaN and infinities, without rounding.
- The loops of the child, attribute, sibling and ancestor axes: they follow one link each, and the model lists what they visit.
- Out-of-memory paths of pugixml, including `remove_duplicates` returning early when its table cannot be allocated.
- Nodes of different documents in the document-order comparator; that positions in the parse buffer follow document order is what pugixml promises for documents whose nodes were never moved.
- `parse_wnorm`, `parse_eol`, `parse_simple` and text content; the flag that drops control characters; wide-character builds.
- Integer types narrower than `int`, whose operands are promoted; floating-point conversion.
- `Arp`: proxy entries, incoming requests, packet building and expiry times; the value of `incompletes` is modelled but nothing is claimed of it. Configuration is fixed for the life of the object. `Arp` alone admits any callback at any moment; `ArpTimers` says which are pending.
- `Nud`: probe and resolution limits with their queues, strict host mode (where a reachable time can end during probing), DAD, static entries, advertisements for unknown neighbors, router discovery and shutdown of the service; a cancelled timer does not fire, the timer service never refuses, and configuration is fixed.
- `AtomicHashMap`, `StableHashMap`, `RCU` and the routing table are not part of this model; maps stand for them.
- Configuration registries, interfaces, hardware queues, command line, Telnet, REST and logging: I/O and wiring with easy members only.
- `CommandTree`: JSON text and files; an array of commands is a list grown at its end.
