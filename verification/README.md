# A verified model of the task scheduler

The library runs callbacks on a fixed number of pools. A pool is a circular queue of task packages, drained by
one worker thread. A submission goes to a given pool or to the pool at the root of a 4-ary heap of pools, which is
rebuilt in place every time. A separate component hands out equal blocks of one buffer through a free list that is
threaded through the buffer itself.

| files | what they model | form |
|---|---|---|
| `Structures`, `Arithmetic` | packages, C integer ranges, status codes; facts about remainders | values |
| `Rings`, `TaskPools` | one circular queue and its critical section | a value, and the object that refines it |
| `HeapOrder`, `Heapify` | the index tree, heap order and heights; the descent in place | lemmas, and methods on an array |
| `HeapReference` | what a rebuild of the heap leads to, element by element | functions |
| `HeapRace`, `HeapRaceChoice`, `HeapRaceWitnesses` | several submitters that rebuild the heap at the same time, entry by entry | a transition system |
| `Scheduler`, `LoadBalance` | the scheduler object and submission; loads over whole runs | a class, and lemmas |
| `WaitLoop` | the loop that waits for the pools | a method with a loop |
| `Protocol`, `ProtocolInvariant`, `ProtocolResults`, `ProtocolSubmission`, `ProtocolTermination`, `ProtocolWitnesses` | submitters, workers, waiting and terminating, interleaved | a transition system |
| `PoolMemory`, `PoolChain`, `PoolRuns`, `PoolAllocator` | the buffer, its links, runs of operations, the object | values, and a class over an array |

`dafny verify dfyconfig.toml` checks all of it.

## The main results

- *Termination drops nothing* (`TerminationDropsNothing`): if no submission is under way while the scheduler is being
  terminated, every accepted task of every pool has been dequeued and its callback has returned when that is done,
  whatever the interleaving and however many threads submitted before. Without this condition the tasks dropped are
  exactly those counted in after the worker last found its queue empty (`TerminationDrops`).
- *Lifetime of a slot in flight* (`InFlightSlot`, `KeptThroughout`, `SlotIsLost`): the package that last went into the
  slot a worker was handed is its own exactly as long as the ring is not full, which is `size < reserved`, counting a
  package that is being copied as in. The slot is lost exactly when a package is copied into a ring with one free slot
  left while a package is held, or when the package is taken from a ring that has overflowed.
- *Each task once* (`StartsInOrder`, `PrefixOfAccepted`): the callbacks are called for the accepted tasks in order, each
  once, and everything they read from their slot until they return is their own task, if and only if none of these
  reads is made while the ring is full. This is a statement about tickets, so it also holds for equal packages.
- *Check then act* (`CheckThenAct`, `OverflowIsReached`): with `S` submitters a ring holds at most `reserved + S - 1`
  packages, a bound that is reached for every capacity of at least 1 and every `S`; no dequeue meets an empty ring and
  no step divides by zero or leaves a buffer.
- *Refinement of queues* (`RingRefinesQueue`, `StepRefinesQueues`, `RunRefinesQueues`, and `SchSubmitTask`).
- *Submissions end to end* (`SubmissionStages`, `CopiedToItsPool`, `Origin`): in every interleaving a submission checks
  for room, copies, counts and notifies in this order, at the pool it was made to; what a pool has accepted is what was
  submitted to that pool, field by field, with its index filled in.
- *Heapify* (`RestoreDown`, `SchHeapify`): the array that a reference function gives, which is a heap, a permutation and
  the same if it was a heap (`RebuiltIsHeap`, `RebuiltLists`, `RebuiltIdle`); at most `n - 1` descents; and what remains
  true when every key read races with a worker.
- *Heapify by several submitters* (`EntriesArePools`, `OwnStepsBounded`, `TurnsKeepPools`, `StaleExchange`): whatever the
  interleaving, every access is inside the array, every entry is a pool, and every submission ends after a number of
  own steps linear in the number of pools. A submission that nobody interferes with leaves the same array as the call
  without interruption and chooses a pool with the least key (`UndisturbedRebuilds`, `LeastIsChosen`). Each pool stays listed once if submitters take turns. Otherwise a pool can be
  lost (`PoolIsLost`), and is then lost for ever (`LostForEver`).
- *Load balance* (`BalancedBurst`, `SpreadBounded`, `SubmitRepeatedly`).
- *Waiting* (`SchWaitTaskWait`, `QuiescentOnReturn`, `UnfinishedOnReturn`).
- *Allocator* (`ChainIsFreeNodes`, `RunFrame`, `RoundTrip`, `InitialOrderOfBlocks`, `GetIndexOfItem`).

## What the model takes for granted

- One worker per pool, that is, one successful start per life of the scheduler, whose signal mask was set.
- A critical section excludes other critical sections only. An enqueue has two steps, the copy and the count, and the
  worker and its callback can read in between. The copy of one package is one step: no reader sees half of it. In a
  dequeue only the change of `size` can be observed from outside, so it is one step. Every test outside the lock is a
  step of its own.
- A blocked signal stays pending until `sigwait` accepts it (section 2.4.1 of POSIX.1-2017, System Interfaces).
  `SIGTERM` is sent to a worker only by terminate; any other signal in its mask may come at any time.
- A read of a pool's flag gives an arbitrary result, and so may a read of a key when workers run (`racing`).
- Number of threads. `Rings`, `HeapRace`, `Protocol`, `ProtocolInvariant`, `ProtocolResults` and `ProtocolSubmission`
  are about any number of submitting threads, apart from `SoleFits`. The results on waiting need that no submission is under way during that
  wait, those on terminating that none is from the start of the terminate on (`QuietWait`, `QuietRun`); a sole submitter
  that also terminates meets this (`SoleIsQuiet`). One thread waits and terminates. `TaskPools`, `Heapify`, `Scheduler`,
  `LoadBalance` and `WaitLoop` are about one call, or one thread that submits; of other threads only key writes
  (`racing`) and, in `WaitLoop`, changes of what it looks at are allowed for. Callbacks that submit count as submitters.
  A submitter owns its package while it submits it.
- Memory is sequentially consistent: the interleavings are those of single reads and writes in program order. The
  source reads and writes plain fields, such as `size`, outside the lock.
- At least one pool and at least one allocator node; only outstanding blocks are returned, and users stay inside them.
- Integers stay in range: `size` is 32 bits wide and wraps, and the capacity plus the number of submitters is at
  most 2^32; a key plus 1000 fits in a `long`; heap indices and buffer sizes fit in their types. The size of
  a pointer is left open.
- A callback reads the package it receives as often as it likes until it returns, but does not write to it and does not
  use it later.

## Where code and documentation differ

The model follows the code.

- `include/taskSch.h:421` and `:430` promise that waiting ends when all tasks are finished. The code waits for empty
  queues. `UnfinishedOnReturn` gives the exact condition and `WaitReturnsEarly` a run in which nothing has even started.
- Submissions rebuild the heap without a lock, so two of them at the same time can lose a pool from it: `PoolIsLost`.
- A submission that has passed its room test when the scheduler is terminated is accepted and never run:
  `TerminationDropsTask`.
- `include/internal/poolAllocator.h:79` says that a returned item is cleared. The code clears nothing (`SchPoolReturn`,
  `StepFrame`).
- `include/internal/poolAllocator.h:113` calls the result of `schPoolGetIndex` the node index. `GetIndexOfItem` gives its
  value and the exact condition for this, `GetIndexWrong` an input that violates it.
- `include/internal/sch.h:35` says that an enqueue returns `NULL`. The code returns its argument (`EnDeQueue`).
- An allocator of `num` nodes hands out `num - 1` blocks, since node 0 only holds the head of the chain.
- That each accepted task is run once is false when the ring fills up while the worker or its callback still reads its
  slot: `SlotReuseLosesTask` is such a run with one submitter. `CallbackSeesNextTask` is another, in which every call is
  right but a running callback finds the next task in its slot, as one can that reads its package after its work, like
  the one at `test/unit-test/main.c:19`. `StartsInOrder` has the exact condition.
- `SCH_SIGNAL_QUIT` does not end a worker: the `continue` at `src/sch.c:130` skips the test at line 132.

## Model

| member | source | states |
|---|---|---|
| `Rings.EnqueueAppends` | src/taskSch.c:426-429 | with room, the enqueue section appends one package to the first-in first-out queue the ring stands for and keeps the counters consistent |
| `Rings.DequeueRemovesFirst` | src/taskSch.c:422-425 | the slot handed out holds the oldest package, and the rest of the queue keeps its order |
| `Rings.TicketsCopy` | src/taskSch.c:427 | copying a package into the tail slot leaves the packages of the last tickets in their slots, even when the ring overflows |
| `Rings.TicketsCount` | src/taskSch.c:428-429 | advancing the tail and the size keeps the counters equal to the ticket numbers modulo the capacity |
| `Rings.TicketsDequeue` | src/taskSch.c:422-425 | the same for a dequeue from a ring that is not empty |
| `Rings.QueueIsPending` | src/taskSch.c:417-434 | a ring in which nothing was overwritten holds exactly the counted packages not yet dequeued, oldest first, also while another is being copied |
| `Rings.HandedOutSlot` | src/taskSch.c:424-425 | the package that last went into a slot that was handed out is the one handed out if and only if the tickets behind it do not fill the ring, and otherwise a later one |
| `TaskPools.TaskPool.constructor` | src/taskSch.c:101-111 | a new pool has an empty queue, the requested capacity, zero included, and key 0 |
| `TaskPools.TaskPool.EnDeQueue` | src/taskSch.c:417-434 | whole effect of the critical section, wrap-around of `size` included; with room it is an append, with a package waiting it removes the first one and points at it |
| `Rings.HandedOutIsFree` | src/sch.c:85-89 | in a ring that has not overflowed, whatever is written to the slot just handed out leaves the rest of the queue as it is |
| `TaskPools.TaskPool.ExecuteNext` | src/sch.c:80-98 | undisturbed, one turn of the worker's loop runs the oldest package with the pool's index in it and leaves the rest of the queue in order |
| `TaskPools.TaskPool.ExecuteUntilIdle` | src/sch.c:79-102 | undisturbed, the worker runs exactly the waiting packages, each once and in order, and goes idle with an empty queue and key 0 |
| `HeapOrder.IndexExpressions` | src/heapify.c:8-10 | the parent and child expressions are inverse to each other and agree with the tree defined by recursion |
| `HeapOrder.ParentBlock` | src/heapify.c:19-22 | the children of a node are exactly one block of `k` consecutive indices |
| `HeapOrder.RootIsMin` | src/taskSch.c:347-349 | the root of a heap of any breadth is a minimum of all keys |
| `HeapOrder.DescendKeeps` | src/heapify.c:40-50 | a descent, with or without a swap, moves the only place where the order may be violated to the chosen child |
| `HeapOrder.DescendIdle` | src/heapify.c:44-48 | in a heap the swap test is always false |
| `HeapOrder.DescendDone` | src/heapify.c:35-38 | stopping at a node all of whose children have the key `LONG_MAX` leaves a heap |
| `HeapOrder.HeightOfChild` | src/heapify.c:50 | every descent, to whichever child, uses up height, so the endless loop ends |
| `HeapOrder.SumHeightsRecurrence` | src/heapify.c:56-60 | the work recurrence S(n) = P + S(P), with P the number of nodes that have a child |
| `HeapOrder.SumHeightsLinear` | src/heapify.c:56-60 | for every breadth of at least two the heights of `n` nodes add up to at most `n - 1` |
| `HeapOrder.NoChildrenBeyond` | src/heapify.c:56 | no node after `(n - 1) / k` has a child, so starting there misses nothing |
| `HeapReference.LeastIsFirst` | src/heapify.c:24-33 | the reference scan finds the first of the children with the least key below `LONG_MAX`, or none if all have that key |
| `HeapReference.SiftIsHeap` | src/heapify.c:12-52 | a descent of the reference function fills the one place where the order was violated |
| `HeapReference.RebuiltIsHeap` | src/heapify.c:54-61 | all its descents together make a heap of an array in any order |
| `HeapReference.RebuiltIdle` | src/heapify.c:45-60 | they change nothing in a heap, not even among equal keys |
| `HeapReference.RebuiltLists` | src/heapify.c:45-48 | they lose and gain no element, and every element takes its key along |
| `Heapify.ScanChildren` | src/heapify.c:24-33 | the loop finds the child that the reference scan gives |
| `Heapify.FindMinChild` | src/heapify.c:19-33 | both loops find the first child with the least key, or all children have the key `LONG_MAX`; under racing reads they still yield a child |
| `Heapify.SwapIfLarger` | src/heapify.c:40-48 | for one call of `schHeapify` at a time, as in the next rows: the array is permuted and the keys change as in one abstract descent |
| `Heapify.DescendOnce` | src/heapify.c:17-51 | one round of the loop: it ends with a heap or goes down to a child with "heap except there" |
| `Heapify.RestoreDown` | src/heapify.c:12-52 | array and keys become what the reference descent gives; from a heap below `start` to a heap from `start` on; at most `Height(start)` descents, and no change if it was a heap; permutation, bounds and termination also under racing reads |
| `Scheduler.TaskSch.constructor` | src/taskSch.c:96-131 | all queues empty, all keys equal, the heap array lists the pools in order |
| `Scheduler.TaskSch.SchHeapify` | src/heapify.c:54-61 | for one call at a time: the array the reference function gives for breadth 4, in heap order, the root with the least key of all pools, a permutation, nothing moves in a heap, at most `num - 1` descents; permutation and bound also under racing key reads |
| `Scheduler.TaskSch.Rebuild` | src/taskSch.c:347 | with one submitter: a heap of breadth 4 for the current keys, whatever pool was asked for; no queue and no key changes |
| `Scheduler.TaskSch.ChoosePool` | src/taskSch.c:346-352 | with one submitter: the requested pool or one of minimum key; no queue changes, and no key unless workers write it |
| `Scheduler.TaskSch.Accept` | src/taskSch.c:362-366 | undisturbed: the package is appended to one queue and one key raised by 1000, everything else stays |
| `Scheduler.TaskSch.Place` | src/taskSch.c:346-366 | with one submitter: accepted exactly if the chosen queue has room; then one append of the stamped package, otherwise no change |
| `Scheduler.TaskSch.SchSubmitTask` | src/taskSch.c:334-375 | with one submitter: refines a map from pools to queues: when each status is returned, one append to the requested or a least pool for the two accepting ones, with its key raised by 1000, no change of any queue for the others; the heap array still lists every pool once and, past the checks, is a heap for the keys before the increment |
| `Scheduler.TaskSch.SubmitBalanced` | src/taskSch.c:347-366 | with one submitter: a submission without a pool keeps the sizes within one of each other and fails only when all queues are full |
| `Scheduler.TaskSch.SubmitRepeatedly` | test/unit-test/main.c:299-300 | the submit loop, before any worker moves, has min(count, num * reserved) submissions accepted and the queues balanced |
| `LoadBalance.BalancedStep` | src/taskSch.c:347-366 | any choice of a least pool keeps the balance, counts, and is refused exactly when all queues are full |
| `LoadBalance.BalancedBurst` | src/taskSch.c:347-366 | over every burst from empty queues and equal keys: sizes within one, and exactly the first n * reserved submissions are accepted |
| `LoadBalance.SpreadStep` | src/taskSch.c:347-366 | one submission keeps the spread of the keys below the larger of 1000 and the spread before, and never lowers the least key |
| `LoadBalance.SpreadBounded` | src/taskSch.c:347-366 | over every burst from any keys the spread is at most the larger of 1000 and the initial spread |
| `WaitLoop.EmptyTogether` | src/taskSch.c:400-402 | pools seen empty one after another are empty together, if emptiness is stable |
| `WaitLoop.SchWaitTaskWait` | src/taskSch.c:383-415 | an error exactly when not running; else the loop passes every pool once, in order, each when it is asleep with an empty queue, and returns if any schedule of such tests in the observed history passes all of them |
| `HeapRace.StepKeeps` | src/heapify.c:12-61 | whatever several submitters and key writers do, single reads and writes of the array keep every entry a pool and every local index in range |
| `HeapRace.EntriesArePools` | src/taskSch.c:347-352 | in every state of every such interleaving the next access is in bounds and the pool chosen is one of the pools |
| `HeapRace.Progress` | src/heapify.c:17-51 | every step of a thread lowers a bound on the steps it has left, whatever others have done to the array |
| `HeapRace.OwnStepsBounded` | src/heapify.c:54-61 | over every interleaving a submission takes no more own steps than that bound at its start |
| `HeapRace.LeftAtEnter` | src/heapify.c:54-61 | the bound is 2n(4k + 8) for n pools and breadth k |
| `HeapRaceChoice.GoalIsHeap` | src/heapify.c:54-61 | the array a submission aims at is a permutation of the present one and a heap, and is the present one if that is a heap |
| `HeapRaceChoice.UndisturbedRebuilds` | src/heapify.c:54-61 | if nobody else rebuilds the heap or writes a key meanwhile, a submission by single reads and writes leaves exactly the array of the reference function and chooses its first pool |
| `HeapRaceChoice.LeastIsChosen` | src/taskSch.c:347-349 | and this pool has the least key of all pools, if every pool was listed |
| `HeapRace.TurnStep` | src/heapify.c:40-48 | while one thread at a time rebuilds, its reads stay current and each exchange is a permutation |
| `HeapRace.TurnsKeepPools` | src/heapify.c:40-48 | if submitters take turns, every pool is listed once whenever no exchange is half done |
| `HeapRace.SoleTakesTurns` | src/taskSch.c:347 | one submitter always takes turns |
| `HeapRace.StaleExchange` | src/heapify.c:41-48 | an exchange of two entries read before keeps the listing if and only if the entries now are those two, in either order |
| `HeapRace.LostForEver` | src/heapify.c:40-48 | a pool that is in no entry and no local variable never comes back and is never chosen again |
| `HeapRaceWitnesses.PoolIsLost` | src/heapify.c:41-48 | a run of two submitters from the listing 0, 1, 2 to 1, 0, 1 |
| `ProtocolInvariant.InitInv` | src/taskSch.c:96-128 | the initial states satisfy the invariant, for all capacities and numbers of pools and threads |
| `ProtocolInvariant.WorkerKeeps` | src/sch.c:79-143 | no worker step faults, and each keeps the invariant and never lengthens a queue |
| `ProtocolInvariant.StampIsIdle` | src/sch.c:89 | writing the index into a slot outside the lock changes nothing, even when the slot has been reused |
| `ProtocolInvariant.LookRight` | src/sch.c:88-93 | any look of a worker or its callback into the slot finds an accepted package, its own if and only if the ring is not full, and else a later one |
| `ProtocolInvariant.CopyKeeps` | src/taskSch.c:421-427 | taking the lock and copying keeps the invariant: claims to room are not used up yet |
| `ProtocolInvariant.CountKeeps` | src/taskSch.c:428-431 | counting a package whose room test is out of date turns a claim into a package and stays within the bound; the lock is free again |
| `ProtocolInvariant.Occupancy` | src/taskSch.c:355-363 | what is in the ring, the package being copied included, is at most reserved + S - 1 |
| `ProtocolInvariant.StepKeeps` | src/taskSch.c:283-434 | every step of every thread keeps the invariant |
| `ProtocolInvariant.RunKeeps` | src/sch.c:79-143 | the invariant holds in every state of every interleaving |
| `ProtocolResults.CheckThenAct` | src/taskSch.c:355-363 | size, plus one during a copy, is at most reserved + S - 1, no dequeue at size 0, and no fault, over all interleavings with S submitters |
| `ProtocolResults.RingRefinesQueue` | src/taskSch.c:417-434 | head, tail and size are the ticket counts modulo the capacity, only a package some thread is copying is not counted, and while nothing was overwritten the ring is the pending part of the accepted sequence |
| `ProtocolResults.StepRefinesQueues` | src/taskSch.c:417-434 | every step is an append, a removal of the first element, or no change of an unbounded queue |
| `ProtocolResults.RunRefinesQueues` | src/taskSch.c:417-434 | with any number of submitters the rings themselves take these steps, as long as they do not overflow |
| `ProtocolResults.SoleFits` | src/taskSch.c:355-363 | with one submitter no ring ever overflows |
| `ProtocolResults.InFlightSlot` | src/sch.c:85-93 | while a worker holds a package, the package that last went into its slot is its own if and only if the ring, with a copy under way counted, is not full |
| `ProtocolResults.SlotIsLost` | src/taskSch.c:355-363 | with any number of submitters a package in flight loses its slot exactly by a copy into the last free slot or by being taken from an overflowed ring |
| `ProtocolResults.KeptThroughout` | src/sch.c:85-93 | over a whole run: every slot in flight stays its package's own all the time if and only if the ring is never full in flight |
| `ProtocolResults.LateDiffers` | src/sch.c:88-93 | among tasks with different arguments, a read finds the right arguments if and only if the ring is not full |
| `ProtocolSubmission.SubmissionStages` | src/taskSch.c:346-374 | in every interleaving a submission takes its steps in the order of the source, each once, with the pool and the package it began with |
| `ProtocolSubmission.RefusedWhenFull` | src/taskSch.c:355-357 | the room test ends it exactly if the ring of its pool is full, and changes no pool |
| `ProtocolSubmission.CopiedToItsPool` | src/taskSch.c:360-363 | the copy puts the submitted package, with the index of its pool, into that pool's tail slot and behind its accepted tasks; nothing else changes |
| `ProtocolSubmission.CountedInItsPool` | src/taskSch.c:428-429 | the count raises the size of that pool by one and changes no other pool |
| `ProtocolSubmission.NotifiesItsPool` | src/taskSch.c:369-373 | only the worker of that pool can be signalled, with at most one package in its queue, to continue |
| `ProtocolSubmission.AcceptedWasSubmitted` | src/taskSch.c:360-363 | the tasks of a pool grow only by a copy of a thread whose last submission was to that pool, and by its package |
| `ProtocolSubmission.Origin` | src/taskSch.c:334-363 | in every state every accepted task of a pool was submitted to that pool |
| `ProtocolResults.StartsInOrder` | src/sch.c:85-93 | calls are made for the accepted tasks in order, each once, and all reads of the running callbacks find their own task, if and only if none of these reads is made while the ring is full; what they find is an accepted task in any case |
| `ProtocolResults.NoLateRead` | src/sch.c:85-93 | no read is made of a full ring in a run in which the ring is never full while a package is held |
| `ProtocolResults.PrefixOfAccepted` | src/sch.c:85-93 | in such a run the tasks called are a prefix of the accepted ones, each once, and no callback ever reads another task |
| `ProtocolTermination.OwnerStep` | src/taskSch.c:301-325 | whatever other threads do, every step keeps: joined workers are gone, and no worker is told to exit too early |
| `ProtocolTermination.JoinsWhoWasTold` | src/taskSch.c:301-310 | in every state of every run the workers told to exit are exactly those up to the one being joined, and the ones before it are gone |
| `ProtocolTermination.LeavesWait` | src/sch.c:118-137 | a worker leaves its wait exactly by accepting the signal to continue, into its loop, or the one to terminate, out of it |
| `ProtocolTermination.PendingStays` | src/sch.c:121 | a pending signal stays pending exactly until its worker accepts it |
| `ProtocolTermination.PassesInTurn` | src/taskSch.c:400-413 | the index of a wait is the number of pools passed since it began, whatever the unsuccessful tests in between |
| `ProtocolTermination.NothingAfterwards` | src/taskSch.c:337-339 | a terminated scheduler accepts nothing more once the submissions under way have ended |
| `ProtocolTermination.QuietStep` | src/taskSch.c:297-310 | with no submission under way, every step keeps: the pools passed by the terminating wait, and later all pools, are empty |
| `ProtocolTermination.SoleIsQuiet` | src/taskSch.c:283-332 | in every run with one submitter, which also terminates, no submission is under way while terminating |
| `ProtocolTermination.WaitingKeepsEmpty` | src/taskSch.c:400-414 | a queue that is empty at some time during a wait with no submission under way stays empty until it ends |
| `ProtocolTermination.QuiescentOnReturn` | src/taskSch.c:400-414 | when a wait with no submission under way returns, all queues are empty at the same moment |
| `ProtocolTermination.UnfinishedOnReturn` | include/taskSch.h:421-430 | then every accepted task has been dequeued, and all of a pool's tasks are finished if and only if its worker holds no package |
| `ProtocolTermination.ExitsOnlyWhenEmpty` | src/sch.c:118-137 | if no submission is under way while terminating, a worker is told to exit, or has exited, only with its queue empty |
| `ProtocolTermination.TerminationDropsNothing` | src/taskSch.c:297-328 | under the same condition, after terminate: accepted = dequeued = called = finished for every pool, and every worker has exited |
| `ProtocolTermination.TerminationRunsEverything` | src/taskSch.c:297-328 | if moreover no ring was full in flight, the tasks called are all the accepted ones, in order, and no callback read another task |
| `ProtocolTermination.TerminationDrops` | src/taskSch.c:297-328 | with any number of submitters and no condition, what terminate drops is exactly what was counted in after the worker last found its queue empty; nothing, if and only if no copy was under way then or since |
| `ProtocolWitnesses.TerminationDropsTask` | src/taskSch.c:355-363 | a run of two submitters that ends terminated with an accepted task left in the ring |
| `ProtocolWitnesses.TerminatesEveryPool` | src/taskSch.c:297-328 | for every number of pools of every capacity a complete run of the terminate sequence |
| `ProtocolWitnesses.WorkerIsWoken` | src/taskSch.c:369-373 | a run in which a submission wakes a worker that waits |
| `ProtocolWitnesses.OverflowIsReached` | src/taskSch.c:355-363 | for every capacity of at least 1 and every number of submitters a run in which the ring holds reserved + S - 1 |
| `ProtocolWitnesses.WaitReturnsEarly` | src/taskSch.c:400-414 | a run in which the wait returns although the accepted task has not been started |
| `ProtocolWitnesses.SlotReuseLosesTask` | src/sch.c:85-93 | a complete run with one submitter in which one task runs twice and another never |
| `ProtocolWitnesses.CallbackSeesCopy` | src/taskSch.c:427-429 | a run in which a running callback finds the next task in its slot while size < reserved, since the copy is not counted yet |
| `ProtocolWitnesses.CallbackSeesNextTask` | test/unit-test/main.c:15-22 | a complete run with one submitter whose calls are all right, with a callback that reads another task |
| `PoolMemory.Layout.NodeIs` | src/poolAllocator.c:91-93 | stepping from node to node reaches the address that the product gives |
| `PoolMemory.Layout.Apart` | src/poolAllocator.c:20-23 | nodes at stride itemsize + pointer size do not overlap |
| `PoolMemory.Layout.Inside` | src/poolAllocator.c:10-13 | every node with its data lies inside what is allocated |
| `PoolMemory.Layout.ItemsDisjoint` | src/poolAllocator.c:18-28 | items are disjoint from each other and from all links |
| `PoolMemory.Layout.GetIndexOfItem` | src/poolAllocator.c:85-93 | the index of item i is computed as i + p(i+1) div itemsize, so it is i if and only if p(i+1) < itemsize |
| `PoolMemory.Layout.GetIndexInverts` | src/poolAllocator.c:85-93 | the computation is right for all nodes if and only if p * num < itemsize |
| `PoolMemory.GetIndexWrong` | include/internal/poolAllocator.h:113 | for items of the size of a pointer item 1 is given the index 3 |
| `PoolChain.LinksUnique` | src/poolAllocator.c:44-77 | the memory determines the free chain |
| `PoolChain.ObtainKeeps` | src/poolAllocator.c:44-62 | an obtain takes the first node of the chain, which is not out, or fails when there is none, and keeps the invariant |
| `PoolChain.ReturnKeeps` | src/poolAllocator.c:64-77 | a return puts the node in front of the chain and keeps the invariant |
| `PoolChain.ReturnedIsNext` | src/poolAllocator.c:73-76 | after a return the next element is the node just given back |
| `PoolChain.WriteKeeps` | src/poolAllocator.c:57-60 | a user's write inside its block cannot damage the chain |
| `PoolChain.Step` | src/poolAllocator.c:44-77 | obtain, return and users' writes all keep: acyclic, ended by null, and free and outstanding nodes partition 1..num-1 |
| `PoolChain.InitialInv` | src/poolAllocator.c:18-28 | the initial links satisfy the invariant with nodes 1..num-1 free in address order |
| `PoolChain.InitialCleared` | src/poolAllocator.c:13 | every byte of every block of a fresh allocator is zero |
| `PoolRuns.ChainIsFreeNodes` | src/poolAllocator.c:44-77 | after every legal sequence there is exactly one chain from the sentinel to null; it visits each node not out once, never the sentinel, and free + outstanding = num - 1 |
| `PoolRuns.ObtainIsNew` | src/poolAllocator.c:44-62 | no block is handed out twice while outstanding, and an obtain fails if and only if num - 1 blocks are out |
| `PoolRuns.StepFrame` | src/poolAllocator.c:57-74 | no operation changes a byte of a block, except a write to that block |
| `PoolRuns.WriteFrame` | src/poolAllocator.c:57-60 | and such a write changes one byte |
| `PoolRuns.RunFrame` | src/poolAllocator.c:57-74 | an outstanding block keeps its contents over every sequence of operations by others |
| `PoolRuns.ObtainsTake` | src/poolAllocator.c:44-62 | any number of obtains take as many nodes from the front of the chain |
| `PoolRuns.InitialOrderOfBlocks` | src/poolAllocator.c:19-62 | after initialisation the obtains give items 1, 2, ..., num - 1 and then null |
| `PoolRuns.ReturnUndoesObtain` | src/poolAllocator.c:44-77 | returning the block just obtained restores every byte and the chain |
| `PoolRuns.RoundTrip` | src/poolAllocator.c:44-77 | so does returning any number of obtained blocks in reverse order |
| `PoolRuns.ObtainAfterReturn` | src/poolAllocator.c:64-77 | the block returned last is handed out next |
| `PoolAllocator.SchPool.constructor` | src/poolAllocator.c:7-31 | the initialised buffer is the initial state, from which the results on runs start |
| `PoolAllocator.SchPool.LinkNodes` | src/poolAllocator.c:18-28 | the loop writes exactly the initial links, inside the buffer |
| `PoolAllocator.SchPool.SchPoolObtain` | src/poolAllocator.c:44-62 | in place, the abstract obtain; a new block or null exactly when num - 1 are out; only the sentinel's link is written |
| `PoolAllocator.SchPool.SchPoolReturn` | src/poolAllocator.c:64-77 | in place, the abstract return; the result is the block's node, which is the allocator's next element now, and the block's contents stay |

## Left out

- Threads, signals, spin locks, barriers, clocks (`src/unix`, `src/windows`): kept as "critical sections exclude each other" and "a pending signal is consumed at the wait".
- Weak memory: reordered or torn accesses to fields that are read outside the lock.
- Liveness, lost wake-ups and the meaning of pool flags: the executor toggles flags by exclusive or and sets idle twice, so all flag reads are arbitrary and only safety is proved.
- The terminate loop is part of the transition system and not a method, because other threads act between any two of its steps; so the in-place update of the thread handles is not modelled.
- TaskPools.TaskPool.ExecuteUntilIdle: the worker's loop up to its wait, with no other thread acting; the loop with other threads acting between its steps, and the wait for a signal, are in module Protocol. The average that the source sets to zero is left out.
- WaitLoop.SchWaitTaskWait: the history of what it sees is finite, so that it may be cut off; the time-out, which the source ignores, the wait on a condition that the test before it makes idle, and error messages are not modelled.
- Scheduler.TaskSch.SchSubmitTask: one call with nothing in between but racing keys; the interleaved steps of a submission are in module Protocol, and those of its heap in module HeapRace.
- Keys as workers write them (elapsed time, or zero): they enter as arbitrary values read while racing, and the load balance is about runs without worker steps.
- The numeric status of terminate, which combines codes bit by bit, and the error-message table.
- Creation with an invalid number of cores, allocation failures, release of resources, start-up alignment, affinity, thread names and the `init` and `deinit` callbacks.
- A scheduler with no pool, for which choosing a pool would read beyond the heap array, and an allocator with no node, which would write in front of its buffer.
- Callbacks that submit tasks, except as further submitters; callbacks that change their package or use it after they return; reads that see a package half copied.
- The stubs for clearing tasks and for resizing an allocator, and `src/queue.c`, whose operations are stubs.
- Alignment of the links inside the allocator's buffer.
