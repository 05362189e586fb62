# Verified models of the banan-os kernel

A Dafny model of the parts of the kernel and of its container library whose correctness is hardest to
see: the scheduler's intrusive lists and the threads that move between them, the lock-free messages
between processors, TLB shootdown, the x86_64 page tables, the region list of a process, the hash set,
introsort and radix sort, and calendar conversion.  `dafny verify dfyconfig.toml` checks all of it.

Code that changes things in place is modelled in place: linked nodes with their link words, arrays,
classes with the fields of the source.  Code that several processors run at the same time is modelled
as a state machine with one step for every point at which another processor can get in between; its
theorems are about every run of any number of processors, senders and threads.

| files | what they model |
|---|---|
| `SchedulerHeap`, `SchedulerQueue`, `Scheduler` | the block list (a pointer-linked complete binary heap), the run list, and the scheduler of one processor |
| `Processors` | the schedulers of all processors, between which threads move |
| `ThreadBlocker`, `BlockOrder` | the doubly linked chain of waiting threads, and the order in which they wake |
| `SchedulerSteps`, `SchedulerProof` | block, unblock, timeout, migration and exit on any number of processors, as a state machine |
| `SchedulerRefinement` | the schedulers with their linked nodes, following the state machine |
| `SmpMessages`, `SmpPool`, `SmpProgress` | the message queue of a processor, the queue as a pool, and what its owner and senders get done |
| `TlbShootdown`, `TlbDrain` | the batch of TLB flushes of a processor, and what a drain flushes and keeps |
| `PageEntry`, `PageLeaf`, `PageTree`, `PageTable` | page-table entries, bit by bit, the four-level tree, and the operations on it |
| `RegionList`, `ProcessMemory` | address ranges of a process, munmap and mprotect |
| `HashProbe`, `HashTable`, `HashSet` | the probe sequence, bucket arrays as maps, and `BAN::HashSet` |
| `WordBits`, `WordPowers` | the numbers that 64-bit words stand for, and rounding them up to a power of two |
| `Ordering`, `HeapOrder`, `IntroSort`, `RadixOrder`, `RadixSort` | sorting |
| `Time` | calendar conversion |
| `Basics`, `Pigeonhole` | shared notions and counting lemmas |

How the pieces fit together:

- `SchedulerHeap.Heap` and `SchedulerQueue.Queue` demand an unlinked node on push and hand one out on
  pop.  `SchedulerProof.NoAssertionFails` says that, in every run, each push is of a thread that is on
  no list; `SchedulerRefinement.Machine.UnlistedIsUnlinked` says that the node of such a thread then has
  null links.  So the assertions at the head of both pushes hold.
- `Scheduler.Scheduler.View` maps a scheduler with its linked lists to a processor of the step machine.
  `Processors` holds any number of schedulers with disjoint nodes.  `SchedulerRefinement.Machine` runs them
  side by side with a state of the machine: every operation demands only that the machine can take the step,
  takes the steps that it stands for, and leaves both in agreement, so that the state is always a reachable one.
- `SchedulerSteps` keeps messages in a pool.  `SmpPool.StepPool` says that the queue is one: sending adds
  to it, handling takes from it, and no other step changes it; `SmpPool.NothingLostOrMadeUp` says so of
  whole runs, and a non-empty queue is always about to be looked at.
- `ThreadBlocker.Blocker.View` maps a chain of waiting nodes to a chain of the step machine.
  `BlockOrder.WaitQueue` runs a blocker side by side with the machine: blocking, unblocking and removing a
  thread take the machine's steps and leave the same chain on both sides.  `BlockOrder.YoungestFirst` says of
  every run of the machine that a chain has the last thread to block first.
- `TlbDrain.Target` does the same for the batch of TLB flushes and its machine.
- `ProcessMemory.EntryStands` connects the page flags that mprotect computes to the entry bits of
  `PageTable.PageTable.MapPageAt`.
- `PageEntry.IndicesAreDigits` and `HashSet.RoundedWordInBits` connect the shifts and masks of the source
  to the numbers that the page tables and the hash set are specified on.

Findings that the proofs made exact:

- `from_unix_time` counts years in 32 bits.  The way back gives the same time if and only if the year
  fits (`Time.UnixTimeRoundTrip`).
- The probe sequence of the hash set reaches every bucket if and only if the capacity is at most 2^32,
  because hashes have 32 bits (`HashProbe.ProbeReachesAllIff`).
- A thread may exit while a call or message to unblock it is still under way, and that message then finds
  it deleted (`SchedulerProof.MessageToDeletedThread` is such a run).  After an exit an assertion can fail
  if and only if somebody was about to wake the thread (`SchedulerProof.ExitIsSafeIff`).
- `reserve` doubles its argument in 64 bits.  It trips an assertion of the set if and only if the doubled
  number wraps around to less than the elements need, or is beyond 2^63 (`HashSet.ReserveTripsIff`); 13
  elements and `reserve(2^63)` are an example (`HashSet.ReserveTrips`).  Up to 2^62 it never does, and after
  success there is room for n elements if and only if n is at most 2^62 (`HashSet.HashSet.Reserve`).
- Shared memory objects and framebuffers cannot be split, and munmap and mprotect take a region off the list
  before they try.  On a range that fits, munmap fails if and only if the range covers such a region only in
  part, mprotect if and only if it gets to one before an address refuses the protection; the whole region is
  then lost (`ProcessMemory.Process.SysMunmap`, `ProcessMemory.Process.SysMprotect`,
  `ProcessMemory.HalfOfSharedObject`).
- munmap and mprotect compute the end of the range in 64 bits.  When it wraps around, they report success and
  leave an address of the range as it was on some regions, for every such range (`ProcessMemory.MunmapMisses`,
  `ProcessMemory.MprotectMisses`).  Where the wrapped range ends before it starts, nothing at all happens if and
  only if no region overlaps it, and an assertion of the kernel fails if and only if a region that can be split
  does (`ProcessMemory.MisfitStops`, `ProcessMemory.MunmapHalts`, `ProcessMemory.MprotectHalts`).
- `radix_sort` copies its whole auxiliary array back.  With an array longer than the range, what follows
  the range survives if and only if it equals the array's tail (`RadixSort.SortWithTail`).
- `reserve_range` and `reserve_page` mark the same pages but write the same entry only where neither the
  no-execute nor the global bit is in play (`PageTable.ReservedLeafIsBare`).
- `PageTable::full_tlb_flush_threshold` is declared `bool`, so that its value is 1 and not 32.  The
  shootdown theorems hold for every threshold of at least 1.

## Model

| member | source | states |
|---|---|---|
| `SchedulerHeap.Heap.Push` | kernel/kernel/SchedulerThreadNode.cpp:66-111 | after pushing an unlinked node the nodes are a complete binary tree with mutually consistent links, last is the last in level order, every parent wakes no later than its children, and the members grew by exactly that node |
| `SchedulerHeap.Heap.Pop` | kernel/kernel/SchedulerThreadNode.cpp:113-170 | the same after popping any member, which ends up with all links null |
| `SchedulerHeap.Heap.PopFront` | kernel/kernel/SchedulerThreadNode.cpp:57-64 | pops a member with the least wake time, or nothing from an empty heap |
| `SchedulerHeap.Heap.Front` | kernel/kernel/SchedulerThreadNode.cpp:52-55 | the root is a member that no member precedes in wake time |
| `SchedulerHeap.Heap.FindSlot` | kernel/kernel/SchedulerThreadNode.cpp:83-99 | the walk from last reaches the node at level-order index (n-1)/2, which has a free child, and terminates |
| `SchedulerHeap.Heap.PreviousOfLast` | kernel/kernel/SchedulerThreadNode.cpp:129-139 | the walk from last reaches the node at index n-2 and terminates |
| `SchedulerHeap.Heap.SwapNodes` | kernel/kernel/SchedulerThreadNode.cpp:186-264 | exchanges exactly two positions of the level order, whatever the two nodes are to each other, and keeps root and last right |
| `SchedulerHeap.SwapLinks` | kernel/kernel/SchedulerThreadNode.cpp:191-254 | the relinking of two nodes of a tree gives the tree of the transposed level order |
| `SchedulerHeap.SwapWithChild` | kernel/kernel/SchedulerThreadNode.cpp:202-227 | when one node is the parent of the other, the assignments trade the two nodes' links everywhere |
| `SchedulerHeap.SwapUnrelated` | kernel/kernel/SchedulerThreadNode.cpp:228-254 | the same when neither is, siblings included |
| `SchedulerHeap.Heap.SiftUp` | kernel/kernel/SchedulerThreadNode.cpp:108-110 | swapping with the parent while it wakes later restores the heap order |
| `SchedulerHeap.Heap.SiftDown` | kernel/kernel/SchedulerThreadNode.cpp:159-169 | swapping with the earlier child restores the heap order |
| `SchedulerHeap.Heap.Append` | kernel/kernel/SchedulerThreadNode.cpp:101-106 | the new node becomes the last in level order |
| `SchedulerHeap.Heap.DropLast` | kernel/kernel/SchedulerThreadNode.cpp:129-148 | the last node leaves the tree and has no links left |
| `LevelOrder.TradeTransposes` | kernel/kernel/SchedulerThreadNode.cpp:186-254 | trading the links of two members of a complete tree is exactly a transposition of its level order |
| `LevelOrder.TreeIsMutual` | kernel/kernel/SchedulerThreadNode.cpp:186-254 | in a complete tree, links to and from a node point back at each other |
| `WakeOrder.NextSlot` | kernel/kernel/SchedulerThreadNode.cpp:83-99 | the slot after a right spine is found to the right of where the spine hangs |
| `WakeOrder.PreviousSlot` | kernel/kernel/SchedulerThreadNode.cpp:129-139 | the node before a left spine is found to the left of where the spine hangs |
| `WakeOrder.RemovedOrder` | kernel/kernel/SchedulerThreadNode.cpp:149-169 | moving the last key into a hole breaks the heap order only around the hole |
| `WakeOrder.RootIsMinimum` | kernel/kernel/SchedulerThreadNode.cpp:52-55 | no key of a heap is below its root |
| `SchedulerQueue.Queue.Push` | kernel/kernel/SchedulerThreadNode.cpp:25-34 | appends an unlinked node, with all links of the list consistent |
| `SchedulerQueue.Queue.PopFront` | kernel/kernel/SchedulerThreadNode.cpp:13-23 | removes the first node, unlinked, or nothing |
| `SchedulerQueue.Queue.Pop` | kernel/kernel/SchedulerThreadNode.cpp:36-42 | removes any member, unlinked, and keeps the order of the others |
| `Scheduler.Scheduler.WakeUpSleepingThreads` | kernel/kernel/Scheduler.cpp:194-201 | terminates and moves to the end of the run list exactly the sleepers due by now, in order of wake time; nobody due is left and nobody is woken early |
| `Scheduler.Scheduler.UnblockThread` | kernel/kernel/Scheduler.cpp:593-605 | a blocked thread goes from the block list to the end of the run list, and a thread that is not blocked stays where it is; the abstract processor changes as in the step machine |
| `Scheduler.Scheduler.Reschedule` | kernel/kernel/Scheduler.cpp:102-164 | the current thread goes behind the run list, onto the block list or away; the first of the run list runs and is not blocked; all links, flags and the thread count stay consistent; the abstract processor changes as in the step machine |
| `Scheduler.Scheduler.AddThread` | kernel/kernel/Scheduler.cpp:530-535 | a thread on no list goes to the end of the run list and is counted, as in the step machine |
| `Scheduler.Scheduler.BlockCurrentThread` | kernel/kernel/Scheduler.cpp:546-554 | the current thread becomes blocked with its wake time, which disturbs neither list |
| `Scheduler.Scheduler.GiveAway` | kernel/kernel/Scheduler.cpp:458-470 | a thread that is not running leaves its run or block list for another processor: unlinked, not blocked, no longer counted; both lists stay consistent, and the abstract processor changes as in the steps of a migration |
| `Processors.Processors.UnlistedIsUnlinked` | kernel/kernel/SchedulerThreadNode.cpp:25-28 | over all processors and through every migration, a thread that is on no list has all its link words null |
| `Processors.Processors.UnlistedThreadIsUnlinked` | kernel/kernel/SchedulerThreadNode.cpp:66-70 | so a thread that the step machine calls unlisted passes the assertions of both push operations |
| `Processors.Processors.OnOneList` | kernel/kernel/SchedulerThreadNode.cpp:25-42 | no thread is on two lists, of one processor or of two |
| `Processors.Processors.Create` | kernel/kernel/Scheduler.cpp:509-519 | a new thread is on no list, and its identity is its own |
| `Processors.Processors.Arrive` | kernel/kernel/Scheduler.cpp:520-536 | a thread on its way, known to be unlinked, joins the processor's run list; nothing changes for any other processor |
| `Processors.Processors.UnblockThread` | kernel/kernel/Scheduler.cpp:593-605 | waking a thread of one processor keeps all schedulers disjoint and consistent and changes no other one |
| `Processors.Processors.BlockCurrentThread` | kernel/kernel/Scheduler.cpp:546-554 | the same for blocking |
| `Processors.Processors.Reschedule` | kernel/kernel/Scheduler.cpp:102-164 | the same for going on to the next thread |
| `Processors.Processors.Exit` | kernel/kernel/Scheduler.cpp:118-128 | the same when the current thread is terminated, whose node belongs to nobody then |
| `Processors.Processors.WakeUpSleepingThreads` | kernel/kernel/Scheduler.cpp:194-201 | the same for the sleepers that are due, and only they wake |
| `Processors.Processors.GiveAway` | kernel/kernel/Scheduler.cpp:458-478 | a migrating thread leaves its processor unlinked and is on its way; nothing changes for any other processor |
| `ThreadBlocker.Blocker.AddThreadToBlockQueue` | kernel/kernel/ThreadBlocker.cpp:49-63 | a blocked thread without a blocker goes to the front of the chain, with all links consistent |
| `ThreadBlocker.Blocker.RemoveThreadFromBlockQueue` | kernel/kernel/ThreadBlocker.cpp:65-86 | removes a waiting thread wherever it stands, and leaves alone one that no longer names this blocker |
| `ThreadBlocker.Blocker.Unblock` | kernel/kernel/ThreadBlocker.cpp:25-47 | takes the first count threads off the chain, each with its blocker and links cleared, and leaves the rest a consistent chain |
| `BlockOrder.YoungestFirst` | kernel/kernel/ThreadBlocker.cpp:25-86 | in every run the threads of a chain stand in the reverse order of the steps at which they last blocked, so that an unblock wakes the last one first, whatever was removed in between |
| `BlockOrder.WaitQueue.Block` | kernel/kernel/ThreadBlocker.cpp:49-63 | with the linked chain equal to the machine's before, a thread that blocks becomes the first of both, and they are equal after the machine's Block step |
| `BlockOrder.WaitQueue.Unblock` | kernel/kernel/ThreadBlocker.cpp:25-47 | the same for waking up to count threads: one Take step of the machine for each, and the machine then owes a wake-up to exactly the threads woken |
| `BlockOrder.WaitQueue.Remove` | kernel/kernel/ThreadBlocker.cpp:65-86 | the same for removing a thread and the machine's Unhook step, also when an unblock on another processor came first |
| `BlockOrder.WaitQueue.Elsewhere` | kernel/kernel/ThreadBlocker.cpp:25-86 | every other step of the machine leaves both chains alone |
| `BlockOrder.TakesRun` | kernel/kernel/ThreadBlocker.cpp:29-43 | k Take steps can run on a chain of at least k threads; they leave the chain without its first k threads and owe each of those a wake-up |
| `SchedulerProof.StepKeeps` | kernel/kernel/Scheduler.cpp:102-606 | every step of every processor keeps the invariant, and finds the assertions of the source true if and only if it is not about a deleted thread |
| `SchedulerProof.EachThreadInOnePlace` | kernel/kernel/Scheduler.cpp:102-192 | in every reachable state each live thread is in exactly one place, once: current, on a run list, on a block list, in the hands of its processor, or in one NewThread message |
| `SchedulerProof.NoAssertionFails` | kernel/kernel/Scheduler.cpp:102-606 | in every reachable state, whatever step comes next, the source's assertions hold, no listed node is pushed, no absent node is popped and no count goes below zero, if and only if the step is not a message or call for a deleted thread |
| `SchedulerProof.NobodyGetsStuck` | kernel/kernel/Scheduler.cpp:102-606 | in every reachable state each processor can finish what it is in the middle of, and turn to every message, call, new thread, migration and chain that there is; NewThread messages, lists and chains lead to threads that exist |
| `SchedulerProof.CleanExitsDecide` | kernel/kernel/Scheduler.cpp:118-128 | every exit of a run happens while nobody is about to wake the thread, if and only if no assertion fails in the run and no call or message for a deleted thread is left at its end |
| `SchedulerProof.ExitIsSafeIff` | kernel/kernel/Scheduler.cpp:118-128 | where no call or message is for a deleted thread: until another thread exits, an assertion can fail after an exit if and only if a call or message for the thread was under way |
| `SchedulerProof.StrayIsUsed` | kernel/kernel/Scheduler.cpp:580-606 | a call or message for a deleted thread makes an assertion fail after at most two steps of its processor |
| `SchedulerProof.MessageToDeletedThread` | kernel/kernel/Processor.cpp:642-644 | a run from the initial state, with a timeout and an unblock for the same thread, whose exit leaves a message that finds the thread deleted |
| `SchedulerProof.CountsAddUp` | kernel/kernel/Scheduler.cpp:509-536 | each processor's thread count is exact, and the counts plus the NewThread messages under way are the number of live threads |
| `SchedulerProof.ChainsAgree` | kernel/kernel/ThreadBlocker.cpp:25-86 | in every reachable state a thread is on a blocker's chain exactly when its field names that blocker, once, and is then blocked |
| `SchedulerProof.NoWakeupLost` | kernel/kernel/ThreadBlocker.cpp:25-47 | after an unblock took a thread off its chain, the thread wakes up in the rest of the run, or is still blocked at its end with a call, a message or its processor's own work pending, through any timeouts and migrations |
| `SchedulerProof.TakenCanWakeUp` | kernel/kernel/Scheduler.cpp:580-606 | from every reachable state, ten steps of the processors, none of which starts a wake-up, wake such a thread |
| `SchedulerProof.WakeupCanHappen` | kernel/kernel/Scheduler.cpp:580-606 | the same for any pending call or message, with a bound from what the processor is busy with, the delivery and the forwarding |
| `SchedulerProof.CanWakeUpIff` | kernel/kernel/Scheduler.cpp:580-606 | in every reachable state the processors can wake a blocked thread on their own if and only if a call or message for it is under way or its processor is at it |
| `SchedulerProof.SleepsOn` | kernel/kernel/Scheduler.cpp:580-606 | without one, it sleeps on however they carry on |
| `SchedulerProof.UnblockedLocally` | kernel/kernel/Scheduler.cpp:593-605 | the three steps of a local unblock together do what `Scheduler.Scheduler.UnblockThread` does to the processor |
| `SchedulerProof.MigratedAway` | kernel/kernel/Scheduler.cpp:458-478 | the steps of a migration together do what `Scheduler.Scheduler.GiveAway` does to the processor, and hand the thread to one message |
| `SchedulerProof.AddKeeps` | kernel/kernel/Scheduler.cpp:509-536 | adding a new thread, here or by message, keeps the invariant |
| `SchedulerProof.ArriveKeeps` | kernel/kernel/Scheduler.cpp:520-536 | a NewThread message reaches the thread's own processor, and the thread goes onto the run list unblocked and unlisted |
| `SchedulerProof.TakeKeeps` | kernel/kernel/ThreadBlocker.cpp:29-43 | the first thread of a chain is blocked and names the blocker, and taking it keeps the invariant |
| `SchedulerProof.UnblockElsewhere` | kernel/kernel/Scheduler.cpp:584-594 | a call for another processor's thread becomes a message to it, and a call that comes too late does nothing |
| `SchedulerProof.UnblockKeeps` | kernel/kernel/Scheduler.cpp:593-599 | a call for a blocked thread of this processor finds it on the block list |
| `SchedulerProof.UnhookKeeps` | kernel/kernel/Scheduler.cpp:599-600 | taking the thread off its chain, unless another processor already did, keeps the invariant |
| `SchedulerProof.ReleaseKeeps` | kernel/kernel/Scheduler.cpp:601-603 | the thread becomes runnable here, or leaves for another processor, without having been on any list |
| `SchedulerProof.BlockKeeps` | kernel/kernel/Scheduler.cpp:538-570 | the current thread is this processor's, not blocked and without a blocker when it blocks, becomes the first of the blocker's chain, and the invariant is kept; `BlockOrder` has the chain's nodes and its order over whole runs |
| `SchedulerProof.YieldKeeps` | kernel/kernel/Scheduler.cpp:102-192 | the current thread goes onto the list that its blocked flag says, unlisted before, and the next one is not blocked |
| `SchedulerProof.ExitKeeps` | kernel/kernel/Scheduler.cpp:118-128 | a terminated thread leaves no trace in any list, chain, NewThread message or count; calls and messages to unblock it stay |
| `SchedulerProof.MigrateKeeps` | kernel/kernel/Scheduler.cpp:458-478 | giving a thread away, blocked or not, keeps the invariant |
| `SchedulerRefinement.Machine.UnlistedIsUnlinked` | kernel/kernel/SchedulerThreadNode.cpp:25-28 | in every reachable state the node of a thread on no list has all link words null |
| `SchedulerRefinement.Machine.Located` | kernel/kernel/Scheduler.cpp:102-192 | every node is on the processor that the thread's owner field names, blocked exactly when the machine says so |
| `SchedulerRefinement.Machine.AddThread` | kernel/kernel/Scheduler.cpp:509-536 | whenever the machine can add a thread, the schedulers do, and both agree afterwards |
| `SchedulerRefinement.Machine.Arrive` | kernel/kernel/Scheduler.cpp:520-536 | the same for a NewThread message, whose node is found unlinked |
| `SchedulerRefinement.Machine.UnblockThread` | kernel/kernel/Scheduler.cpp:593-605 | the same for a call that reaches the thread's own processor: three steps of the machine if it is blocked, one otherwise |
| `SchedulerRefinement.Machine.BlockCurrentThread` | kernel/kernel/Scheduler.cpp:546-554 | the same for blocking |
| `SchedulerRefinement.Machine.Reschedule` | kernel/kernel/Scheduler.cpp:102-164 | the same for a reschedule |
| `SchedulerRefinement.Machine.Exit` | kernel/kernel/Scheduler.cpp:118-128 | the same for an exit |
| `SchedulerRefinement.Machine.WakeUpSleepingThreads` | kernel/kernel/Scheduler.cpp:194-201 | the same for timeouts, four steps of the machine for each due sleeper |
| `SchedulerRefinement.Machine.GiveAway` | kernel/kernel/Scheduler.cpp:458-478 | the same for a migration |
| `SchedulerRefinement.Machine.Elsewhere` | kernel/kernel/Scheduler.cpp:580-594 | calls and messages that come and go and chains that change leave the schedulers in agreement with the machine |
| `SchedulerRefinement.Unblocks` | kernel/kernel/Scheduler.cpp:593-605 | the steps of a local unblock lead to a state in which only that processor has changed, as the scheduler does |
| `SchedulerRefinement.WakesAll` | kernel/kernel/Scheduler.cpp:194-201 | so do the timeouts of any number of sleepers, one after the other |
| `SchedulerRefinement.Migrates` | kernel/kernel/Scheduler.cpp:458-478 | and the steps of a migration, with the thread on its way |
| `SmpMessages.StepInv` | kernel/kernel/Processor.cpp:603-785 | every atomic step of every sender and of the owner keeps the partition of the slots, the message order and the duty to signal |
| `SmpMessages.RunInv` | kernel/kernel/Processor.cpp:603-785 | so does every run |
| `SmpMessages.SlotInOnePlace` | kernel/kernel/Processor.cpp:725-764 | in every interleaving each slot is in exactly one of the free list, the pending list, one sender's hands and the receiver's hands, once |
| `SmpMessages.HandledInPushOrder` | kernel/kernel/Processor.cpp:603-664 | the messages handled are, in order, the first of those pushed, and all of them once the owner rests with nothing pending; that a drain gets there is in `SmpProgress.DrainHandlesAll` and `SmpProgress.DrainEnds` |
| `SmpMessages.NoMessageStranded` | kernel/kernel/Processor.cpp:753-785 | whenever something is pending, an interrupt is latched, the owner is about to look, or a sender still owes an interrupt, broadcasts included |
| `SmpMessages.NobodyGetsStuck` | kernel/kernel/Processor.cpp:725-764 | no sender and no receiver ever follows a null or dangling pointer |
| `SmpMessages.SlotsConserved` | kernel/kernel/Processor.cpp:357-383 | once everybody has finished, the free and pending lists hold every slot exactly once |
| `SmpProgress.DrainHandlesAll` | kernel/kernel/Processor.cpp:603-664 | in every run from a reachable state in which the owner looks at its queue to one in which it rests, all messages pushed by the first state have been handled by the last, in push order |
| `SmpProgress.DrainEnds` | kernel/kernel/Processor.cpp:613-664 | whatever the senders do, as long as they leave the free list alone, the owner takes fewer than 2n+5 steps of its own before it rests, n being the number of slots |
| `SmpProgress.OwnerRests` | kernel/kernel/Processor.cpp:613-664 | left alone, an owner that looks rests within that bound with everything pushed handled, nothing pending, and every slot that no sender holds on the free list exactly once |
| `SmpProgress.SenderPushes` | kernel/kernel/Processor.cpp:725-764 | left alone, a sender that has a slot or finds one on the free list pushes its message within n+4 steps of its own; a unicast then owes the interrupt if and only if the queue was empty |
| `SmpProgress.EverythingCanBeHandled` | kernel/kernel/Processor.cpp:603-785 | from every reachable state at most 4n+12 steps of the owner and of senders that owe it an interrupt handle everything pushed; no new message and no foreign interrupt is needed |
| `SmpProgress.MessageGetsThrough` | kernel/kernel/Processor.cpp:603-764 | with a free slot, a message that an idle sender starts to send can be carried through the queue within a bound by the number of slots: it is the last one pushed and the last one handled |
| `SmpProgress.BroadcastSignals` | kernel/kernel/Processor.cpp:766-785 | a broadcast raises the interrupt if and only if its message was the first at one of its targets |
| `SmpProgress.LatchedIff` | kernel/kernel/Processor.cpp:753-785 | in every run the owner has an interrupt to take if and only if one was raised, by a sender that owed it or from elsewhere, since it took the last |
| `SmpPool.StepPool` | kernel/kernel/Processor.cpp:603-785 | seen as a pool of messages sent and not handled, the queue gains a message by a send, loses one by its handling, and is left alone by every other atomic step |
| `SmpPool.NothingLostOrMadeUp` | kernel/kernel/Processor.cpp:603-785 | in every run the messages handled and those in the pool are exactly the messages sent |
| `SmpMessages.InitInv` | kernel/kernel/Processor.cpp:357-383 | the initial free list satisfies the invariant |
| `SmpMessages.ExchangeFree` | kernel/kernel/Processor.cpp:726-731 | a sender that takes the free list holds all of its slots and nobody else does |
| `SmpMessages.ReturnRest` | kernel/kernel/Processor.cpp:733-748 | giving the rest back loses no slot, even when others have changed the free list |
| `SmpMessages.PushPending` | kernel/kernel/Processor.cpp:753-764 | the push that makes the list non-empty owes the interrupt |
| `SmpMessages.GiveBack` | kernel/kernel/Processor.cpp:662-664 | the handled slots go to the front of the free list, or the exchange is retried |
| `TlbShootdown.Batch.Post` | kernel/kernel/Processor.cpp:699-723 | a flush request is appended, or dropped when the 32 entries are full, and the global flag is set for kernel-wide requests |
| `TlbShootdown.Batch.Take` | kernel/kernel/Processor.cpp:666-675 | the drain takes the whole batch and leaves it empty |
| `TlbShootdown.Invalidate` | kernel/kernel/Processor.cpp:677-688 | the loop over the taken requests leaves exactly the translations of the flush function |
| `TlbShootdown.DrainDrops` | kernel/kernel/Processor.cpp:677-688 | whether it flushes everything or page by page, the drain drops every translation that the batch accounts for |
| `TlbShootdown.StepKeeps` | kernel/kernel/Processor.cpp:666-723 | posting, loading translations, switching tables and draining keep every stale translation accounted for |
| `TlbShootdown.DrainLeavesNothingStale` | kernel/kernel/Processor.cpp:666-689 | after a drain the TLB holds no translation named in any request posted before the batch was taken, dropped requests and tables not loaded included: whatever is still stale is named by a request posted since |
| `TlbShootdown.TakenIsDropped` | kernel/kernel/Processor.cpp:666-689 | what was stale when the batch was taken is gone when the drain ends |
| `TlbShootdown.NoRequestStranded` | kernel/kernel/Processor.cpp:699-723 | in every run a posted request is about to be looked at |
| `TlbShootdown.RangeFlushesDrop` | kernel/arch/x86_64/PageTable.cpp:471-522 | page-by-page invalidation reaches every translation that a request names |
| `TlbDrain.FlushedExactly` | kernel/kernel/Processor.cpp:677-688 | a translation survives a drain if and only if no request that concerns the loaded table has its page in range, or, where the drain flushes everything, if it is global and the batch has no kernel request or the processor no global pages |
| `TlbDrain.InvalidatedExactly` | kernel/arch/x86_64/PageTable.cpp:471-522 | the caller's own TLB keeps nothing that the broadcast request names, and loses exactly the range or what a full flush costs |
| `TlbDrain.RequestIsWellFormed` | kernel/arch/x86_64/PageTable.cpp:475-491 | every request that invalidate_range sends is as the machine expects it, except for a range of user pages that runs into the kernel's |
| `TlbDrain.StaleIff` | kernel/kernel/Processor.cpp:666-723 | in every run the machine's stale translations are exactly those that were in the TLB when a request named them and have stayed there without being loaded anew |
| `TlbDrain.LoadedThenNamed` | kernel/kernel/Processor.cpp:699-723 | a translation that is loaded and then named by a request is stale |
| `TlbDrain.InterruptsAddUp` | kernel/kernel/Processor.cpp:699-723 | in every run each poster that found the batch empty has raised the interrupt once or still owes it, and an interrupt is latched if and only if one came since the last was taken |
| `TlbDrain.DrainAlone` | kernel/kernel/Processor.cpp:666-689 | a processor that looks at its batch and is left alone ends with nothing stale |
| `TlbDrain.EverythingCanBeFlushed` | kernel/kernel/Processor.cpp:666-723 | from every reachable state at most six steps of the processor and of posters that owe it an interrupt flush all stale translations |
| `TlbDrain.Target.Post` | kernel/kernel/Processor.cpp:699-723 | the batch with its array follows the machine's Post step, and says that the interrupt is owed if and only if the machine owes one more |
| `TlbDrain.Target.Drain` | kernel/kernel/Processor.cpp:666-689 | it follows the steps of a drain, after which nothing is stale |
| `PageEntry.CanonicalRoundTrip` | kernel/arch/x86_64/PageTable.cpp:40-57 | dropping and restoring the upper bits gives an address back if and only if it is canonical |
| `PageEntry.IndicesDeterminePage` | kernel/arch/x86_64/PageTable.cpp:647-650 | two canonical pages with the same four indices are the same page |
| `PageEntry.IndicesAreDigits` | kernel/arch/x86_64/PageTable.cpp:647-650 | the four shift-and-mask indices of an address are the base-512 digits of its page number |
| `PageEntry.PageNumbersDiffer` | kernel/arch/x86_64/PageTable.cpp:40-57 | canonical page-aligned addresses have the same page number if and only if they are equal |
| `PageEntry.LeafRoundTrip` | kernel/arch/x86_64/PageTable.cpp:651-695 | the flags and the physical address read back from a mapped entry are those it was mapped with |
| `PageEntry.LeafUsed` | kernel/arch/x86_64/PageTable.cpp:689-695 | a mapped entry counts as used exactly when its flags ask for a present or reserved page |
| `PageEntry.LeafRights` | kernel/arch/x86_64/PageTable.cpp:667-694 | a mapped entry grants the rights that its flags ask for, and no more than the entries above it get |
| `PageEntry.CachingReadsBack` | kernel/arch/x86_64/PageTable.cpp:660-665 | under the page attribute table that the kernel sets up, the processor caches a mapped page the way the caller asked for |
| `PageLeaf.LeafIs` | kernel/arch/x86_64/PageTable.cpp:652-694 | every bit of a mapped entry: present, writable, user and reserved as the flags ask, PWT, PCD and PAT as the memory type asks, global if and only if the page is global, no-execute if and only if it is available and execution was not asked for, the address in bits 12 to 62, and all other bits clear |
| `PageLeaf.OneLeaf` | kernel/arch/x86_64/PageTable.cpp:652-694 | no two words fit that description |
| `PageLeaf.NextIsPage` | kernel/arch/x86_64/PageTable.cpp:711-712 | the address of the next physical page is one page size further on, modulo 2^64 |
| `PageLeaf.LeafLeadsTo` | kernel/arch/x86_64/PageTable.cpp:692-712 | read back from an entry, the n-th page's address is the first one plus 4096 n, as far as 63 bits hold it |
| `PageTree.RightsAreTheEntrys` | kernel/arch/x86_64/PageTable.cpp:667-694 | the rights that the processor finds on its walk, those to write and to use from user mode granted at all four levels and execution forbidden at none, are exactly those of the page's entry |
| `PageTree.FlagsAdded` | kernel/arch/x86_64/PageTable.cpp:672-682 | adding flag bits to a present inner entry changes no page and keeps the tree well formed |
| `PageTree.ChildAdded` | kernel/arch/x86_64/PageTable.cpp:672-682 | linking a zeroed frame as a new table keeps the tree well formed |
| `PageTree.ChildFlat` | kernel/arch/x86_64/PageTable.cpp:672-682 | and changes no page's entry |
| `PageTree.LeafWritten` | kernel/arch/x86_64/PageTable.cpp:692-694 | writing an entry of a page table changes that page and no other |
| `PageTree.WalkStops` | kernel/arch/x86_64/PageTable.cpp:789-801 | a missing table anywhere on the way means an unused page |
| `PageTable.PageTable.EnsureTable` | kernel/arch/x86_64/PageTable.cpp:672-682 | finds or allocates the table below an entry that now grants the flags, changes no page's entry, moves no table, keeps the frames conserved, keeps every entry within the rights of the one above and lets no inner entry forbid execution |
| `PageTable.PageTable.MapPageAt` | kernel/arch/x86_64/PageTable.cpp:631-698 | every bit of the page's new entry is as `PageLeaf.LeafIs` says, global if and only if the table is the kernel's and the processor has global pages; every other page's entry stays, whatever tables were allocated; frames are conserved |
| `PageTable.PageTable.MapRangeAt` | kernel/arch/x86_64/PageTable.cpp:700-714 | page first + i leads to the physical address paddr + 4096 i, computed modulo 2^64 and read back with the entry's address field, with every other bit of its entry as asked, and no other page changes |
| `PageTable.PageTable.UnmapPage` | kernel/arch/x86_64/PageTable.cpp:524-556 | exactly one page becomes unused |
| `PageTable.PageTable.GetPageData` | kernel/arch/x86_64/PageTable.cpp:775-806 | the walk returns the page's entry in the flat map, of this table or, for a kernel page of a process, of the kernel's table that shares its last PML4 slot |
| `PageTable.PageTable.IsPageFree` | kernel/arch/x86_64/PageTable.cpp:1056-1060 | a page is free exactly when that entry is 0 |
| `PageTable.PageTable.IsRangeFree` | kernel/arch/x86_64/PageTable.cpp:1062-1072 | a run of pages is free exactly when every page of it is |
| `PageTable.PageTable.ReservePage` | kernel/arch/x86_64/PageTable.cpp:818-824 | exactly one page becomes reserved |
| `PageTable.PageTable.ReserveRange` | kernel/arch/x86_64/PageTable.cpp:826-883 | exactly the pages of the range become reserved, across any number of tables; frames are conserved |
| `PageTable.PageTable.ReserveInPointerTable` | kernel/arch/x86_64/PageTable.cpp:857-877 | the same for the part of the range in one page-directory-pointer table, with the number of pages left over |
| `PageTable.PageTable.ReserveInDirectory` | kernel/arch/x86_64/PageTable.cpp:861-875 | the same for one page directory |
| `PageTable.PageTable.ReserveEntries` | kernel/arch/x86_64/PageTable.cpp:865-873 | the same for one page table |
| `PageTable.PageTable.ReserveEach` | kernel/arch/x86_64/PageTable.cpp:818-824 | what page by page reservation of a run does |
| `PageTable.RangeReservesLikeEach` | kernel/arch/x86_64/PageTable.cpp:818-883 | one walk over a range makes exactly the pages used that page by page reservation makes used, and neither makes a page present |
| `PageTable.ReservedLeafIsBare` | kernel/arch/x86_64/PageTable.cpp:818-883 | the two write the same entry if and only if neither the no-execute nor the global bit is in play |
| `PageTable.PageTable.CreateUserspace` | kernel/arch/x86_64/PageTable.cpp:415-432 | a new table has one own frame, shares the upper half and has no page used |
| `PageTable.PageTable.Destroy` | kernel/arch/x86_64/PageTable.cpp:434-462 | the heap gets back each frame of the table exactly once, and no shared one |
| `PageTable.PageTable.ReleaseDirectories` | kernel/arch/x86_64/PageTable.cpp:446-458 | the part of it below one page-directory-pointer table |
| `PageTable.PageTable.ReleaseTables` | kernel/arch/x86_64/PageTable.cpp:451-456 | the part of it below one page directory |
| `PageTable.Lifetime` | kernel/arch/x86_64/PageTable.cpp:415-462 | over every sequence of map, unmap and reserve operations, creating and destroying a table leaves the heap with exactly the frames it had |
| `RegionList.CutAllFind` | kernel/kernel/Process.cpp:2844-2862 | cutting a range out of every region removes exactly its addresses from the map |
| `RegionList.CutAllOrdered` | kernel/kernel/Process.cpp:2844-2862 | and keeps the regions sorted and disjoint |
| `RegionList.CutUpTo` | kernel/kernel/Process.cpp:2850-2858 | stopping at a region after it has been taken off the list loses its addresses and the part of the range before it, and no others |
| `RegionList.PiecesFind` | kernel/kernel/Process.cpp:2647-2677 | splitting a region changes what no address maps to |
| `RegionList.RecolouredFind` | kernel/kernel/Process.cpp:2917-2924 | changing the flags of whole regions changes them at exactly the mapped addresses of the range |
| `RegionList.ProgressSplits` | kernel/kernel/Process.cpp:2902-2914 | splitting a region in the middle of mprotect changes no address |
| `RegionList.ProgressEnds` | kernel/kernel/Process.cpp:2897-2927 | when the loop ends the flags have changed on exactly the mapped part of the range |
| `RegionList.ProgressStops` | kernel/kernel/Process.cpp:2917-2922 | when a region refuses the protection, they have changed on exactly the mapped addresses before it |
| `RegionList.ProgressLoses` | kernel/kernel/Process.cpp:2904-2907 | when one refuses to be split, its addresses are lost and the flags have changed on exactly the mapped addresses before it |
| `ProcessMemory.Process.FindMappedRegion` | kernel/kernel/Process.cpp:600-618 | the binary search returns the index that separates the regions ending at or before the address from the others |
| `ProcessMemory.Process.AddMappedRegion` | kernel/kernel/Process.cpp:593-598 | keeps the regions sorted and disjoint and maps exactly the new region's addresses in addition |
| `ProcessMemory.Split` | kernel/kernel/Memory/MemoryBackedRegion.cpp:133-157 | a memory- or file-backed region is divided for exactly the page-aligned offsets strictly inside, and an assertion fails for others; the other region classes return their error |
| `ProcessMemory.SplitMemoryRegion` | kernel/kernel/Process.cpp:2647-2677 | for an overlapping region, an error exactly when it cannot be split and the range covers it only in part, a failed assertion exactly when it can be split and the range is empty or wraps around, and otherwise the parts before, inside and after the range |
| `ProcessMemory.Process.UnmapRegion` | kernel/kernel/Process.cpp:2850-2861 | replaces a region by what lies outside the range, or loses it when it refuses to be split, or fails an assertion when it can be split and the range is empty or wraps around |
| `ProcessMemory.Process.UnmapRange` | kernel/kernel/Process.cpp:2844-2862 | the loop terminates with every region cut, or at the first region that refuses, which is gone; on a range that is empty or wraps around it does nothing if and only if no region overlaps it, fails an assertion if and only if one that can be split does, and loses one that cannot |
| `ProcessMemory.Process.SysMunmap` | kernel/kernel/Process.cpp:2825-2865 | on every range that fits, succeeds if and only if no region that the range covers in part refuses to be split; then removes exactly the addresses of the page-rounded range; otherwise returns the error of the first such region, whose addresses and the range before it are lost while all others stay; on every other range the same for what the rounding wrapped to, or the outcomes of a range that wraps around |
| `ProcessMemory.MunmapMisses` | kernel/kernel/Process.cpp:2830-2862 | for every range that does not fit, regions on which munmap reports success and leaves an address of the range mapped |
| `ProcessMemory.MisfitStops` | kernel/kernel/Process.cpp:2647-2677 | on a range that is empty or wraps around, the one region that can overlap it fails an assertion if it can be split, and is lost otherwise, with every other address as before |
| `ProcessMemory.MunmapHalts` | kernel/kernel/Memory/MemoryBackedRegion.cpp:133-136 | a munmap from the middle of a region with a length close to 2^64 fails an assertion |
| `ProcessMemory.MprotectHalts` | kernel/kernel/Memory/MemoryBackedRegion.cpp:133-136 | so does an mprotect |
| `ProcessMemory.MunmapLosesRegion` | kernel/kernel/Memory/SharedMemoryObject.cpp:248-252 | with such a region alone on the list, every range that covers a part of it makes munmap fail and unmaps the whole region |
| `ProcessMemory.HalfOfSharedObject` | kernel/kernel/Process.cpp:2850-2858 | unmapping the first page of a two-page shared memory object is an error that loses the second page as well |
| `ProcessMemory.Process.ProtectRegion` | kernel/kernel/Process.cpp:2897-2925 | one round either finishes, is refused, loses a region that cannot be split, or gets closer to the end of the range |
| `ProcessMemory.Process.SplitRegion` | kernel/kernel/Process.cpp:2902-2914 | replaces a region by its parts and stops at the part inside the range, or loses it when it refuses to be split |
| `ProcessMemory.Process.ProtectRange` | kernel/kernel/Process.cpp:2896-2927 | terminates; success, refusal and split error each happen if and only if, in address order, nothing stands in the way, an address that refuses the protection comes first, or a region that refuses to be split does; states what every address then maps to; on a range that is empty or wraps around the same three outcomes as munmap |
| `ProcessMemory.Process.SysMprotect` | kernel/kernel/Process.cpp:2867-2928 | on every range that fits, success, refusal and split error each happen if and only if nothing stands in the way, an address refuses first, or a region refuses to be split first; the page flags of the addresses that are protected then are read-write if and only if writing is asked for, execute if and only if executing is, present and user if and only if anything is, reserved if and only if nothing is, and have no other bit; all other addresses stay; on every other range the result is that of a misfit |
| `ProcessMemory.EntryStands` | kernel/kernel/Process.cpp:2879-2892 | mapped with such flags, the entry of a page lets a user write, execute or use it at all if and only if the protection does |
| `ProcessMemory.MprotectMisses` | kernel/kernel/Process.cpp:2876-2927 | for every range that does not fit, regions on which mprotect reports success and changes nothing |
| `HashProbe.FullPeriod` | BAN/include/BAN/HashSet.h:345-350 | the congruential sequence modulo 2^k comes back to its start only after a multiple of 2^k steps |
| `HashProbe.ProbeInjective` | BAN/include/BAN/HashSet.h:345-350 | within one cycle no bucket is probed twice |
| `HashProbe.ProbeCovers` | BAN/include/BAN/HashSet.h:345-350 | every bucket is probed within one cycle |
| `HashProbe.ProbeReachesAllIff` | BAN/include/BAN/HashSet.h:345-350 | the probe reaches every bucket if and only if the capacity is at most 2^32 |
| `HashProbe.ChainIsIterate` | BAN/include/BAN/HashSet.h:345-350 | the 32-bit hash chain follows the unbounded iteration modulo 2^32 |
| `HashTable.StoppedProbe` | BAN/include/BAN/HashSet.h:265-283 | a probe that stops at an unused bucket or at the start of a chain has not missed the key |
| `HashTable.InsertedRepresents` | BAN/include/BAN/HashSet.h:289-334 | storing an absent key on an unused or removed bucket of its probe adds it to the map and hides no other key |
| `HashTable.RemovedRepresents` | BAN/include/BAN/HashSet.h:157-172 | a tombstone removes its key and hides no other key |
| `HashTable.ReplacedRepresents` | BAN/include/BAN/HashSet.h:299-331 | overwriting the entry of a present key changes that key only |
| `HashTable.ClearedRepresents` | BAN/include/BAN/HashSet.h:296-297 | ending chains hides no key |
| `HashTable.ProbeMeetsUnused` | BAN/include/BAN/HashSet.h:336-343 | under the load rule every probe meets an unused bucket within one cycle |
| `HashSet.HashSet.FindImpl` | BAN/include/BAN/HashSet.h:265-283 | terminates and finds the bucket of a key exactly when the set has the key |
| `HashSet.HashSet.ProbeForInsert` | BAN/include/BAN/HashSet.h:289-312 | terminates at the key's bucket or at one where it may be stored |
| `HashSet.HashSet.InsertImpl` | BAN/include/BAN/HashSet.h:285-334 | inserts or replaces, with exact size and tombstone counts |
| `HashSet.HashSet.Insert` | BAN/include/BAN/HashSet.h:145-155 | the set becomes the map with the key set to the value, or stays as it was, exactly when a larger table is needed and does not fit the heap; its rehash never trips the assertion |
| `HashSet.HashSet.Remove` | BAN/include/BAN/HashSet.h:157-172 | the set becomes the map without the key |
| `HashSet.HashSet.Contains` | BAN/include/BAN/HashSet.h:209-213 | membership |
| `HashSet.HashSet.Reserve` | BAN/include/BAN/HashSet.h:202-207 | which of success, ENOMEM, a block whose size wrapped and a failed assertion there is, with the assertion failing if and only if the request is granted and too small; success and ENOMEM keep the contents, and success makes room for n elements if and only if n is at most 2^62 |
| `HashSet.HashSet.Rehash` | BAN/include/BAN/HashSet.h:231-263 | keeps the contents and drops all tombstones, or trips the assertion if and only if the elements fill more than three quarters of the new capacity |
| `HashSet.HashSet.CopyFrom` | BAN/include/BAN/HashSet.h:249-256 | the loop inserts each old element once, unless they are more than the table admits |
| `HashSet.NewCapacityFits` | BAN/include/BAN/HashSet.h:231-234 | the new capacity is the power of two with room for the request, or 0 when the request is beyond the largest power of two |
| `HashSet.DoublingLeavesRoom` | BAN/include/BAN/HashSet.h:150-155 | insert asks for enough, and its request does not wrap |
| `HashSet.ReserveTripsIff` | BAN/include/BAN/HashSet.h:202-207 | the capacity that reserve asks for is too small for the elements if and only if the doubled number is beyond 2^63, or is no more than the power of two that just holds them and that one is more than three quarters full; never for numbers up to 2^62 |
| `HashSet.ReserveTrips` | BAN/include/BAN/HashSet.h:285-288 | thirteen insertions into an empty set and a reserve of 2^63 trip the assertion |
| `HashSet.RoundUp` | BAN/include/BAN/HashSet.h:233-234 | the exponent of the smallest power of two that is at least n |
| `HashSet.RoundedWordInBits` | BAN/include/BAN/Math.h:74-89 | read as numbers, the shifts and ors give that power of two, or 0 beyond 2^63 |
| `WordPowers.RoundUpIsLeast` | BAN/include/BAN/Math.h:74-89 | the shifts and ors give the least power of two that is at least x, for every word that has one, and 0 for the others |
| `Ordering.LargerLeft` | BAN/include/BAN/Sort.h:122-127 | after a partition with the smaller side sorted, only pairs inside the larger side may be out of order |
| `Ordering.SmallerLeft` | BAN/include/BAN/Sort.h:128-132 | the same with the sides exchanged |
| `HeapOrder.SinkStep` | BAN/include/BAN/Heap.h:32-49 | one step down keeps the heap order everywhere but below the element that sinks |
| `HeapOrder.RootIsMaximum` | BAN/include/BAN/Heap.h:74-80 | the root of a heap is a maximum |
| `HeapOrder.MaximumSettles` | BAN/include/BAN/Heap.h:74-80 | moving it behind the heap extends the sorted part |
| `IntroSort.Partition` | BAN/include/BAN/Sort.h:31-64 | a rearrangement of the range into smaller, equivalent and larger elements around the pivot, which the swaps move about; the middle part is not empty |
| `IntroSort.Insert` | BAN/include/BAN/Sort.h:93-97 | shifts an element to its place in the sorted part before it |
| `IntroSort.InsertionSort` | BAN/include/BAN/Sort.h:86-99 | a sorted rearrangement of the range |
| `IntroSort.SinkTo` | BAN/include/BAN/Heap.h:32-46 | the child that neither the element nor the other child exceeds, if the element has to sink |
| `IntroSort.HeapifyDown` | BAN/include/BAN/Heap.h:27-51 | extends the heap order by one parent, as a rearrangement |
| `IntroSort.MakeHeap` | BAN/include/BAN/Heap.h:55-65 | a heap, as a rearrangement |
| `IntroSort.PopHeap` | BAN/include/BAN/Heap.h:74-80 | the maximum goes behind the heap, which stays one |
| `IntroSort.SortHeap` | BAN/include/BAN/Heap.h:82-87 | turns a heap into a sorted range |
| `IntroSort.HeapSort` | BAN/include/BAN/Sort.h:101-106 | a sorted rearrangement of the range |
| `IntroSort.IntroSortImpl` | BAN/include/BAN/Sort.h:111-136 | a sorted rearrangement of the range for every strict weak order, every length and every depth limit; terminates |
| `IntroSort.Sort` | BAN/include/BAN/Sort.h:140-147 | the range becomes a sorted permutation of itself and nothing else changes |
| `RadixOrder.BucketsPermute` | BAN/include/BAN/Sort.h:177-188 | distributing by a digit loses and duplicates nothing |
| `RadixOrder.BucketsSorted` | BAN/include/BAN/Sort.h:175-193 | a stable pass over the next digit of a sequence ordered by the lower digits gives one ordered by one digit more |
| `RadixSort.CountDigits` | BAN/include/BAN/Sort.h:177-179 | counts the elements of each digit |
| `RadixSort.SumCounts` | BAN/include/BAN/Sort.h:181-182 | turns them into the ends of the buckets |
| `RadixSort.Distribute` | BAN/include/BAN/Sort.h:184-188 | the auxiliary array becomes the stable distribution of the range, and its tail stays |
| `RadixSort.CopyBack` | BAN/include/BAN/Sort.h:190-192 | copies the whole auxiliary array back |
| `RadixSort.SortByDigit` | BAN/include/BAN/Sort.h:175-193 | one pass makes the range its stable distribution by a digit |
| `RadixSort.SortWith` | BAN/include/BAN/Sort.h:162-194 | the range becomes its sorted permutation, for every radix 2^shift with shift at least 1; what follows it becomes the tail of the auxiliary array |
| `RadixSort.SortWithTail` | BAN/include/BAN/Sort.h:190-192 | nothing behind the range changes if and only if it equals that tail |
| `RadixSort.Sort` | BAN/include/BAN/Sort.h:196-210 | with an auxiliary array of its own length, nothing but the range changes |
| `Time.IsLeapYear` | BAN/BAN/Time.cpp:6-15 | the Gregorian rule |
| `Time.LeapDaysSinceEpoch` | BAN/BAN/Time.cpp:17-26 | the loop counts the leap days from the epoch to the date |
| `Time.ToUnixTime` | BAN/BAN/Time.cpp:30-38 | on every valid date the seconds of the reference calendar; on others the formula modulo 2^64 |
| `Time.FromUnixTime` | BAN/BAN/Time.cpp:40-69 | a day of the calendar and the given time of day for every time; the weekday is Thursday on day 0 and the next one each day after, Saturday being followed by Sunday; a valid date of the reference calendar with that many seconds if and only if the year fits 32 bits |
| `Time.Epoch` | BAN/BAN/Time.cpp:40-69 | time 0 is midnight of Thursday, 1 January 1970 |
| `Time.DayLater` | BAN/BAN/Time.cpp:44-50 | 86400 seconds later it is the next weekday, 1 after 7, at the same time of day |
| `Time.WeekDayOfDate` | BAN/BAN/Time.cpp:50 | the weekday of every valid date, from its year and its day in the year alone, by the rule of the Gregorian calendar |
| `Time.YearOfDay` | BAN/BAN/Time.cpp:52-57 | the year loop splits a day count, wrapping at 2^32 |
| `Time.MonthOfDay` | BAN/BAN/Time.cpp:59-66 | the month loop splits a day of the year across all leap rules |
| `Time.UnixTimeRoundTrip` | BAN/BAN/Time.cpp:30-69 | converting there and back gives the same time if and only if the year fits |
| `Time.DateRoundTrip` | BAN/BAN/Time.cpp:30-69 | converting every valid date from 1970 on and back gives the date, with the weekday that the Gregorian calendar gives it |
| `Time.FormulaIsSeconds` | BAN/BAN/Time.cpp:30-38 | the source's formula is the reference calendar on every valid date |
| `Time.SecondsInjective` | BAN/BAN/Time.cpp:30-38 | different valid dates have different times |
| `Time.WrappedYearLosesDays` | BAN/BAN/Time.cpp:52-57 | the formula gives a day count back if and only if the year loop did not wrap |

## Left out

- SmpMessages.HandledInPushOrder: drains are not nested; a processor that waits for a message slot inside a handler may handle further messages, which would change their order.
- SchedulerSteps.Apply: what a processor does with a deleted thread is undefined; the machine drops the call, and `SchedulerProof.NoAssertionFails` says exactly when that happens.
- SchedulerProof.BlockKeeps: the mutex that blocking releases wakes nobody, as releasing one of the kernel's mutexes unblocks no thread.
- SchedulerProof.MigrateKeeps: the load-balancing heuristics are left out; a migration may move any thread of a processor to any other processor.
- SchedulerRefinement.Machine.BlockCurrentThread: the chain of the blocker is part of the machine's state only; `BlockOrder.WaitQueue` has its nodes.
- SchedulerProof.NoWakeupLost: a timeout may come at any moment; wake times are in `Scheduler.Scheduler.WakeUpSleepingThreads`.
- PageTable.PageTable.EnsureTable: takes any free page, and reports with ok that none was left where the source fails an assertion; the physical heap is its set of free pages.
- PageTable.PageTable.GetPageData: looks up the pages of a process and of the kernel; the direct map of physical memory in between consists of larger pages, which are not modelled.
- PageTable.PageTable.MapPageAt: the lock and the TLB invalidation are left out; `TlbShootdown` has the latter's effect.
- ProcessMemory.Process.SysMunmap: `m_vma_bump_base`, waiting for pinned regions and running out of memory, also inside the split of a region, are left out.
- ProcessMemory.Process.SysMprotect: waiting for pinned regions, running out of memory and failures inside `MemoryRegion::mprotect` are left out.
- HashSet.HashSet.Insert: the heap provides at most 2^32 buckets, beyond which the probe cannot reach all of them (`HashProbe.ProbeReachesAllIff`), and a bucket takes at most 2^30 bytes; a request for more is the ENOMEM return.
- HashSet.HashSet.Reserve: what the set does with a block whose size wrapped, and after its assertion has failed, is not modelled.
- IntroSort.Sort: element moves are modelled as assignments, so that a moved-from element keeps its value until it is overwritten; running time is left out, and the contract holds for every depth limit.
- RadixSort.SortWith: radix 1, which does not terminate, and an auxiliary array that reaches beyond the memory behind the range are left out.
- Memory ordering weaker than sequential consistency, which the atomics of the source default to.
- Contents of files and memory behind regions: a region is its address range, flags, sharing, writability and where in its backing object each address leads.
- `unmap_range`, `remove_writable_from_range`, `reserve_free_page` and `reserve_free_contiguous_pages`: their skipped tables do not reset the lower indices, so that a range specification would need alignments that the code does not demand.
- `quick_sort`, `exchange_sort` and `PriorityQueue`: introsort covers the algorithms; `heapify_up` and `push_heap`: sorting does not use them.
- Iterator, `Vector`, `UniqPtr` and `Span` mechanics: indices, sequences and references take their place.
- Drivers, ACPI, PCI, APIC, IDT, GDT, CPUID, boot code, file systems, sockets and user space: hardware and plumbing without invariants of this kind.
