# A verified model of ivykis

ivykis is an event loop library in C.  It carries several data structures and
protocols of its own: a timer queue stored in a growing radix tree, an
intrusive AVL tree, a worker pool and cross-thread events with coalesced
wakeups, signal fan-out with hand-off, a deferred copy of the kernel's interest
set, a byte pump and an epoch-based task runner.  This project models them in
Dafny and proves what they are for, over every input, every interleaving and
every behaviour of user handlers.

`dafny verify dfyconfig.toml` checks the whole project.

## How it is organised

| file | models |
|---|---|
| `AvlShape.dfy`, `AvlTree.dfy` | `src/iv_avl.c`, `src/include/iv_avl.h`: tree shapes as values, and nodes in the heap that refine them |
| `RadixTree.dfy`, `TimerQueue.dfy` | `src/iv_timer.c`: the 128-way radix tree as a flat array, the heap in it as a priority queue, and the expiry pass |
| `WorkPool.dfy` | `src/iv_work.c` as a transition system |
| `Events.dfy` | `src/iv_event.c` as a transition system |
| `Signals.dfy`, `SignalHandOff.dfy` | `src/iv_signal.c`: the search and wake in the tree, and the hand-off protocol |
| `Deadlines.dfy` | the poll timeout latch and relative times (`src/iv_fd.c`, `src/iv_fd_epoll.c`, `src/iv_private.h`) |
| `FdTable.dfy`, `FdLookup.dfy` | registration (`src/iv_fd.c`) over epoll and /dev/poll |
| `PollArrays.dfy` | `src/iv_fd_poll.c` |
| `Dispatch.dfy` | calling the handlers of ready descriptors (`src/iv_fd.c`) |
| `Pump.dfy` | `src/iv_fd_pump.c` |
| `Tasks.dfy` | `src/iv_task.c` |
| `Calls.dfy`, `MainLoop.dfy` | handlers that act on timers and tasks alike, and the turns of the loop in `src/iv_main_posix.c` |
| `ListRing.dfy`, `Lists.dfy` | `src/include/iv_list.h` as linked rings; lists without repetitions, as the other models use them |

Code that updates objects in place is modelled by classes and methods with
loops, whose ghost state is an abstract value (a tree shape, the levels of the
radix tree, the heap as a sequence, a kernel map).  The two concurrent protocols
and the signal hand-off are step relations: a step is one block of code that
holds the lock, or one action between two such blocks, so that "unlocked but
not yet kicked" and "event taken but lock not yet held" are states of their own.
A user handler is an arbitrary sequence of API calls.  For the passes that call
handlers, `script[k]` is what the k-th handler called does; calls that the
library answers with a fatal error are not made.

Assumptions, as the code makes them: fewer than 2^28 timers exist (beyond that
the shift at `src/iv_timer.c:194` is wider than `int`); a tree has fewer than
2^64 nodes; `max_threads` is at least 1, thread creation succeeds, nothing is
submitted after the pool was put, and fewer than 2^31 work items wait, or are
dispatched while one `work` call runs; descriptor numbers in use in one thread
are distinct; deadlines are normalised and not negative.  The comparison
function of a tree is a total order, which the model gives by integer keys.

Four promises turn out to need a condition, which is proved exactly.  The
timeout latch never waits longer than asked, except by one nanosecond when a
zero deadline is latched (`Deadlines.PollLatch.Poll`).  The arrays of the poll
method are written inside their bounds in every case but that of a descriptor
that is not in them and wants no band (`PollArrays.PollSet.WritesInside`);
registering or unregistering a descriptor without handlers leads there, and so
does clearing a handler when none is set.  A wakeup from another thread is
sent to a channel that is on if and only if the owner has an event registered
at that time (`Events.KickFails`), so the last event must not be unregistered
while a poster is between queueing an event and sending its wakeup.  An
unregistration leaves no trace of its event except exactly when the event is
posted after the test, made without the lock, has found it on no list
(`Events.StepKeeps`); the results about events are for runs without such posts.

## Model

| member | source | states |
|---|---|---|
| AvlShape.StoredHeightsAreExact | src/iv_avl.c:25-38 | in a balanced tree each stored height is the true height of the subtree |
| AvlShape.AvlHasFibonacciNodes | src/iv_avl.c:197-217 | a tree of height h has at least Fib(h+2)-1 nodes |
| AvlShape.HeightFitsInByte | src/include/iv_avl.h:30-35 | no tree with fewer than 2^64 nodes is taller than 91, so the 8-bit height never overflows |
| AvlShape.RebalanceNodeOrder | src/iv_avl.c:197-217 | whichever rotation is chosen, the order and number of nodes stay the same |
| AvlShape.RebalanceNodeAvl | src/iv_avl.c:197-217 | a node whose subtrees differ by at most 2 is repaired and loses at most one level; a balanced one is left alone |
| AvlShape.RebalanceStepAvl | src/iv_avl.c:245-263 | one round of the climb repairs a node whose child changed height by at most one, with 8-bit arithmetic for the intermediate heights |
| AvlShape.RebalancePathAvl | src/iv_avl.c:245-263 | stopping at the first unchanged height leaves no ancestor with a wrong height or balance, and never changes the order of the nodes |
| AvlTree.PivotLeft | src/iv_avl.c:92-110 | the pointer writes of the rotation produce exactly the rotated shape, parent links included |
| AvlTree.PivotRight | src/iv_avl.c:112-130 | the same for the mirror image |
| AvlTree.PivotLeftRight | src/iv_avl.c:132-160 | the same for the double rotation |
| AvlTree.PivotRightLeft | src/iv_avl.c:162-190 | the same for the mirrored double rotation |
| AvlTree.AvlTree.RebalanceNode | src/iv_avl.c:197-217 | the node is replaced in its parent by the rebalanced subtree, and the rest of the tree is untouched |
| AvlTree.AvlTree.FindReference | src/iv_avl.c:219-230 | the returned reference is the child pointer (or root pointer) that holds the node |
| AvlTree.AvlTree.RebalancePath | src/iv_avl.c:245-263 | the climbing loop over parent pointers computes the rebalanced shape |
| AvlTree.AvlTree.FindPlace | src/iv_avl.c:267-291 | reports a taken key exactly when it is in the tree, and otherwise finds the one empty child pointer where the key belongs |
| AvlTree.AvlTree.Insert | src/iv_avl.c:265-304 | keeps the whole tree invariant and adds exactly the node at its place in the order; a duplicate key returns -1 and changes nothing |
| AvlTree.AvlTree.DeleteNonleaf | src/iv_avl.c:318-382 | the node is replaced by its predecessor or successor in the taller subtree and the order loses just that node |
| AvlTree.AvlTree.Delete | src/iv_avl.c:384-394 | keeps the whole tree invariant and removes exactly the node |
| AvlTree.AvlTree.Min | src/include/iv_avl.h:63-77 | the first node in order, or null for an empty tree |
| AvlTree.AvlTree.Max | src/include/iv_avl.h:79-93 | the last node in order, or null for an empty tree |
| AvlTree.AvlTree.Next | src/iv_avl.c:396-415 | the node that follows in order, or null at the end |
| AvlTree.AvlTree.Prev | src/iv_avl.c:417-436 | the node that precedes in order, or null at the beginning |
| AvlTree.NextPrevInverse | src/iv_avl.c:396-436 | successor and predecessor are inverse to each other |
| AvlTree.AvlTree.ForEach | src/include/iv_avl.h:95-96 | iteration visits every node once and in order |
| AvlTree.AvlTree.ForEachSafe | src/include/iv_avl.h:98-105 | every node is visited exactly once and in order although any visited node may be deleted, with rebalancing, during the walk; exactly the deleted nodes are missing after it |
| RadixTree.ShrIsDivision | src/iv_timer.c:194-210 | shifting by 7 bits a level is division by 128^level |
| RadixTree.RadixTree.GetNode | src/iv_timer.c:189-215 | the slot of the index by its base-128 digits; at most one level is added and that is always enough; no other slot changes and new slots are empty |
| RadixTree.RadixTree.SlotsDiffer | src/iv_timer.c:213-214 | distinct indices have distinct slots and none of them is slot 0 of the first leaf, which is the root pointer |
| RadixTree.RadixTree.FreeRatnode | src/iv_timer.c:128-141 | frees exactly the nodes of the subtree, each once |
| RadixTree.RadixTree.RemoveLevel | src/iv_timer.c:143-159 | frees exactly the root and all subtrees but the first, and the remaining tree is well formed |
| RadixTree.RadixTree.Shrink | src/iv_timer.c:338-342 | removing a level keeps every index below 128^depth on the slot it had |
| RadixTree.RadixTree.Deinit | src/iv_timer.c:161-167 | every node that was ever allocated has been freed, and the root pointer is cleared |
| TimerQueue.RootIsMinimum | src/iv_timer.c:75-84 | the root of an ordered heap is no later than any entry |
| TimerQueue.SwapUp | src/iv_timer.c:233-245 | exchanging a timer with a later parent keeps order everywhere but above it |
| TimerQueue.SwapDown | src/iv_timer.c:294-305 | exchanging a timer with its soonest child keeps order everywhere but below it |
| TimerQueue.TimerQueue.PullUp | src/iv_timer.c:223-246 | from a heap out of order at one place to one out of order at most below it, with every timer's recorded index right |
| TimerQueue.TimerQueue.SoonestOf | src/iv_timer.c:277-292 | the soonest of a timer and its children; the test of the second child's slot for NULL is the same as asking whether it exists |
| TimerQueue.TimerQueue.PushDown | src/iv_timer.c:270-307 | from a heap out of order at most below one place to an ordered heap |
| TimerQueue.TimerQueue.Register | src/iv_timer.c:248-268 | fatal exactly for a timer whose index says that it is registered or expired; otherwise the set of timers grows by just this one and all invariants hold |
| TimerQueue.TimerQueue.UnregisterFromHeap | src/iv_timer.c:321-350 | takes a timer out of any place of the heap; the two internal fatal checks cannot fire |
| TimerQueue.TimerQueue.Unregister | src/iv_timer.c:309-356 | removes exactly this timer from the heap or from the list of expired timers; fatal exactly when it is on neither |
| TimerQueue.TimerQueue.SoonestTimeout | src/iv_timer.c:75-84 | the minimum of all expiry times, or none exactly when there are no timers |
| TimerQueue.TimerQueue.Counted | src/iv_timer.c:260-350 | what timers add to the count of objects is zero exactly when no timer is registered |
| TimerQueue.TimerQueue.Collect | src/iv_timer.c:100-114 | moves exactly the due timers to the list, each once, in non-decreasing order of expiry; the fatal check cannot fire |
| TimerQueue.TimerQueue.RunTimers | src/iv_timer.c:86-126 | the pass ends; the handlers called and the timers registered afterwards are those of the specification `FireOrder` and `AfterPass` on the due and the other timers |
| TimerQueue.FireOrderInOrder | src/iv_timer.c:116-125 | each handler is called at most once, in the order of expiry, and only for listed timers, so timers registered by handlers wait for a later pass |
| TimerQueue.FireOrderExact | src/iv_timer.c:116-125 | a listed timer fires if and only if no handler called before it unregisters it |
| TimerQueue.AfterPassKeeps | src/iv_timer.c:86-126 | a pass changes nothing about the registration of a timer that no handler called in it mentions |
| TimerQueue.PassLeavesAsItIs | src/iv_timer.c:86-126 | a timer that is not registered stays so unless a handler called in the pass registers it, and one that is registered keeps its time unless one unregisters it |
| TimerQueue.LastUnregistered | src/iv_timer.c:309-356 | a timer that a handler unregisters, from the heap or from the list, and does not register again is on neither afterwards |
| TimerQueue.UnregisteredStays | src/iv_timer.c:309-356 | a timer that a handler of a pass unregisters, and that is not registered later in it, is not registered after the pass and does not fire any more in it |
| TimerQueue.WhoWaits | src/iv_timer.c:86-126 | after a pass a timer that was not due is registered as before unless a handler unregisters it, and one that was due is not unless a handler registers it |
| TimerQueue.FreeWhenCalled | src/iv_timer.c:116-125 | when the handler of a timer is called, the timer is neither registered nor listed, so the handler can register it again |
| TimerQueue.RegisteredWaits | src/iv_timer.c:116-125 | a timer that a handler registers while it is on neither list, and that nobody unregisters later, is registered for that time after the pass and does not fire again in it, as a periodic timer needs |
| WorkPool.WrappedOrder | src/iv_work.c:99-100 | inside a window of 2^31 the signed difference of the wrapped counters is the true difference |
| WorkPool.WrappedOrderIsTight | src/iv_work.c:99-100 | at the next value on either side the comparison gives the wrong answer |
| WorkPool.StepKeeps | src/iv_work.c:62-369 | every step of every thread keeps the invariant of the pool |
| WorkPool.RunKeeps | src/iv_work.c:62-369 | so does every interleaving of any length |
| WorkPool.WorkNeverStranded | src/iv_work.c:84-161 | in every reachable state with waiting items some worker is starting, inside its loop, or has a kick pending that an idle timeout cannot cancel |
| WorkPool.QueueLength | src/iv_work.c:351-352 | the length of the queue is the difference of the counters modulo 2^32 |
| WorkPool.NeverBroken | src/iv_work.c:62-82 | no fatal check, double timer registration, use of a freed pool or thread, or pop from an empty list is reachable, every idle entry is a live thread, and the thread count equals the live workers and never exceeds the maximum |
| WorkPool.WhatBreaks | src/iv_work.c:62-82 | what would count as broken is recorded, in any state, and not forgotten: a step after the pool has been freed, a second registration of an idle timer, an item that does not exist |
| WorkPool.WhatBreaksInLoop | src/iv_work.c:67-71 | so are a pop from an empty queue and the death of a thread that has been kicked or is listed as idle |
| WorkPool.FreedOnceAndLast | src/iv_work.c:213-224 | the pool is freed at most once, when no worker lives and every item has completed, and nothing touches it afterwards |
| WorkPool.ExactlyOnce | src/iv_work.c:103-116 | `work` of an item is called exactly once after it leaves the queue and `completion` exactly once after that |
| WorkPool.DispatchedInOrder | src/iv_work.c:102-107 | items are worked on in the order of submission |
| WorkPool.CompletedInOrder | src/iv_work.c:113-115 | completions are called in the order in which `work` has returned |
| WorkPool.OwnerIsTold | src/iv_work.c:113-114 | the owner is told of a finished item exactly if it is the only one waiting for it, or the worker was the last of a pool that has been put |
| WorkPool.SubmissionIsTold | src/iv_work.c:348-366 | a submission kicks the worker that went idle last; if none is idle and fewer than the maximum run, the owner starts one more and a worker asks for one; at the maximum nothing else happens |
| WorkPool.NeededIsNotForgotten | src/iv_work.c:362-366 | the request of a worker for a thread reaches the owner |
| WorkPool.NeededIsStarted | src/iv_work.c:228-241 | the owner then starts one exactly if none is idle and fewer than the maximum run |
| WorkPool.VisitIsBounded | src/iv_work.c:98-100 | on one visit to the queue a worker takes only items that were submitted before the visit began |
| WorkPool.EndOfVisit | src/iv_work.c:99-141 | a worker takes the next of these items if there is one, and otherwise comes back if items wait, goes idle with its timer set if none do, or leaves a pool that has been put |
| WorkPool.LastIdleFirst | src/iv_work.c:120 | who goes idle is the next to be kicked |
| WorkPool.IdleThreadLeaves | src/iv_work.c:144-161 | a thread that stays idle leaves the pool, unless it has been kicked meanwhile |
| WorkPool.PutIsRemembered | src/iv_work.c:287-311 | a pool that has been put is shutting down from then on |
| WorkPool.ComesToRest | src/iv_work.c:84-241 | without new calls or timeouts every run of the pool is bounded by a rank known at its start |
| WorkPool.RestMeansDone | src/iv_work.c:113-224 | a pool with nothing left to do has completed every item and, if it was put, has been freed |
| WorkPool.EverythingCompletes | src/iv_work.c:84-311 | so a pool left to itself completes everything and is freed if it was put |
| Events.RunsNeverOutnumberPosts | src/iv_event.c:145-158 | with coalescing posts, an event's handler runs at most as often as it is posted |
| Events.PostIsAnswered | src/iv_event.c:145-158 | a post is followed by a run or an unregistration unless the event still waits |
| Events.StepKeeps | src/iv_event.c:33-172 | with the three parts of an unregistration as steps of their own, a step keeps the invariant (the channel on exactly while events are registered, queued events registered) if and only if it is not a post that comes too late, after the test at line 128 has found the event on no list |
| Events.OneQueue | src/iv_event.c:33-67 | stealing and batching refine one first-in first-out queue: the two lists together are what is owed, less an event just taken off by its unregistration, and handlers run from its head |
| Events.PostWakes | src/iv_event.c:145-171 | a post sends a wakeup exactly if it makes the pending list non-empty, to its own thread by a task and to another by a kick |
| Events.QueuedAreRegistered | src/iv_event.c:124-158 | whatever is queued is registered, so no handler is called after the unregistration of its event |
| Events.NoLostWakeup | src/iv_event.c:152-171 | a non-empty pending list implies a wakeup outstanding, a poster about to send one, or an owner about to steal |
| Events.HandlersNeverOutnumberPosts | src/iv_event.c:33-67 | in every interleaving, also with handlers that unregister events of the stolen batch |
| Events.KickFails | src/iv_event.c:160-171 | a wakeup finds the channel of its owner off exactly when no event is registered any more |
| Events.CarefulRunsAreSafe | src/iv_event.c:134-140 | no run in which the last event is never unregistered while a poster has yet to send its wakeup sends one to a channel that is off |
| Events.CarelessStep | src/iv_event.c:134-140 | any unregistration that lacks this care can be followed at once by a wakeup that fails |
| Events.LatePostStrands | src/iv_event.c:124-158 | any post that comes too late can be followed by the end of the unregistration, which leaves an unregistered event queued |
| Events.RunsUnregistered | src/iv_event.c:124-158 | a run in which that happens and the handler is called after the unregistration |
| Events.UnsentWakeup | src/iv_event.c:124-171 | a run in which that happens, with each event unregistered by its owner, the last one in its own handler |
| Events.EveryPostIsAnswered | src/iv_event.c:33-172 | left to themselves the threads come to rest within a bound, and then every post has been answered |
| Signals.CompareIsKeyOrder | src/iv_signal.c:40-66 | the comparison is a total order: signal number, then exclusive first, then address |
| Signals.OneExclusive | src/iv_signal.c:161-162 | if anyone is interested exclusively, exactly one interest is woken and it is exclusive |
| Signals.FindFirst | src/iv_signal.c:119-139 | the first node in order with the signal number, or null if there is none |
| Signals.SignalTable.Wake | src/iv_signal.c:141-168 | marks and posts exactly the interests the signal is for: the first exclusive one, or else all and only those for the number |
| Signals.Deliver | src/iv_signal.c:170-183 | a signal wakes the interests of the thread it arrives in that it is for, and those of the process exactly when there are none |
| Signals.SignalTable.Register | src/iv_signal.c:245-291 | adds exactly the interest, not active, and installs the handler; -1 and no change for a number out of range |
| Signals.SignalTable.Unregister | src/iv_signal.c:293-318 | removes exactly the interest; an unconsumed exclusive wakeup goes to those the signal is for without it |
| SignalHandOff.StepKeeps | src/iv_signal.c:141-318 | every step keeps each unhandled signal in good hands: with an exclusive interest, or with everyone who stayed |
| SignalHandOff.ComesToRest | src/iv_signal.c:185-205 | every posted event leads to at most two more steps |
| SignalHandOff.LiveSince | src/iv_signal.c:245-318 | an interest is registered exactly if the last step about it registered it |
| SignalHandOff.ArrivalCounts | src/iv_signal.c:141-168 | a signal counts exactly those registered for its number when it arrives |
| SignalHandOff.HandsOn | src/iv_signal.c:293-318 | an unregistration wakes others exactly if it leaves an exclusive wakeup unconsumed, and then those the signal is for without it |
| SignalHandOff.WokenForASignal | src/iv_signal.c:141-205 | an interest is active only because of a signal of its number that has arrived, or has been handed on, since it last ran |
| SignalHandOff.NoSignalLost | src/iv_signal.c:293-318 | once the woken threads have run, a handler has been called for every signal unless all who were interested when it arrived have unregistered since |
| Deadlines.PollLatch.TimeoutCheck | src/iv_fd.c:165-192 | a count of 5 is a kernel timer armed at the latched deadline and nothing else is, over every sequence of calls, also when the kernel timer turns out to be missing; the count and the deadline evolve as equal requests in a row, which an earlier deadline or none interrupts |
| Deadlines.PollLatch.SetPollTimeout | src/iv_fd_epoll.c:410-436 | arms the timer, or gives up the timer method and arms nothing |
| Deadlines.PollLatch.Poll | src/iv_fd.c:194-206 | the wait ends no later than asked, except exactly when a zero deadline is, or is about to be, latched, and then by one nanosecond, so that no sleeper oversleeps once the clock shows one; the kernel timer relied on, the latch afterwards and the decision to run timers are functions of the latch before; a poll after which timers are not run leaves a timer armed that covers the deadline |
| Deadlines.ZeroIsArmedLate | src/iv_fd_epoll.c:424-426 | the timer is armed for the deadline itself, except for a zero deadline, for which it goes off one nanosecond late |
| Deadlines.FiveRequests | src/iv_fd.c:178-183 | from a new latch five equal requests arm the kernel timer, and the fifth wait is too long exactly for a deadline of zero |
| Deadlines.ArmedAfterFive | src/iv_fd.c:165-192 | over any polls from a new latch, the kernel timer is armed only for a deadline that has been asked for five times in a row |
| Deadlines.StaysArmed | src/iv_fd.c:171-176 | and it stays armed until it is found expired or an earlier deadline is asked for |
| Deadlines.RelativeIsExact | src/iv_private.h:140-167 | the relative time is normalised and is the difference to the deadline, or zero if it has passed |
| Deadlines.MsecRoundsUp | src/iv_private.h:169-185 | milliseconds are rounded up, zero exactly for a deadline that has passed, and cut to one day |
| FdTable.UploadWorks | src/iv_fd_dev_poll.c:125-135 | although /dev/poll adds events to those it watches, the one or two records leave exactly the wanted ones |
| FdTable.FdTable.Notify | src/iv_fd_epoll.c:238-243 | a descriptor is listed exactly when the kernel's view of it is out of date |
| FdTable.FdTable.EpollFlushOne | src/iv_fd_epoll.c:96-124 | every request meets the condition of `EpollCtl` (add what is absent, change or delete what is present), and after success the kernel's view of the descriptor is the wanted one |
| FdTable.FdTable.EpollFlushPending | src/iv_fd_epoll.c:134-144 | the loop ends with an empty list and a kernel that agrees everywhere |
| FdTable.FdTable.DevPollFlushPending | src/iv_fd_dev_poll.c:102-142 | the batched upload reaches the same state and never exceeds 1024 records |
| FdTable.FdTable.FlushPending | src/iv_fd_epoll.c:83-144 | before a poll the kernel watches a descriptor exactly if it has a handler, for input exactly if it has one for input and for output exactly if it has one for output, and nothing that is not registered; epoll reports the object registered under each number |
| FdTable.FdTable.Register | src/iv_fd.c:342-352 | adds the descriptor and defers telling the kernel, exactly if there is something to tell |
| FdTable.FdTable.RegisterTry | src/iv_fd.c:354-385 | a refusal by the kernel leaves everything as it was; after success it watches the bands of the handlers, or both directions until the next flush if there are none, and others as before |
| FdTable.FdTable.Unregister | src/iv_fd.c:387-409 | the descriptor leaves the kernel and the list at once, so that its number can be used again |
| FdTable.FdTable.SetHandlers | src/iv_fd.c:418-458 | only the list changes until the next flush |
| FdLookup.Find | src/iv_fd_dev_poll.c:144-163 | finds the descriptor with the number exactly when it is in the tree |
| FdLookup.DevPollTable.Register | src/iv_fd_dev_poll.c:217-226 | adds exactly this descriptor to the table and its node to the tree, which stays exactly the set of registered descriptors; the insertion cannot fail |
| FdLookup.DevPollTable.RegisterTry | src/iv_fd.c:354-385 | the same on success, and after a refusal the table and the tree are as they were |
| FdLookup.DevPollTable.Unregister | src/iv_fd_dev_poll.c:228-234 | exactly this descriptor leaves the table and the tree, and its number leaves the kernel |
| FdLookup.DevPollTable.EventFor | src/iv_fd_dev_poll.c:196-200 | the kernel watches only registered descriptors, so the check for an unknown one cannot fire |
| PollArrays.NumbersFit | src/iv_fd_poll.c:100-108 | distinct descriptor numbers below n fill at most n places |
| PollArrays.PollSet.RoomForOne | src/iv_fd_poll.c:127-128 | the arrays have room for every registered descriptor |
| PollArrays.PollSet.Notify | src/iv_fd_poll.c:110-151 | the first entries stay exactly the descriptors that want something, with matching back-indices, through additions, changes and swap-removals; each asks for input and output as its descriptor does, and for hang-ups |
| PollArrays.PollSet.WritesInside | src/iv_fd_poll.c:147-150 | the entry written is inside the arrays if and only if the descriptor is in them or wants something |
| PollArrays.PollSet.BeforeTheFirst | src/iv_fd_poll.c:147-150 | the one case: for a registered descriptor without handlers, and for no other, a notification without bands writes the entry before the first |
| PollArrays.PollSet.Unregister | src/iv_fd_poll.c:133-146 | no entry of the descriptor is left |
| Dispatch.Dispatcher.MakeReady | src/iv_fd.c:232-239 | bands found by one poll accumulate and a descriptor is listed once, also the one that an earlier dispatch handled last |
| Dispatch.Dispatcher.CallHandler | src/iv_fd.c:216-226 | only called for a registered descriptor whose band is ready and whose handler is set |
| Dispatch.Dispatcher.Leave | src/iv_fd.c:387-409 | unregistering takes the descriptor, and no other, off the list of ready ones, and ends its handling if it is being handled |
| Dispatch.Dispatcher.Perform | src/iv_fd.c:305-458 | a call made from a handler, be it of a descriptor or of an event run within the poll (`src/iv_fd_epoll.c:226-227`), registers, changes or unregisters what it names and nothing else; the bands of those that wait or are being handled stay as found |
| Dispatch.Dispatcher.Serve | src/iv_fd.c:214-226 | calls for one descriptor come up in the order error, input, output, and each is made exactly if it is due when it comes up, after whatever earlier handlers have done |
| Dispatch.Dispatcher.Run | src/iv_fd.c:208-230 | from any state between two dispatches: the loop ends, and the calls made and the registrations and handlers afterwards are those of the specification `CallsMade` and `AfterOps`; so no handler is called twice, none for a band that was not ready, and a descriptor that handlers leave alone gets exactly its due calls and keeps what it had |
| Dispatch.HandlersNow | src/iv_fd.c:411-458 | as long as a descriptor stays registered it has the handlers it was given last |
| Dispatch.RegisteredNow | src/iv_fd.c:305-409 | a descriptor is registered exactly if the last call to register or unregister it registers it |
| Dispatch.HandlersSet | src/iv_fd.c:411-458 | whatever has been registered and unregistered, the handlers are those last set, if the descriptor was registered then |
| Dispatch.TurnAt | src/iv_fd.c:208-227 | calls come up descriptor by descriptor in the order of the list, errors first, then input, then output |
| Dispatch.CallsInTurn | src/iv_fd.c:208-227 | and the calls that are made are made in that order |
| Dispatch.CallMadeExactly | src/iv_fd.c:208-230 | a call is made if and only if its band was found ready and no handler called before it has unregistered the descriptor or taken that handler away |
| Dispatch.LeftAloneCalls | src/iv_fd.c:216-226 | whatever handlers do to other descriptors, one that they leave alone gets the calls it is due, in the order error, input, output |
| Pump.Cache.Get | src/iv_fd_pump.c:225-236 | the first of the kept buffers, or a new one; a pipe from the cache is empty |
| Pump.Cache.Put | src/iv_fd_pump.c:156-172 | at most 20 buffers are kept, and never a pipe with bytes in it |
| Pump.MoveDown | src/iv_fd_pump.c:354-355 | the bytes not yet written move to the front, also when source and target overlap |
| Pump.Pump.Read | src/iv_fd_pump.c:292-300 | is never asked for zero bytes, so that an answer of 0 means the end of the input |
| Pump.Pump.TryInput | src/iv_fd_pump.c:279-332 | takes as much data as there is room for, in order, notices the end, and fails exactly for a broken input or without a buffer |
| Pump.Pump.TryOutput | src/iv_fd_pump.c:334-364 | what is written is the front of what is held, as much as the system takes; the output is shut down only when all has been written; fails exactly for a failed write |
| Pump.Pump.Step | src/iv_fd_pump.c:366-407 | bytes written are a prefix of bytes read and the rest is held; input is taken exactly when it is wanted and as much as there is room for, output as much as the system takes; input is asked for exactly until its end and while there is room, output exactly while something is held; 0 exactly when all input was written and the output was shut down once if asked for, -1 exactly for a failure; a buffer is held exactly while something is in it, and goes back to the cache |
| Pump.Pump.Relay | src/iv_fd_pump.c:366-407 | over a whole run, for every sequence of kernel answers: what is written is always the beginning of the input stream; done means all of it; and if nothing goes wrong, the pump is done after at most 2n+2 calls that let something through, for n bytes, however many others come in between |
| Pump.StepOne | src/iv_fd_pump.c:156-236 | pumps that share a cache never hold the same buffer, and a call of one leaves what the others hold alone; what it gets hold of comes from the cache or is new |
| Tasks.TaskRunner.RegisterTask | src/iv_task.c:62-75 | joins the running pass unless the task has taken part in it |
| Tasks.TaskRunner.UnregisterTask | src/iv_task.c:77-87 | leaves whichever list it is on |
| Tasks.TaskRunner.Perform | src/iv_task.c:53-87 | registering, unregistering and initialising have the effect of `AfterOp` on the lists and epochs, and make no task eligible for the pass again, wherever the 32-bit epoch stands |
| Tasks.TaskRunner.RunTasks | src/iv_task.c:30-51 | the pass ends and runs the tasks, and leaves those pending, of the specification `RanOf` and `PassAfter`; each task runs at most once, none that was neither pending nor registered by a handler, every pending one unless a handler unregisters it, and one that a handler registers runs later in the pass or is pending after it |
| Tasks.RanOnce | src/iv_task.c:30-75 | wherever the 32-bit epoch stands, a task that has run does not come on the list of the pass again, so none runs twice |
| Tasks.PendingRuns | src/iv_task.c:30-51 | a task on the list runs or stays on it unless a handler that has run unregisters it |
| Tasks.RegisteredRuns | src/iv_task.c:62-75 | a task that a handler registers runs later or stays registered unless a handler that has run unregisters it |
| Tasks.JoinsPass | src/iv_task.c:62-75 | one that has not taken part in the pass runs in it |
| Tasks.UnregisteredStays | src/iv_task.c:77-87 | a task that a handler unregisters, and that is not registered later, does not run any more in the pass and is not pending after it |
| Tasks.InitialisedWaits | src/iv_task.c:53-60 | a task that a handler initialises does not run any more in the pass |
| Tasks.RunsInOrder | src/iv_task.c:30-51 | tasks run in the order in which they were pending, unless they are unregistered |
| Calls.Selected | src/iv_main_posix.c:93-112 | the calls of a handler about timers and those about tasks are all its calls, each kind in the order in which they were made |
| Calls.ActsSeparately | src/iv_main_posix.c:93-112 | a handler that mixes calls has the effect on timers of its calls about timers, and on tasks of those about tasks |
| MainLoop.Loop.Deadline | src/iv_main_posix.c:104-110 | zero while tasks are pending, else the first expiry time |
| MainLoop.Loop.Wait | src/iv_main_posix.c:104-112 | the loop wakes at once while tasks are pending and otherwise no later than any timer expires, through the latch; if a timer is due when the wait ends, the wait does not block and timers are run |
| MainLoop.Loop.RunTimers | src/iv_timer.c:86-126 | with handlers that act on timers and tasks: the handlers called and the timers left are those of `FireOrder` and `AfterPass` on their calls about timers, and the tasks are what their calls about tasks make of them |
| MainLoop.Loop.RunTasks | src/iv_task.c:30-51 | the same for the pass over tasks, with `RanOf`, `PassAfter` and the calls about timers |
| MainLoop.PassOverlooksNone | src/iv_main_posix.c:93-99 | a pass over timers misses no timer that is due and that the handlers of descriptors have left alone |
| MainLoop.WaitsInTime | src/iv_main_posix.c:93-112 | after a wait through the latch, in any state of it, no timer is late, whether or not timers are run |
| MainLoop.PendingTasksRun | src/iv_main_posix.c:97-99 | every task pending when a turn begins runs in it unless a handler of the turn unregisters it |
| MainLoop.CancelledTimerNotRun | src/iv_main_posix.c:93-99 | a timer that a handler of a descriptor unregisters, and that is not registered again, is not run in the turn |
| MainLoop.CancelledTaskNotRun | src/iv_main_posix.c:93-99 | a task that a handler of a descriptor or a timer unregisters, and that is not registered again, is not run in the turn and is not pending after it |
| MainLoop.Loop.OneTurn | src/iv_main_posix.c:93-113 | the deadline, the kernel timer, the latch, the timers due and fired, the tasks run and all that is registered afterwards are what the state before and the handlers of the turn determine; every timer registered when the wait begins and due when it ends is among the due ones, unless a handler in between has mentioned it: skipping a pass strands no timer |
| MainLoop.Loop.Leaves | src/iv_main_posix.c:101-102 | the loop is left exactly when told so, or when no timer is registered, no task is pending and there is no other object |
| MainLoop.Loop.Run | src/iv_main_posix.c:85-114 | for any number of turns, from any state of the latch, with handlers that act on timers and tasks: each turn waits as the latch determines and does its work on the timers, tasks and latch that the one before has left; no timer is late and no pending task is postponed in any; no turn begins after `iv_quit` or with nothing to wait for, and the loop is left exactly when one of these is the case |
| ListRing.Empty | src/include/iv_list.h:80-83 | a ring is empty exactly when its head points to itself |
| ListRing.Add | src/include/iv_list.h:47-54 | four pointer writes put the link first |
| ListRing.AddTail | src/include/iv_list.h:56-63 | four pointer writes put the link last |
| ListRing.Del | src/include/iv_list.h:65-71 | takes a link out of any place of a ring, or leaves one that is a ring of its own |
| ListRing.DelInit | src/include/iv_list.h:73-78 | the same, and the link is an empty ring afterwards |
| ListRing.Splice | src/include/iv_list.h:85-97 | puts all elements of a ring between two neighbours of another |
| ListRing.SpliceFront | src/include/iv_list.h:99-113 | prepends the elements of one list to another |
| ListRing.SpliceBack | src/include/iv_list.h:115-129 | appends the elements of one list to another |
| ListRing.Steal | src/iv_private.h:112-126 | moves all elements to a new head, also when there are none, and empties the old one |

## Left out

- System calls and their retry loops: kernels appear as ghost maps or as answers chosen freely.
- Allocation failure in the timer queue (`src/iv_timer.c:183-184`), which is fatal.
- WorkPool.EverythingCompletes: counts calls of the user, continuations and idle timeouts as events from outside, so it says what happens between them and assumes no fairness.
- WorkPool.StepKeeps: does not model work submitted without a pool (`src/iv_work.c:400-440`), which runs in the submitting thread, nor the stop callback of threads, which is called with the lock held.
- Events.StepKeeps: the channel can always be turned on; a failure of `iv_event_raw_register` (`src/iv_event.c:109-113`) is not modelled.
- SignalHandOff.NoSignalLost: is about process-wide interests; an unconsumed wakeup of a thread's own interest is handed on within the tree of that thread only.
- Signals.SignalTable.Register: does not model forking, process ownership and signal masks (`src/iv_signal.c:68-89`, `src/iv_signal.c:207-231`).
- FdTable.FdTable.EpollFlushOne: outside `iv_fd_register_try` the kernel accepts legal requests; a refusal there is fatal.
- FdTable.FdTable.SetHandlers: sets the three handlers of a descriptor together; the three functions of the source set one each.
- Pump.Pump.Step: after a return of -1 only the cache is promised to be in order; the pump is to be destroyed.
- MainLoop.Loop.Run: objects other than timers and tasks are a number that stays the same.
- Tasks.TaskRunner.RunTasks: a handler that runs a nested main loop is not modelled.
- The kqueue and event port methods, `src/iv_wait.c`, `src/iv_popen.c`, `src/iv_inotify.c`, thread creation, thread-local storage and the clock sources: wrappers over the system.
- The count of objects (`numobjs`) of descriptors and events; timers and tasks keep theirs.
- Win32 code, `contrib/`, and the choice of a poll method.
