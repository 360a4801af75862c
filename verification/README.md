# A model of the NtyCo coroutine runtime

NtyCo runs coroutines in one thread. Its scheduler keeps two red-black trees (sleepers by deadline,
waiters by file descriptor) and a tail queue of coroutines that are ready; all coroutines execute on
one stack, which is copied out at every yield and back in at every resume. This project models those
parts, the splay tree and the tail queue of the same headers, the partial-write loops of the socket
layer, and three pieces of the sample servers, and proves what they promise.

`dafny verify dfyconfig.toml` checks everything.

## How it is built

**Red-black tree** (`RBShape`, `RBSearch`, `RBUnlink`, `RBNode`, `RBTree`). Nodes are objects with left,
right, parent, colour and key, and the operations rewrite these fields in place, as the macros do.
A tree value with a focus and the path from the focus up to the root says what the pointers represent.
`RBShape` states the invariants of both fix-up loops on such a value (insertion: at most one red-red
edge, at the focus; removal: one black too few, at the focus) and one lemma per branch; `RBTree` proves
that the pointer code takes exactly those steps. Branches that are mirror images are one method with a
side as its argument.

**Scheduler** (`Scheduler`, `SchedulerSafety`, `SchedulerRuns`, `SchedulerPhases`). A step machine over the ready queue, both
trees as maps, the current coroutine, the epoll interest set, the pending events and the clock. A body is
an arbitrary sequence of: create, sleep(0), timed sleep, yield, renice, a poll of one descriptor, return.
Following a dangling or null pointer and failing an assertion are explicit faults. `SchedulerSafety`
has the invariant and a lemma per step, `SchedulerRuns` the theorems about whole runs, `SchedulerPhases` those about
the order of things: phases, queue, events, turns, and the end of a run.

**Structures under the scheduler** (`RBIndex`, `Schedule`, `ScheduleRun`). Coroutine objects, the two `RBTree`
objects and a `TailQueue.Head`, updated in place. `Schedule.Represents(s)` says that they are those of the step machine
in state `s`. `ScheduleRun` has a method for every function of the scheduler and for every step of a body, each proved
to lead from one represented state to the next; `ScheduleRun.RunAll` drives a new scheduler through any run of
disciplined clients, so the theorems of `SchedulerRuns` hold of the pointer structures.

**Shared stack** (`SharedStack`). The machine with one stack simulates a machine in which every coroutine
has a stack of its own; the two copy functions are methods on arrays.

**Splay tree** (`SplayShape`, `SplayTree`), **tail queue** (`TailQueue`), **write loops** (`SendLoop`),
**epoll timeout** (`EpollTimeout`), **line reader** (`GetLine`), **accept lock and connection counters**
(`AcceptLock`), **compare-and-swap counter** (`ShmCounter`). The last two are step machines for any number of
processes and any interleaving; the others are methods on objects and arrays.

## What the code asks of its callers

These are hypotheses of the model, because the code relies on them:

- A timed sleep does not yield: `sched_sleepdown` ends in a `//yield` comment (core/nty_schedule.c:108).
  The caller has to yield next, and must not return, requeue itself or poll while it is linked in the sleep
  tree. `Scheduler.Disciplined` states this together with "one waiter per descriptor";
  `SchedulerRuns.DisciplineIsExact` proves that it is exactly what the invariant needs, and
  `SchedulerRuns.ReturnWhileAsleepCrashes` is a run in which breaking it makes the scheduler use a freed
  coroutine.
- WAIT_READ and WAIT_WRITE are ORed into the status without shifting (core/nty_schedule.c:160-162), so a
  reader sets no bit and a writer sets bit 0. The model uses the bits the code sets.
- `desched_wait` clears the status before `desched_sleepdown` tests it (core/nty_schedule.c:144-145), so it
  never touches the sleep tree. Polls are those with one descriptor and timeout 1, the only ones in use,
  which set no timer (core/nty_schedule.c:175).
- Epoll is consulted only when the ready queue is empty (core/nty_schedule.c:289-298); nothing is claimed
  about how soon a waiter runs.
- The clock does not run backwards, 64-bit microseconds do not overflow, and `epoll_ctl` and allocations
  succeed. Coroutine ids are not claimed to be unique: the model identifies coroutines by object.
- The stack between `_save_stack` and `swapcontext` is not changed above the saved stack pointer, and the
  local variable of `_save_stack` lies below that pointer.
- `accept_request` tests an unsigned `numchars` for minus one (sample/ntyco_httpd.c:319-345); that branch is
  never reached, and a failed receive is served like data. The model follows the code.
- The number of processors is at most TOTALFDS (sample/ntyco_httpd.c:80, 187).
- One kernel call takes at most 0x7ffff000 bytes, and no buffer is larger than PTRDIFF_MAX. The write loops count
  what they sent in an int (core/nty_socket.c:232, 510), which wraps around: `SendLoop` models that and proves that the
  return accounts for the bytes taken if and only if these are at most INT_MAX.

## Model

| member | source | states |
|---|---|---|
| `RBTree.RBTree.constructor` | core/nty_tree.h:285-287 | A new tree is valid and empty. |
| `RBTree.RBTree.Rotate` | core/nty_tree.h:325-364 | Either rotation turns the pointers of a(i)(b(j)c) into those of (a(i)b)(j)c at any place of a tree, parent links and root included, with no node gained or lost. |
| `RBTree.RBTree.RotateBack` | core/nty_tree.h:325-364 | The opposite rotation is the inverse. |
| `RBShape.NewLeaf` | core/nty_tree.h:595-604 | A red leaf in any gap of a red-black tree establishes the loop invariant of insertion. |
| `RBShape.InsertUncleRed` | core/nty_tree.h:397-403 | Recolouring moves the possible violation two levels up and keeps the items. |
| `RBShape.InsertInner` | core/nty_tree.h:404-409 | The inner rotation keeps the invariant and the items. |
| `RBShape.InsertOuter` | core/nty_tree.h:410-411 | The outer rotation ends the violation and keeps the items. |
| `RBShape.InsertDone` | core/nty_tree.h:393-430 | When the loop stops, blackening the root gives a red-black tree with the same items; below the root it changes nothing. |
| `RBShape.Sibling` | core/nty_tree.h:440-449 | The sibling read by the removal loop is never null, and a red one has two black children. |
| `RBShape.RemoveSiblingRed` | core/nty_tree.h:441-445 | Rotating a red sibling keeps the deficit at the focus and the items. |
| `RBShape.RemoveRecolor` | core/nty_tree.h:446-452 | Reddening the sibling moves the deficit one level up. |
| `RBShape.RemoveNear` | core/nty_tree.h:454-463 | Rotating at the sibling moves a near red nephew to the far side. |
| `RBShape.RemoveFar` | core/nty_tree.h:464-470 | The last rotation gives a red-black tree with the same items. |
| `RBShape.RemoveDone` | core/nty_tree.h:437-438 | When the loop stops at a red node or at the root, blackening it gives a red-black tree with the same items. |
| `RBTree.RBTree.InsertStep` | core/nty_tree.h:395-428 | Each pass keeps the invariant, the items and the nodes, meets no null grandparent and moves strictly towards the root. |
| `RBTree.RBTree.InsertColor` | core/nty_tree.h:391-431 | From the loop invariant to a valid tree with the same in-order sequence of node objects. |
| `RBTree.RBTree.Insert` | core/nty_tree.h:579-606 | Either the node with an equal key, which may be the given one, is returned and no field changes, or the tree is valid and its in-order sequence gains exactly the new node at its sorted place. |
| `RBTree.RBTree.Search` | core/nty_tree.h:583-594 | The descent of an insertion ends at the node with the key or at the gap where it belongs, after at most 2*log2(n+1) comparisons. |
| `RBTree.RBTree.RemoveStep` | core/nty_tree.h:439-505 | Each pass keeps the deficit invariant and comes closer to the root or a red focus, or ends with a red-black tree. |
| `RBTree.RBTree.RemoveColor` | core/nty_tree.h:433-509 | From a black deficit at the focus to a valid tree with the same in-order sequence. |
| `RBUnlink.TakeOutRules` | core/nty_tree.h:560-574 | Replacing a red node by its only child keeps all rules; replacing a black one leaves exactly a deficit there. |
| `RBUnlink.SuccessorItems` | core/nty_tree.h:520-551 | Putting the successor in the place of the node removes just that node from the sequence. |
| `RBUnlink.SuccessorRules` | core/nty_tree.h:520-574 | The colour taken over leaves the rules intact, or a deficit where the successor was. |
| `RBTree.RBTree.Exchange` | core/nty_tree.h:525-551 | The pointer surgery that relinks the successor, also when it is the right child of the removed node. |
| `RBTree.RBTree.Remove` | core/nty_tree.h:511-576 | Removing any member leaves a valid tree whose in-order sequence is the old one without that very object; all other nodes keep identity and key. |
| `RBTree.RBTree.Find` | core/nty_tree.h:608-623 | Null exactly if no node has the key, otherwise the node with it, after at most 2*log2(n+1) comparisons. |
| `RBSearch.HeightBound` | core/nty_tree.h:608-623 | The height of a red-black tree with n nodes is at most 2*log2(n+1). |
| `RBTree.RBTree.NFind` | core/nty_tree.h:625-644 | The node with the least key not below the probe, or null, after at most 2*log2(n+1) comparisons. |
| `RBTree.RBTree.MinMax` | core/nty_tree.h:690-703 | The first or last node in order, or null for an empty tree, after at most 2*log2(n+1) steps. |
| `RBTree.RBTree.Next` | core/nty_tree.h:646-666 | From the i-th node to the (i+1)-th, or null after the last; with Prev, an inverse pair. |
| `RBTree.RBTree.Prev` | core/nty_tree.h:668-688 | From the i-th node to the (i-1)-th, or null before the first. |
| `RBTree.RBTree.Foreach` | core/nty_tree.h:717-720 | Visits every node once, in ascending order. |
| `RBIndex.IndexInsert` | core/nty_tree.h:579-606 | As a map from keys to coroutines, an insertion adds one entry. |
| `RBIndex.IndexMinus` | core/nty_tree.h:511-576 | As a map, a removal drops one entry. |
| `Schedule.Schedule.constructor` | core/nty_schedule.c:201-245 | A new scheduler represents the initial state of the step machine. |
| `Schedule.Schedule.RemoveSleeper` | core/nty_schedule.c:90-93 | Unlinking a sleeper removes its key from the represented sleep tree and changes nothing else. |
| `Schedule.Schedule.InsertSleeper` | core/nty_schedule.c:98-98 | Linking a sleeper adds its key, or leaves everything alone if the key is taken. |
| `Schedule.Schedule.RemoveWaiter` | core/nty_schedule.c:140-143 | The same for the wait tree. |
| `Schedule.Schedule.InsertWaiter` | core/nty_schedule.c:168-172 | The same for the wait tree. |
| `Schedule.Schedule.Enqueue` | core/nty_coroutine.c:346-346 | Appends to the represented ready queue. |
| `Schedule.Schedule.Dequeue` | core/nty_schedule.c:331-332 | Takes the head of the represented ready queue. |
| `Schedule.Schedule.Allocate` | core/nty_coroutine.c:314-344 | A fresh object joins the live coroutines and is counted. |
| `Schedule.Schedule.Release` | core/nty_coroutine.c:175-188 | A coroutine that is linked nowhere leaves the live ones and is discounted. |
| `ScheduleRun.SchedSleepdown` | core/nty_schedule.c:87-109 | Drops whoever hangs under the caller's stale key and links the caller under the least unused deadline, exactly as the step machine does; callable any number of times in a row. |
| `ScheduleRun.Collide` | core/nty_schedule.c:97-106 | The collision loop ends, and has found every deadline before the one it settles on taken. |
| `ScheduleRun.Expired` | core/nty_schedule.c:248-259 | Takes out the sleeper with the least deadline if and only if that has passed. |
| `ScheduleRun.TimeoutUsecs` | core/nty_schedule.c:268-281 | Time to the earliest deadline, 0 if it has passed, 3 seconds without sleepers. |
| `ScheduleRun.SearchWait` | core/nty_schedule.c:121-131 | Finds the waiter of the descriptor, clears its status and changes no container. |
| `ScheduleRun.DeschedWait` | core/nty_schedule.c:133-148 | Removes exactly the descriptor's waiter, whose node is then free to be linked again; the sleep tree is not touched. |
| `ScheduleRun.SchedWait` | core/nty_schedule.c:150-179 | Links the caller under the descriptor, or fails one of the three assertions, and says which and when. |
| `ScheduleRun.SwitchTo` | core/nty_coroutine.c:226-237 | Resuming is the machine's: a new coroutine starts, any other continues, and it becomes the current one. |
| `ScheduleRun.SwitchBack` | core/nty_coroutine.c:214-255 | Yielding is the machine's: the current coroutine is cleared, an exited and detached one freed, and the round ends after its last coroutine. |
| `ScheduleRun.DoCreate` | core/nty_coroutine.c:299-349 | Creation is the machine's step; all other objects stay. |
| `ScheduleRun.DoLoop` | core/nty_schedule.c:261-266 | The run loop is left exactly when both trees and the queue are empty. |
| `ScheduleRun.DoExpire` | core/nty_schedule.c:323-329 | One test for an expired sleeper, with its resume or the start of a round. |
| `ScheduleRun.DoReady` | core/nty_schedule.c:330-341 | One pass over the ready queue, with both branches. |
| `ScheduleRun.DoPoll` | core/nty_schedule.c:283-314 | Epoll is asked exactly when no deadline has passed and nothing is ready. |
| `ScheduleRun.DoDispatch` | core/nty_schedule.c:345-362 | One event is handled: its waiter is found, marked and resumed. |
| `ScheduleRun.DoSleepZero` | core/nty_coroutine.c:271-273 | sleep(0) requeues and yields. |
| `ScheduleRun.DoSleepTimed` | core/nty_coroutine.c:274-276 | A timed sleep arms the caller and goes on. |
| `ScheduleRun.DoRenice` | core/nty_coroutine.c:258-265 | Every fifth call requeues and yields. |
| `ScheduleRun.DoReturn` | core/nty_coroutine.c:72-77 | A body that returns is freed. |
| `ScheduleRun.DoPollFd` | core/nty_socket.c:93-106 | Registers, waits and yields, or reports the assertion that fails. |
| `ScheduleRun.DoPollReturn` | core/nty_socket.c:108-118 | Deregisters and leaves the wait tree. |
| `ScheduleRun.StepOne` | core/nty_schedule.c:316-368 | Every step of disciplined clients takes the structures from one represented state to the machine's next. |
| `ScheduleRun.RunAll` | core/nty_schedule.c:316-368 | For every run of disciplined clients, the structures end up representing its last state, which is reachable: all theorems about runs hold of them. |
| `Scheduler.LeastFree` | core/nty_schedule.c:95-106 | The deadline is unused, all before it are taken, and the added delay is at most one microsecond per sleeper. |
| `SchedulerSafety.StepInv` | core/nty_schedule.c:316-368 | A disciplined step meets no null or freed coroutine, fails no assertion and keeps the invariant. |
| `SchedulerSafety.StepBreaks` | core/nty_schedule.c:87-109 | Any undisciplined step faults or breaks the invariant. |
| `SchedulerRuns.DisciplineIsExact` | core/nty_coroutine.c:268-277 | In every reachable state, a step is safe if and only if it is disciplined. |
| `SchedulerRuns.ReturnWhileAsleepCrashes` | core/nty_coroutine.c:72-77 | For every duration, returning after a timed sleep without yielding leads to a use after free once the deadline has passed. |
| `SchedulerRuns.OnePlace` | core/nty_coroutine.c:214-255 | In every reachable state each live coroutine is in exactly one of: current, ready queue, sleep tree, wait tree; all others are in none. |
| `SchedulerRuns.LinkedOnce` | core/nty_schedule.c:328-362 | No container links a coroutine twice. |
| `SchedulerRuns.StepKnown` | core/nty_coroutine.c:314-346 | No step loses a coroutine: what is live or freed afterwards is what was before, and what the step created. |
| `SchedulerRuns.FreedOnce` | core/nty_coroutine.c:175-188 | The spawned count is the number of live coroutines; a coroutine is live or freed if and only if it was created in the run; nothing is freed twice, while alive, or while linked. |
| `SchedulerRuns.AllFreedAtExit` | core/nty_schedule.c:321-321 | When the run loop exits, every coroutine created in the run has been freed exactly once, and nothing else has. |
| `SchedulerRuns.ExitsWhenEmpty` | core/nty_schedule.c:261-266 | The run loop exits if and only if the spawned count is zero. |
| `SchedulerRuns.StaleKeys` | core/nty_schedule.c:87-109 | Whole-run invariant: a coroutine outside the sleep tree has sleep_usecs strictly below every key in it. |
| `SchedulerRuns.SleepMovesOnlyCaller` | core/nty_schedule.c:87-109 | A timed sleep never evicts or moves another coroutine. |
| `SchedulerRuns.LeastDeadline` | core/nty_schedule.c:95-106 | The deadline chosen is the least one not used by another sleeper, at most one microsecond late per sleeper. |
| `SchedulerRuns.WakesInOrder` | core/nty_schedule.c:248-259 | Over a whole run woken deadlines strictly increase, none is woken early, and all are below those still waiting. |
| `SchedulerRuns.ExpiryComplete` | core/nty_schedule.c:323-327 | The expiry phase ends exactly when every remaining deadline is later than the clock. |
| `SchedulerRuns.FifoRound` | core/nty_schedule.c:328-341 | A ready phase ends only after running exactly the coroutines queued at its start, each once and in order; the end-of-file branch is never taken. |
| `SchedulerRuns.EventsFindWaiters` | core/nty_schedule.c:343-362 | The interest set equals the wait tree's keys; every pending event has a live waiter for its descriptor, not yet resumed in this batch. |
| `SchedulerPhases.MinTimeoutIs` | core/nty_schedule.c:268-281 | With sleepers, the timeout is zero if and only if a deadline has passed, and otherwise now plus the timeout is the earliest deadline. |
| `SchedulerPhases.AsksEpoll` | core/nty_schedule.c:283-314 | Epoll is asked, and its whole batch handled, if and only if nothing is ready and every deadline is still to come; otherwise the loop starts again, with nothing else changed. |
| `SchedulerPhases.PhaseOrder` | core/nty_schedule.c:321-363 | In every reachable state the phases follow each other as in the source: expiry begins only after a failed exit test, the run ends only with a successful one, a round ends with all its coroutines run, a batch with none of its events left. |
| `SchedulerPhases.EmptyEnds` | core/nty_schedule.c:321-363 | Once no coroutine is left, wherever in the loop, the run goes on to its end and takes at most five steps. |
| `SchedulerPhases.EventServed` | core/nty_schedule.c:345-359 | The last pending event resumes its waiter, marked with end of file if and only if the event says so. |
| `SchedulerPhases.BatchServed` | core/nty_schedule.c:345-362 | Over a whole batch, whatever the resumed bodies do, exactly the waiters its events had at the start are resumed, each once, from the last event to the first. |
| `SchedulerPhases.QueueFifo` | core/nty_schedule.c:330-341 | Over any run the ready queue is first in, first out: what was queued and what joined is what was started, in that order, and what is still queued. |
| `SchedulerPhases.ReniceEveryFifth` | core/nty_coroutine.c:258-265 | A coroutine begins every turn with a count of zero, only its own calls count, and just the fifth within a turn switches away. |
| `SchedulerPhases.WaitBits` | core/nty_schedule.c:152-166 | A poll for input leaves the status as it is, one for output adds just bit 0, and this bit alone makes a further poll fail. |
| `SchedulerPhases.ZeroSleepLinksNobody` | core/nty_schedule.c:90-97 | A request of zero links nobody and unlinks only its caller. |
| `SchedulerSafety.PollFdInv` | core/nty_socket.c:93-106 | Registering, waiting and yielding never trips the already-in-state assertion and keeps the invariant. |
| `SchedulerSafety.PollReturnInv` | core/nty_socket.c:108-118 | After its yield a poll finds itself in the wait tree and leaves both it and the interest set. |
| `SharedStack.SaveStack` | core/nty_coroutine.c:54-65 | The array code is the abstract save; the buffer is always at least stack_size long, whether or not it was reallocated. |
| `SharedStack.SaveGrows` | core/nty_coroutine.c:59-63 | The buffer is replaced only when stack_size was too small, and then by one of just the size needed. |
| `SharedStack.LoadStack` | core/nty_coroutine.c:67-70 | The array code is the abstract load. |
| `SharedStack.SaveKeeps` | core/nty_coroutine.c:54-65 | What is saved holds every byte from the stack pointer to the top. |
| `SharedStack.LoadRestores` | core/nty_coroutine.c:67-70 | Loading puts these bytes back at their addresses. |
| `SharedStack.StepSimulates` | core/nty_coroutine.c:214-255 | Every step on the one stack is the same step with private stacks. |
| `SharedStack.SharedStackRefinesPrivate` | core/nty_coroutine.c:214-255 | After any run, a resumed coroutine finds what it would find on a stack of its own, and buffers cover stack_size. |
| `SharedStack.ResumeSeesLastYield` | core/nty_coroutine.c:214-255 | Whatever ran in between, a resumed coroutine has its old stack pointer and the same bytes at the same addresses above it. |
| `SplayTree.SplayTree.Spin` | core/nty_tree.h:73-83 | A rotation re-links the same nodes into the rotated tree. |
| `SplayTree.SplayTree.Append` | core/nty_tree.h:85-95 | The root becomes the new tail of an assembly, and the search goes on in its child. |
| `SplayTree.SplayTree.Assemble` | core/nty_tree.h:97-102 | The two assemblies and the rest become one valid tree. |
| `SplayShape.AssembledList` | core/nty_tree.h:97-102 | Assembling keeps the in-order sequence. |
| `SplayTree.SplayTree.Splay` | core/nty_tree.h:189-221 | Keeps the in-order sequence and the nodes, and brings up the sought key or, if absent, its predecessor or successor. |
| `SplayTree.SplayTree.Find` | core/nty_tree.h:112-121 | Null exactly if no node has the key; contents unchanged. |
| `SplayTree.SplayTree.Insert` | core/nty_tree.h:146-167 | Set insertion: an equal key, possibly that of the node itself, changes no contents, otherwise the node goes to its sorted place. |
| `SplayTree.SplayTree.Remove` | core/nty_tree.h:169-187 | Set deletion: succeeds if and only if the key is present, and takes out just that node. |
| `SplayTree.SplayTree.MinMax` | core/nty_tree.h:223-254 | Brings the least or greatest node to the root and keeps the sequence. |
| `SplayTree.SplayTree.Next` | core/nty_tree.h:123-134 | The next node in order, or null. |
| `TailQueue.Head.constructor` | core/nty_queue.h:486-490 | A new queue is valid and empty. |
| `TailQueue.Head.Init` | core/nty_queue.h:486-490 | Empties a queue. |
| `TailQueue.Head.Empty` | core/nty_queue.h:462-462 | True exactly for the empty sequence. |
| `TailQueue.Head.Last` | core/nty_queue.h:540-541 | The layout pun yields the last element, or null. |
| `TailQueue.Head.Prev` | core/nty_queue.h:545-546 | The layout pun yields the element before, or null for the first. |
| `TailQueue.Head.InsertHead` | core/nty_queue.h:517-528 | Prepends. |
| `TailQueue.Head.InsertTail` | core/nty_queue.h:530-538 | Appends. |
| `TailQueue.Head.InsertAfter` | core/nty_queue.h:492-505 | Inserts right behind the given element. |
| `TailQueue.Head.InsertBefore` | core/nty_queue.h:507-515 | Inserts right before the given element. |
| `TailQueue.Head.Remove` | core/nty_queue.h:548-562 | Removes just the given element. |
| `TailQueue.Head.Concat` | core/nty_queue.h:451-460 | Appends one queue to the other and empties it. |
| `TailQueue.Head.Swap` | core/nty_queue.h:564-579 | Exchanges the contents of two queues. |
| `TailQueue.LinkedConcat` | core/nty_queue.h:451-460 | Two stretches of links are one stretch if and only if they meet in both directions. |
| `EpollTimeout.TimeoutIs` | core/nty_schedule.c:289-295 | The millisecond argument in closed form: whole milliseconds below a second, whole seconds from there on. |
| `EpollTimeout.TimespecIs` | core/nty_schedule.c:290-295 | The timespec is proper; below a second it is the gap, from there on the gap without its milliseconds beyond the second. |
| `EpollTimeout.NeverLate` | core/nty_epoll.c:54-57 | A wait with sleepers never ends past the earliest deadline; it ends less than 1 ms before it if that is below a second away, less than a second before it otherwise. |
| `EpollTimeout.DefaultWait` | core/nty_schedule.c:268-273 | Without sleepers a wait lasts three seconds. |
| `EpollTimeout.FitsInt` | core/nty_epoll.c:54-57 | The argument fits an int if and only if the gap is below 2147484 seconds. |
| `SendLoop.Send` | core/nty_socket.c:500-532 | For any kernel answers and any buffer: the loop calls again if and only if bytes are left, the count has not wrapped, and the last call took something or was a first failure; the first bytes are taken in order and once; the return accounts for them if and only if they are at most INT_MAX, and is negative otherwise; it is short exactly when the last answer was not positive. |
| `SendLoop.LoopOnce` | core/nty_socket.c:516-530 | The answers decide when the loop ends: no whole loop continues another. |
| `SendLoop.NtySend` | core/nty_socket.c:230-255 | The same loop over the returns of `send`, each with its own answers from the kernel and one wait between any two of these; a positive return is the bytes taken, in order and once, and is short only after two refusals in a row. Buffers of at most INT_MAX bytes are always accounted for, longer ones never if the kernel takes something at every call. |
| `SendLoop.GivesUp` | core/nty_socket.c:230-255 | A return that is not positive comes from a zero as first or second answer, or after two failures and one or two further refusals; without a scheduler, from a zero or from one failure and one further refusal. |
| `GetLine.FinishReturn` | sample/nty_http_server.c:407-415 | After a carriage return the result is a line feed, and a line feed that follows is consumed. |
| `GetLine.GetLine` | sample/nty_http_server.c:394-425 | The buffer holds the line that the specification reads, with its terminator inside the given size, and bytes behind it are untouched. |
| `GetLine.ReadNormal` | sample/nty_http_server.c:394-425 | A line is a prefix of the normalised stream, and the rest normalises to what remains. |
| `GetLine.ReadShape` | sample/nty_http_server.c:394-425 | A line feed comes only last, a carriage return never, and a line ends early only at a line feed, a failure or the end. |
| `GetLine.NeverSplit` | sample/nty_http_server.c:407-415 | A call never ends between a carriage return and its line feed, and consumes something if it can. |
| `GetLine.LinesConcatenate` | sample/nty_http_server.c:394-425 | For any sequence of sizes, the results one after the other are the start of the normalised stream. |
| `GetLine.LinesComplete` | sample/nty_http_server.c:394-425 | With sizes of at least 2, enough calls give the whole stream with each CR, LF or CRLF as one LF. |
| `GetLine.NormaliseIdempotent` | sample/nty_http_server.c:394-425 | Normalising a second time changes nothing. |
| `AcceptLock.ReachableInv` | sample/ntyco_httpd.c:287-346 | In every reachable state the lock word counts the processes inside and every slot its open connections. |
| `AcceptLock.MutualExclusion` | sample/ntyco_httpd.c:429-435 | At most one process is between lock and unlock, also while its accept waits, and the lock word says whether one is. |
| `AcceptLock.LockAndUnlock` | sample/ntyco_httpd.c:287-297 | `lock` succeeds if and only if nobody is inside; `unlock` only ever frees the caller's own lock. |
| `AcceptLock.SlotCounts` | sample/ntyco_httpd.c:186-193 | Each slot is the number of open connections of all processes that share it, and never negative. |
| `AcceptLock.CountersConserve` | sample/ntyco_httpd.c:186-193 | The slots add up to the connections counted in and not yet out. |
| `AcceptLock.ServerMoves` | sample/ntyco_httpd.c:434-446 | The server coroutine ends if and only if accept failed, with no counter changed; a good descriptor is counted in its own slot and goes to a new handler behind the others. |
| `AcceptLock.HandlerMoves` | sample/ntyco_httpd.c:331-345 | A handler acts on itself only: it gives up if and only if a receive returns exactly zero, and the one that leaves is the one whose client is counted out. |
| `AcceptLock.BooksBalance` | sample/ntyco_httpd.c:329-346 | At every point of every run, for each descriptor and in all: good accepts of a process are what it has counted out, what its handlers serve and what it has in hand, so none is counted out twice; zero receives are the counts out done or due; accept failed once if the server coroutine has ended or is about to, and never otherwise. |
| `AcceptLock.CountersBySight` | sample/ntyco_httpd.c:434-446 | The slots add up to the good accepts of the run, less the counts out, less those accepted but not yet counted in. |
| `ShmCounter.CallsConserved` | sample/nty_server_mulcore.c:286-312 | In every interleaving the total and what the calls under way still owe add up to what all calls were to add: every call counts once. |
| `ShmCounter.TotalConserved` | sample/nty_server_mulcore.c:286-312 | When no call is under way, the total is the adds called less the subs called. |
| `ShmCounter.ReturnsALaterTotal` | sample/nty_server_mulcore.c:297-297 | A finished call returns the total of some moment not before its own effect, which need not be the one it left. |
| `ShmCounter.LostToAnother` | sample/nty_server_mulcore.c:290-295 | A failed compare-and-swap means that another call took effect since the load. |
| `ShmCounter.RetriesBounded` | sample/nty_server_mulcore.c:290-295 | A caller retries at most once per call of the others that takes effect. |

## Left out

- Context switches (ucontext and assembly) and the inline-assembly atomics: atomic steps with the contract their names promise; compare-and-swap acts on the four bytes its size argument names.
- `nty_schedule_run` as one loop: its passes are steps of the machine and methods on the structures, because the bodies it resumes are arbitrary; what order they come in is part of a run.
- Polls of several descriptors or with another timeout than 1: no caller uses them, and they would link one tree node several times.
- Liveness of waiters: the code does not consult epoll while coroutines are ready, so none holds without further conditions.
- The LIST family of core/nty_queue.h, the defer queue and the busy list: declared but never populated, and easier than the tail queue.
- The eventfd that is registered with epoll: nothing ever signals it, so it produces no event.
- Hooking by dlsym, pthread keys, failing allocations and failing `epoll_ctl`: foreign calls.
- `write` of core/nty_socket.c: its loop is the one of `send`; several writers on one descriptor at a time are not modelled.
- `nty_recv`, `nty_accept`, `nty_connect` and the datagram calls: a poll followed by one call.
- `SplayTree.SplayTree.MinMax`: not for the argument 0, for which the source loops for ever.
- `EpollTimeout.ToMillis`: real arithmetic; the doubles of the source are exact enough for the truncated result throughout the int range.
- 32-bit wrap-around of the connection counters and of the shared total: the counters are unbounded integers.
- The minimum and comparison helpers of the load balancer in the samples: they start from minus one, so they find no minimum.
- Processes killed while holding the accept lock.
- Load balancing, HTTP, CGI, WebSocket, MySQL, Redis and benchmark samples: plumbing around library calls.
