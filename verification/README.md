# libcask: a verified model

libcask is a coroutine runtime in C. This project models its blocking protocols, its
scheduler thread with the intrusive lists it is built on, its timing wheel, and its
containers, and proves what each of them guarantees over whole runs.

* **Blocking protocols** are step machines over any number of tasks. `Mutex`, `Semaphore` and
  `TicketLock` take one atomic access per step. `Channel`, `Rendezvous` and `Barrier` take one
  critical section per step, which the mutual exclusion proved in `Mutex` justifies; the
  unlocked read at the start of `co_bar_wait` is a step of its own. A run is a sequence of
  actions executed from the initial state, and the main results hold for every run.
  `MutexCalls`, `SemaphoreCalls`, `ChannelCalls` and `RendezvousCalls` follow the calls from
  their start to their return: what a call has done by then, and that it gets there.
* **Scheduler and wheel.** `Links` is the circular list on the heap. `Rings` is a family of such
  lists that share one set of links. `Scheduler` and `TimeWheel` are the C code in place, and
  each of their methods is proved to perform one step of `SchedSpec` or `WheelSpec`, about which
  the properties of runs are proved; `SchedAwake` proves that no task is lost.
* **Containers.** `DynArray`, `Heap`, `Deque`, `IdAllocator`, `Buckets` and `HashMap` work in
  place: on an array, or by rewriting the links of rings on the heap. `HeapSpec`, `HashSpec`,
  `HashTable` and `HashRuns` say what they compute and prove it right.

Promises that do not hold as they stand, each with the exact condition under which they do:

* The ticket lock excludes in every run if and only if there are no more tasks than counter
  values, and `spin_locked` tells the truth in every run if and only if there are fewer.
* The unbuffered channel never gets stuck if and only if at most three sends overlap.
* `heap_push` builds what sift-up builds if and only if the comparator never puts one of two
  different elements first without need. `_default_cmp` and `_id_cmp` never do; a comparator
  passed by a user may.
* The hash map is a finite map on a set of keys if and only if no key is a proper prefix of
  another with the same hash.
* `array_insert` inserts if and only if the elements from the insertion point on are all equal;
  its callers append. `array_del` deletes the element asked for if and only if its assignment
  evaluates the left side first, or those elements are all equal; its callers delete the last.
* After `free_cid` no sequence of allocations returns an id that is still out, if and only if the
  id that was freed was out.
* `co_sem_post` does not let a waiter through when it is called with no other call in progress.
  At a counter of minus one or above it only increments. Below minus one it resumes the oldest
  waiter, which decrements again and goes to the end of the list. So a semaphore whose posts are
  all made like that never lets a task go that has once parked. That holds in every run if and
  only if at most one `co_sem_try_wait` may be in progress while a post is: the decrements that
  two of them give back can take the place of a second post.

Modelling decisions:

* `co_resume` is one step, nobody is resumed without cause, and `co_self` is never null.
* A PANIC ends the process: no action follows it.
* `list_add_before` fetches the old predecessor before it writes (list.c:6, 19).
* Signed overflow in `string_hash` wraps to 32 bits. `key & (capcity - 1)` is modelled bit by bit
  and proved to be the Euclidean remainder. The load factor is compared exactly: `4 * count`
  with `3 * capcity`.
* The context switch and `event_wait` are arbitrary resumes chosen by the run. A task may be
  running while its link is on a wait list, as `co_cond_wait` leaves it (co_cond.c:15-17).
* `list_to_map_node` is a map from links to nodes.
* `task_num`, like the other counters of events, is unbounded. The tickets of `TicketLock` wrap.

## Model

| member | source | states |
|---|---|---|
| `Mutex.MutexExcludes` | co_mutex.c:58-87 | In every interleaving of lock, try-lock, unlock and condition wait, the tasks in the critical section are exactly the one the owner word names; a task waiting on the condition is outside. |
| `Mutex.WaitersAreNeverForgotten` | co_mutex.c:10-42 | In every reachable state with a waiter (or one past the recheck) and a free mutex, some unlocker still owes its wakeup check, or some task is in the lock loop, or a popped waiter is about to be resumed. |
| `Mutex.ContendedMutexIsAcquired` | co_mutex.c:10-87 | From any reachable state where the mutex is free and some task is inside `co_mutex_lock`, the calls in progress cannot rest with it free: a step is always possible, and within 9 steps per task it is acquired, in any order. |
| `Mutex.PanicsExactlyOnMisuse` | co_mutex.c:60-82 | In every run, an action panics if and only if it is a lock by the owner, or an unlock or condition wait by a task that does not own the mutex; the re-acquire inside a condition wait never panics. |
| `Mutex.KeepsNoLostWakeup` | co_mutex.c:24-42 | Every single step leaves an owner or a responsible task whenever someone waits. |
| `Mutex.FreeStepLowersRank` | co_mutex.c:10-42 | A step that leaves the mutex free lowers the sum of the remaining work of all tasks and keeps the contention. |
| `Mutex.FreeMutexMoves` | co_mutex.c:10-42 | A contended free mutex always has a task that can move. |
| `MutexCalls.LockAcquires` | co_mutex.c:58-68 | In every run, a lock call by a task that does not own the mutex returns only as the owner, having taken the owner word from free to itself by a step of its own, and makes at most five steps for each try that found an owner, plus one. |
| `MutexCalls.TryLockTries` | co_mutex.c:76-79 | In every run, a try-lock makes one step and takes the mutex exactly when that step finds no owner; called by the owner it changes nothing. |
| `MutexCalls.UnlockReleases` | co_mutex.c:81-87 | In every run, an unlock by the owner returns within six steps of its own, without the mutex, having taken the owner word from itself to free. |
| `MutexCalls.CondWaitReacquires` | co_cond.c:10-19 | In every run, a condition wait by the owner returns as the owner, having freed the owner word and taken it again, and only after it was taken off the condition queue. |
| `MutexCalls.CallsMove` | co_mutex.c:10-87 | In every reachable state a task inside a call can step, or the holder of `wait_lock` can, or the task is parked on the list, or in the hand of a waker that can step, or waits on the condition. |
| `MutexCalls.SignalsServeInOrder` | co_cond.c:37-48 | In every run the condition queue is the sequence of the owners that called `co_cond_wait` without as many of its first as there were signals that found somebody. |
| `MutexCalls.LockAtOnce` | co_mutex.c:58-79 | In every reachable state with the mutex free, an idle task takes it by a lock or try-lock and one step. |
| `MutexCalls.UnlockUnhindered` | co_mutex.c:81-87 | In every reachable state with `wait_lock` free, the owner finishes an unlock by its own steps alone, and likewise gets from a condition wait call to waiting on the condition. |
| `MutexCalls.SignalReleasesOldest` | co_cond.c:37-48 | In every reachable state the owner can signal; exactly the longest waiting task leaves the queue and, once it has yielded, can go on. |
| `TicketLock.ExcludesInTicketOrder` | co_spin_lock.c:37-56 | With wrapping counters and no more tasks than counter values, at most one task is inside, and entries are a prefix of the order in which tickets were taken. |
| `TicketLock.OldestTicketMoves` | co_spin_lock.c:37-49 | In every run with no more tasks than counter values, while a ticket is out the task that can enter or leave is exactly the holder of the oldest. |
| `TicketLock.OverflowBreaksExclusion` | co_spin_lock.c:44-49 | With more tasks than counter values there is a run with two tasks inside. |
| `TicketLock.CorrectExactlyUpToModulus` | co_spin_lock.c:37-56 | Exclusion in every run if and only if the tasks number at most the modulus. |
| `TicketLock.RefinesRawLock` | co_spin_lock.c:12-56 | The acquisitions and releases of every ticket lock run are a run of the raw spin lock. |
| `TicketLock.LockedReadsTrue` | co_spin_lock.c:51-53 | With fewer tasks than counter values, `spin_locked` is true exactly when some ticket is out, in every run. |
| `TicketLock.LockedReadsTrueExactlyBelowModulus` | co_spin_lock.c:51-53 | That it tells the truth in every run holds if and only if the tasks number fewer than the modulus. |
| `Semaphore.NeverOverGranted` | co_sem.c:11-55 | Under every interleaving, successful waits and try-waits never exceed the initial count plus the posts, and the counter is the initial count plus posts minus decrements not undone. |
| `Semaphore.Conserves` | co_sem.c:11-55 | Each atomic step keeps both accounting equations: the value of the counter, and where every decrement has gone. |
| `Semaphore.GrantsWhenNotNegative` | co_sem.c:11-36 | A call succeeds only at a step after which the counter is not negative. |
| `Semaphore.RestingDebtHasWaiters` | co_sem.c:11-55 | In every reachable state where all tasks are idle or parked, the parked ones are exactly those on the list, each once, and a negative counter means that there are some. |
| `SemaphoreCalls.TryWaitOutcome` | co_sem.c:24-36 | In every run a try-wait returns within five steps. It is granted one unit exactly when its decrement finds the counter positive, then in one step, or its second look finds it not negative; otherwise it has given its decrement back. |
| `SemaphoreCalls.WaitOutcome` | co_sem.c:11-22 | In every run a wait that returns has been granted exactly one unit and given nothing back, in one step if its decrement found the counter positive. |
| `SemaphoreCalls.PostOutcome` | co_sem.c:38-55 | In every run a post returns within six steps, having incremented exactly once. |
| `SemaphoreCalls.EveryCallGrantedWhileUnitsLast` | co_sem.c:11-36 | In every run in which each wait and try-wait starts with a unit of the initial count or of a post left for it, nobody blocks and nothing is given back; once all tasks are idle every such call has been granted. |
| `SemaphoreCalls.NobodyBlocksWithinTheCount` | co_sem.c:11-36 | In particular in every run with no more waits and try-waits than the initial count. |
| `SemaphoreCalls.CallsMove` | co_sem.c:11-55 | In every reachable state a task inside a call can step, or the holder of `wait_lock` can, or the task is parked on the list or in the hand of a post that can step. |
| `SemaphoreWakeups.PostAtRestLetsNobodyThrough` | co_sem.c:11-55 | From every state of rest and in every order of steps, a post comes to rest after one, six or eleven steps with no call granted and the same tasks parked; a counter below minus one with waiters is unchanged and the list turned by one place, otherwise the counter has gone up by one. |
| `SemaphoreWakeups.AfterPostIsAtRest` | co_sem.c:38-55 | What such a post leaves is a state of rest again. |
| `SemaphoreWakeups.WaitThenPostStrands` | co_sem.c:11-55 | A concrete run: a wait on an empty semaphore, then a post, ends with the waiter parked, the counter at zero and no step possible. |
| `SemaphoreStranding.ParkedForEverExactlyUpToOneTry` | co_sem.c:11-55 | Over all runs whose posts begin at rest with at most k try-waits in progress while a post is, every task that ever parks stays in its wait for ever, if and only if k is at most one. |
| `SemaphoreStranding.StaysBesideOneTry` | co_sem.c:11-55 | The one direction, for every such run, with waits that interleave with the posts in any way. |
| `SemaphoreStranding.WaiterReturns` | co_sem.c:24-36 | The other: a concrete run in which two failing try-waits bring the counter to zero between a resumed waiter's decrement and its second look, and the waiter returns. |
| `Channel.DeliversInOrder` | chan.c:19-35 | In every reachable state, messages received followed by messages queued are the messages sent, in order, and the queue is within capacity. |
| `Channel.NeverBothStuck` | chan.c:75-95 | While receivers are parked, queued messages are at most the woken receivers; dually for senders and free slots; both sides parked means a woken task is in flight. |
| `Channel.ComesToRestUnstuck` | chan.c:75-95 | Calls in progress come to rest within two critical sections per task; once no task can move, parked receivers mean an empty queue and parked senders a full one, and never both. |
| `ChannelCalls.CallsAreHistory` | chan.c:75-95 | In every run the messages of the sends that have returned, in the order of their returns, are the messages sent; the i-th receive to return took the i-th message received; every other call made is still in progress. |
| `ChannelCalls.RestMeansServed` | chan.c:75-95 | In every run that has come to rest, all receives have returned, or the queue is empty and all sends have; and all sends have returned, or the queue is full and all receives have. |
| `ChannelCalls.SendAtOnce` | chan.c:75-84 | In every reachable state with room, a send by an idle task returns after one critical section with its message at the end of the queue. |
| `ChannelCalls.RecvAtOnce` | chan.c:86-95 | In every reachable state with a message queued, a receive by an idle task returns after one critical section with the head of the queue. |
| `Rendezvous.SendReturnsAfterHandover` | chan.c:42-73 | With any number of tasks, an unbuffered send returns only after its own message was popped. |
| `Rendezvous.DeliversInOrder` | chan.c:42-73 | Received followed by queued is sent, in order, with at most one message queued. |
| `RendezvousCalls.EverySendPushesOnce` | chan.c:42-58 | In every run, counted with repetitions, the messages of all send calls are those sent and those not pushed yet, and the messages sent are those of the sends that have returned and those still waiting for the handover. |
| `RendezvousCalls.SendReturnsItsOwn` | chan.c:42-58 | In every run, when a send returns the message it was called with has been received. |
| `RendezvousCalls.EveryReceiveTakesOne` | chan.c:60-73 | In every run the i-th receive to return took the i-th message received, and every other receive is still in progress. |
| `RendezvousCalls.RestMeansServed` | chan.c:60-73 | In every run that has come to rest with a message queued, every receive has returned with a message. |
| `Rendezvous.UnstuckExactlyUpToThreeSenders` | chan.c:51-70 | No run gets stuck if and only if at most three sends overlap. |
| `Rendezvous.FourSendersCanStick` | chan.c:51-70 | A concrete run of four senders and one receiver ends with a sender and a receiver parked, the queue empty and nobody able to move. |
| `Rendezvous.ComesToRest` | chan.c:42-73 | Calls in progress come to rest within three critical sections per task. |
| `Barrier.HoldsUntilAllArrived` | co_bar.h:13-37 | The count is never negative and equals the calls still to arrive; no call returns before all have arrived; until then every arrival is parked. |
| `Barrier.NobodyParksAfterRelease` | co_bar.h:19-37 | Once the last arriver has released the mutex, no task is or ever becomes parked, whatever happens next. |
| `Barrier.ReleasesEveryone` | co_bar.h:19-37 | Calls in progress come to rest within four steps per task; at rest somebody is parked if and only if some but fewer than `cnt` calls have arrived. |
| `Barrier.OpensExactlyAtCount` | co_bar.h:19-37 | In every run that has come to rest: with `cnt` calls or more every call has returned and every task is idle; with fewer none has returned and each has arrived and is parked. |
| `Barrier.CallsAtOnce` | co_bar.h:19-37 | In every reachable state an idle task can call; before all have arrived it arrives in two steps and nothing returns, afterwards it returns in one. |
| `Links.AddBefore` | list.c:18-20 | On the heap, the ring starting at the head gains the element at its tail; `next` and `prev` agree around the whole ring. |
| `Links.AddAfter` | list.c:22-28 | The ring gains the element right behind the head. |
| `Links.Delete` | list.c:30-33 | The ring loses the element, which becomes a ring of its own, also when it was alone before. |
| `Links.EmptyExactlyWhenAlone` | list.c:43-45 | `list_empty` of any node of a ring holds exactly when the ring has no other node. |
| `Rings.Detach` | list.c:30-33 | Deleting a link, whichever list it is on or none, removes it from that list, leaves it alone, and keeps all rings well formed and disjoint. |
| `Rings.Add` | list.c:18-28 | Linking a free link into one list keeps every ring well formed and disjoint. |
| `Rings.Move` | sched_RR.c:49-59 | Unlink and link in front keeps every ring, wherever the link was. |
| `Rings.MoveTail` | list.c:18-33 | Unlinking from one list and linking at the tail of another keeps every ring well formed and disjoint. |
| `SchedSpec.LinksStayExclusive` | sched_RR.c:49-65 | In every run of a scheduler thread, whatever is resumed, each task's link is on at most one list, once, and `task_num` is never below the queue length. |
| `SchedSpec.RunningTaskIsNotQueued` | sched_RR.c:49-65 | In every run in which nobody resumes the running task, it is not on the run queue; it may be on a wait list. |
| `SchedSpec.LinkAlwaysFindsTheLinkFree` | co_cond.c:15-17 | In every run in which nobody resumes the running task and it links itself at most once between its dispatch and its stop, each `list_add_before` finds the link on no list. |
| `SchedSpec.LinkIsFreeUntilUsed` | task_sched.c:99-107 | The step of that: a dispatched task starts with a free link, and every action keeps it free unless it links or resumes the running task. |
| `SchedSpec.TimedOutWaiterIsGone` | co_cond.c:21-35 | In any reachable state, a waiter that is resumed is off every wait list, and the next signal wakes another task. |
| `SchedSpec.SignalWakesItsOldest` | co_cond.c:38-48 | A signal moves exactly the oldest waiter of its list to the run queue. |
| `SchedSpec.BroadcastWakesAllInOrder` | co_cond.c:38-48 | A broadcast empties its list, queues all waiters in the order they came and touches no other list. |
| `SchedSpec.CondWaitHandsOver` | co_cond.c:15-17 | `co_cond_wait` in its order: the running task is on the condition's list while the unlock wakes the oldest mutex waiter, and after it has stopped exactly those two lists and the run queue have changed. |
| `SchedSpec.NobodyOvertakes` | sched_RR.c:49-89 | Each action dispatches a queued task or lets nobody pass it, and a dispatch brings it one place nearer. |
| `SchedSpec.RoundRobinBound` | task_sched.c:81-113 | A task with k tasks ahead is dispatched after at most k other dispatches, whatever the others do, unless it is itself resumed. |
| `SchedAwake.NobodyIsLost` | task_sched.c:81-113 | In every run a task that was resumed or signalled and has not stopped since is running or on the run queue, and when queued on no other list. |
| `SchedAwake.AwakeExactlyWhenRunnable` | task_sched.c:81-113 | In every run in which nobody resumes the running task, exactly those tasks are running or queued. |
| `SchedAwake.WaitsUntilWoken` | co_cond.c:15-17 | In every run a task is on a wait list exactly when that is where it linked itself last and no resume, signal or yield has queued it since. |
| `SchedAwake.YieldComesRound` | task_sched.c:82-87 | In every run a task that yields is queued behind exactly the other tasks then queued, and runs again after at most as many other dispatches unless it is resumed. |
| `SchedAwake.WokenComesRound` | task_sched.c:170-183 | Likewise a task resumed or signalled while it is not running. |
| `SchedAwake.AwakeTaskRuns` | task_sched.c:99-111 | In every reachable state without a running task, a task that is awake with k others ahead of it is running after k + 1 dispatches. |
| `Scheduler.Scheduler.constructor` | sched_RR.c:43-47 | Initialised heads and links are the empty state. |
| `Scheduler.Scheduler.Enqueue` | sched_RR.c:49-59 | On the heap rings, performs the enqueue step for any task, which ends at the new end of the run queue with the others in order, and keeps every ring and `task_num`. |
| `Scheduler.Scheduler.Oldest` | sched_RR.c:76-88 | Reading the head's `prev` gives the task queued longest, or none exactly when the queue is empty. |
| `Scheduler.Scheduler.Dequeue` | sched_RR.c:61-65 | Unlinks any task from wherever it is and keeps every ring and `task_num`. |
| `Scheduler.Scheduler.Dispatch` | task_sched.c:99-111 | One turn of the scheduling loop is the dispatch step: the oldest entry leaves the run queue and runs, the others stay in order. |
| `Scheduler.Scheduler.Link` | co_mutex.c:19 | The running task appends its free link to a wait list and runs on. |
| `Scheduler.Scheduler.CondWait` | co_cond.c:15-17 | On the heap rings, links onto the condition, wakes a mutex waiter and stops, in that order. |
| `Scheduler.Scheduler.Yield` | task_sched.c:82-87 | A task that yields runnable stops running and is queued behind the present queue, whose order stays. |
| `Scheduler.Scheduler.Signal` | co_cond.c:38-48 | The unlinking loop performs a signal, or with `all` a broadcast, and stops exactly at the end of the ring. |
| `Scheduler.Scheduler.PickNext` | sched_RR.c:67-89 | The polling loop resumes the tasks of each poll in order and stops at the first poll after which the queue has a task, which it returns. |
| `WheelSpec.WheelRefinesTable` | time_wheel.c:34-54 | Over any run of arm, re-arm, cancel and tick, the wheel fires exactly what a table of deadlines fires, tick by tick and in the same order. |
| `WheelSpec.FiresExactlyOnceOnTime` | time_wheel.c:40-46 | After any history, an element armed with timeout k >= 0 and not touched again is fired exactly once, by the tick (k mod size) + 1; operations with a negative timeout do not count as touching it. |
| `WheelSpec.TickAgrees` | event.c:30-41 | The slot reached by a tick holds exactly the elements due at that tick, and draining it loses no other. |
| `WheelSpec.ArmAgrees` | time_wheel.c:40-46 | The slot computed from the position of the wheel is the slot of the deadline, and the element leaves any earlier slot. |
| `TimeWheel.TimeWheel.constructor` | time_wheel.c:12-32 | At least 60 fresh empty slots. |
| `TimeWheel.TimeWheel.Rotate` | time_wheel.c:34-37 | Advances the position modulo the size. |
| `TimeWheel.TimeWheel.UpdateElement` | time_wheel.c:40-46 | On the heap rings, performs the arm operation; a negative timeout changes nothing. |
| `TimeWheel.TimeWheel.DeleteElement` | time_wheel.c:48-50 | Takes the element off its slot, whichever it is. |
| `TimeWheel.TimeWheel.FireNext` | event.c:34-41 | The loop body reads the successor before it unlinks the element, and the successor is empty exactly at the end of the slot. |
| `TimeWheel.TimeWheel.Drain` | event.c:31-41 | The unlinking loop visits every element of the slot once, in order, and leaves exactly that slot empty. |
| `TimeWheel.TimeWheel.Tick` | event.c:30-41 | One turn of the timer task is the tick operation. |
| `HeapSpec.StrictIsComparator` | heap.h:5 | Every strict weak order is admissible as comparator and never puts one element first without need, so it is faithful. |
| `HeapSpec.NonStrictIsComparator` | heap.h:12-15 | Every total preorder such as the default comparator is admissible too. |
| `HeapSpec.PushKeepsHeap` | heap.c:33-56 | Appending to a heap and running the descending heapify pass restores the order and adds exactly the new element. |
| `HeapSpec.PushIsSiftUp` | heap.c:33-56 | For a faithful comparator that pass yields exactly the array of textbook sift-up. |
| `HeapSpec.UnfaithfulDiffers` | heap.c:18-39 | For any other comparator, a heap on which the pass and sift-up differ. |
| `HeapSpec.SiftUpExactlyWhenFaithful` | heap.c:33-56 | The pass equals sift-up on every heap if and only if the comparator is faithful. |
| `HeapSpec.DefaultIsFaithful` | heap.h:12-15 | `_default_cmp` is admissible and faithful. |
| `HeapSpec.ByRankIsNotFaithful` | heap.h:5 | A concrete comparator that is admissible and not faithful, with a heap on which the pass and sift-up differ. |
| `HeapSpec.PopKeepsHeap` | heap.c:41-65 | Popping removes exactly one occurrence of a least element and restores the order. |
| `HeapSpec.HeapSorts` | heap.c:53-65 | Pushing any inputs and popping until empty yields a sorted permutation of them. |
| `Heap.Heap.Heapify` | heap.c:18-31 | In place, swaps the root with its preferred child exactly as the specification says. |
| `Heap.Heap.FixUp` | heap.c:33-39 | The descending loop equals the recursive pass, and does nothing on an empty heap. |
| `Heap.Heap.FixDown` | heap.c:41-51 | The loop following the swaps equals the recursive sift-down. |
| `Heap.Heap.Push` | heap.c:53-56 | Keeps the heap order and adds one element. |
| `Heap.Heap.Pop` | heap.c:58-65 | Fails exactly on an empty heap, else returns a least element, removes one occurrence of it and keeps the order. |
| `DynArray.InsertsExactlyBeforeEqualElements` | array.c:55-61 | The upward shift makes `array_insert` an insertion if and only if the elements from the insertion point on are all equal, in particular at the end. |
| `DynArray.DeletesExactlyInOrderOrBeforeEqualElements` | array.c:80-82 | The shift makes `array_del` a deletion of that element if and only if the assignment evaluates its left side first or the elements from there on are all equal, in particular at the end. |
| `DynArray.DynArray.Grow` | array.c:24-43 | A first allocation or a doubling, full or not, keeps the elements. |
| `DynArray.DynArray.Insert` | array.c:49-64 | Refuses an index beyond the end; otherwise leaves what the upward shift leaves. |
| `DynArray.DynArray.Put` | array.c:66-70 | Writes one element, or fails beyond the end and changes nothing. |
| `DynArray.DynArray.Get` | array.c:72-75 | The element, or none exactly beyond the end. |
| `DynArray.DynArray.Delete` | array.c:77-85 | For any index and either order of evaluation: returns the element and leaves what the shift loop leaves, or fails beyond the end. |
| `IdAllocator.AllocatorIsCorrect` | cid.c:56-74 | After any run that gives back only ids returned and not yet given back, those ids and the recycled ones partition the ids ever handed out; allocation fails exactly when `max` are out, never returns one that is, and once all have been handed out returns the smallest free one. |
| `IdAllocator.IdLessIsComparator` | cid.c:21-25 | `_id_cmp` is admissible and faithful, and orders by value. |
| `IdAllocator.FailsExactlyWhenFull` | cid.c:60-65 | Allocation fails if and only if `max` ids are live. |
| `IdAllocator.AllocTakesAFreeId` | cid.c:60-65 | A successful allocation adds one id that was not live. |
| `IdAllocator.FreeReturnsIt` | cid.c:70-74 | Freeing a live id, reduced modulo `max`, removes exactly that id from the live ones. |
| `IdAllocator.FreeReissuesNothingExactlyWhenLive` | cid.c:56-74 | For any id: after it is freed no sequence of allocations returns an id that is still out, if and only if the id was out. |
| `IdAllocator.IdDispatch.AllocId` | cid.c:56-68 | In place over the heap of recycled ids, performs the allocation. |
| `IdAllocator.IdDispatch.FreeId` | cid.c:70-74 | In place and for any id, pushes the id modulo `max`; the recycled ids stay distinct and below `base` exactly when the id is live, which then is no longer live. |
| `Deque.Deque.PushFront` | deque.c:28-33 | The contents gain the element in front. |
| `Deque.Deque.PushBack` | deque.c:35-40 | The contents gain the element at the back. |
| `Deque.Deque.Pop` | deque.c:42-59 | Returns and removes the first or last element, or none exactly when empty. |
| `Deque.Deque.Clear` | deque.c:61-65 | Empties the queue. |
| `HashRuns.BehavesAsMapExactlyWhenPrefixFree` | hash_map.c:78-164 | For any hash and any set of keys, all runs of get, put, del, size and clear over the set return what a finite map returns, if and only if no key of the set is a proper prefix of another with the same hash. |
| `HashRuns.RunsAgree` | hash_map.c:78-164 | On a prefix-free set, from agreeing states, every run returns the same results. |
| `HashRuns.PrefixIsMistaken` | hash_map.c:91 | Storing under the longer of two such keys makes a get of the shorter one succeed. |
| `HashRuns.StringHashIsNotPrefixFree` | hash_map.c:53-60 | With `string_hash` there are two such names. |
| `HashSpec.HashIsWrappedPolynomial` | hash_map.c:53-60 | Wrapping after each character equals wrapping the polynomial in 31 once. |
| `HashSpec.ComparesPrefix` | hash_map.c:91 | `strncmp` with the length of the query accepts exactly the names the query is a prefix of. |
| `HashSpec.MaskIsIndex` | hash_map.c:81 | Masking by a power of two less one is the remainder, also for negative hashes. |
| `HashSpec.BucketOfBucket` | hash_map.c:181-195 | With twice the buckets, buckets i and i + c hold the nodes of the old bucket i that belong there, in order. |
| `HashSpec.FirstMatchSelected` | hash_map.c:85-96 | The first match in the bucket of a hash is the first match of the whole list. |
| `HashSpec.BucketsAddUp` | hash_map.c:131-138 | The bucket sizes add up to the number of nodes. |
| `HashTable.ComputeStringHash` | hash_map.c:53-60 | The loop computes the hash, which is the polynomial wrapped to 32 bits. |
| `HashTable.HalfwayNext` | hash_map.c:181-195 | When the first i buckets of the doubled table hold what they should and bucket i is divided, the first i + 1 do. |
| `Buckets.Buckets.Search` | hash_map.c:85-96 | Walking the ring from its head finds the first match of the bucket, or comes back to the head. |
| `Buckets.Buckets.Append` | hash_map.c:129-137 | A fresh node is linked at the tail of one ring; that bucket and its counter grow by it and nothing else changes. |
| `Buckets.Buckets.Remove` | hash_map.c:156-158 | A node is unlinked and freed; its bucket and counter lose it and nothing else changes. |
| `Buckets.Buckets.Move` | hash_map.c:190-193 | A node is unlinked from one ring and linked at the tail of another, with both counters right and every ring well formed. |
| `Buckets.Buckets.WalkOn` | hash_map.c:184-194 | One round of the walk: the successor, read before the node is relinked, is the next unvisited node of the ring. |
| `Buckets.Buckets.Split` | hash_map.c:182-194 | The walk that relinks nodes out of the ring it follows visits every node once and divides the bucket stably in two, with both counters right. |
| `Buckets.Buckets.SplitAll` | hash_map.c:181-195 | After the loop over the old buckets every node is in its bucket of the doubled table, in order. |
| `Buckets.Buckets.FreeAll` | hash_map.c:217-225 | The loop frees every node of one ring and leaves it empty. |
| `HashMap.HashMap.constructor` | hash_map.c:62-75 | An empty map of 16 buckets. |
| `HashMap.HashMap.Get` | hash_map.c:78-98 | Returns what the list of all nodes returns. |
| `HashMap.HashMap.Put` | hash_map.c:100-141 | Performs the put, across a resize where one is due; capacity stays a power of two, every node in its bucket, every counter right, and the load within three quarters. |
| `HashMap.HashMap.Insert` | hash_map.c:122-138 | Doubles the buckets exactly when the load factor is reached, and appends the node. |
| `HashMap.HashMap.Del` | hash_map.c:143-164 | Performs the deletion and reports whether there was a match. |
| `HashMap.HashMap.Resize` | hash_map.c:166-197 | On the heap rings, doubles the buckets and keeps all nodes, in order, each in its new bucket. |
| `HashMap.HashMap.Size` | hash_map.c:199-202 | The counter is the number of nodes. |
| `HashMap.HashMap.ClearAll` | hash_map.c:209-233 | Frees every node, brings the counter to zero and keeps the capacity, or with `all` removes the buckets. |

## Left out

- Semaphore progress for posts that race with other posts: which interleavings let a waiter through is characterised only for posts that begin at rest.
- Counter overflow of the semaphore and of `task_num`: the counters are unbounded integers.
- Orders of evaluation of the assignment in `array_del` (array.c:81) other than the two of `DynArray.DynArray.Delete`: the language leaves it undefined.
- `free_cid` with `max` zero, which divides by zero.
- `co_mutex_lock_wait` and `spin_trylock`: their results do not mean that the lock was acquired.
- Linking a task that is already on a list, which corrupts both rings: `Scheduler.Link` asks for a free link, and `LinkAlwaysFindsTheLinkFree` shows in which runs it is one.
- The two halves of a cross-thread resume (sched_RR.c:51-56): a resume is one step, and `Scheduler` is one thread.
- The links of `chan.c`, `co_cond.c` and `co_mutex.c` inside the protocol models are sequences; the heap form of the same list operations is in `Scheduler`.
- `co_cond_wait_till` beyond the movement of its link: the timer descriptors are operating system calls.
- `co_bar_destory` and `chan_close`: no protocol uses them concurrently with the calls modelled.
- The lazily created per-thread allocator and its limit of 100000 ids: `max` is a parameter.
- Names of 1024 characters and more, for which a hash map node has no room, and the float rounding of the load factor.
- Memory allocation failure, freeing, and copies of values.
- bit_map.c, co_rwlock.h, sched_ctl.h, sys_hook.c, sys_helper.c, timer.c, inner_fd.c, the epoll part of event.c, task.c, co_await.c and log.c: system calls, context switching, unfinished code, or easy members only.
