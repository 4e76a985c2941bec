# Aspen, modelled and verified in Dafny

Aspen schedules in two levels.  An I/O kernel hands cores to runtimes, with the help of a kernel
module that switches kthreads on a core; each runtime schedules user threads (uthreads) on its
kthreads with work stealing.  This project models the protocols between these parts and the data
structures beneath them, and proves what they keep.

| file | component |
|---|---|
| `Seqs.dfy` | lists without duplicates, used throughout |
| `RunQueue.dfy` | one kthread's run queue: a 32-slot ring with wrapping indices, an overflow list and published counters; stealing and merging |
| `RunQueueSteps.dfy` | the lock-free append of the owner, interleaved store by store with a thief's drain |
| `Stealing.dfy` | work stealing among any number of kthreads, on top of those steps |
| `Handshake.dfy` | parking, yielding, waking, stealing, ceding and exiting on any number of kthreads: who is on which stack |
| `CoreLink.dfy` | the words shared by the I/O kernel and the kernel module: requests, acknowledgements, interrupts |
| `FlowSteering.dfy` | the flow table of a proc |
| `CoreSched.dfy` | the I/O kernel's core state machine, its lists, the polling array and reference counts |
| `Machine.dfy` | the core state machine running on the kernel module: one of the links of `CoreLink.dfy` for each core |
| `Ownership.dfy` | the ownership table, its counters and its agreement with the core state machine, for both policies |
| `SimplePolicy.dfy` | the simple policy on top of the core state machine |
| `IasPolicy.dfy` | the interference-aware policy on top of the same state machine |
| `BwSamples.dfy` | the samples of that policy's bandwidth controller, and its choice of a victim |
| `Rcu.dfy` | grace periods from the parity counters |
| `TimerHeap.dfy` | the 4-ary timer heap with back-pointers |
| `Slab.dfy` | the slab allocator |
| `Tcache.dfy` | magazines over the slab |
| `Sync.dfy` | read-write mutex, barrier, wait group |
| `Jenkins.dfy` | the three loops of the little-endian hash, and the inverse of its mixing step |

## How the model is built

- State that the program updates in place is a class; its methods carry the name and the branches of
  the C functions.  A section under a lock is one method.  Where threads run without a lock, or on
  several cores, the model is a step system: a state, the enabled steps, and runs of them.
- Widths matter and are written out: ring indices, published counters, generations and RCU counters
  are 32 bits and wrap; the published timer is 64 bits; hash words wrap.  Lists are sequences and
  bitmaps are sets.
- Clocks, delays, scores, budgets, pending I/O and the results of `page_alloc_on_node` are parameters
  or part of an environment that may do anything.
- The two policies call the class `CoreSched.Dataplane`, and the magazine cache calls
  `Slab.SlabNode`, so their theorems are about both layers at once.

## What the proofs turned up

Each of these is a property one would expect that the code does not have.  The model follows the
code; the named lemmas give the failing case and the exact condition.

- The generation word is returned through a signed `int` (`ksched/ksched.c:168-189`), so from
  generation 2^31 on the idle loop compares a sign-extended value and takes an old request for a new
  one (`RetakenRequest`, `TakesIssuedExactly`).
- The signal word is cleared to zero, which is also generation 2^32 seen through 32 bits
  (`SpuriousSignal`, `SignalsInTimeExactly`).
- At the same 2^31 requests the idle loop starts a task again that has parked and reported idle, so a
  kthread of the idle pool runs (`RestartedTask`, `IdleReportExactly`, `RestartBreaksView`).
- A task that parks and finds a request for itself takes it up without becoming the running task
  (`ksched/ksched.c:291-297`).  When another task is the running one, the module goes on running, and
  signalling, that one (`StrayKeepsOldTask`, `CurrentTaskExactly`, `StraySignal`, `SignalsExactly`,
  `StrayBreaksView`).  In these members such a request counts as missed.
- After a full ring has been stolen, a head push stamps the current time in front of the older threads
  that overflowed, so a sorted queue becomes unsorted (`HeadPushUnsorted`, `HeadPushSorted`).
- A detached proc's cores become unowned without being known to be idle, and until they report idle
  another proc's guarantee may not be met (`LostCoreStarves`, `SimplePolicy.Policy.Detach`; the exact
  condition is `NoOffer` in `SimplePolicy.Policy.ChooseCore`).
- `ias_detach` leaves the punished bits of the proc's cores set, so a punished core can be nobody's
  (`DetachStrandsPunished`, `IasPolicy.Ias.Detach`).
- The bandwidth controller tests a best-effort proc's limit against its guarantee but sets it from the
  cores in use, so it can fall below the guarantee (`ThrottleKeepsGuarantee`,
  `ThrottledBelowGuarantee`).
- The slab that holds the slab nodes takes its element count from the unaligned size, so its last
  four blocks leave the page (`NodeSlabLeavesPage`, `InPageExactly`).
- `is_valid_heap` never looks at position 1 (`TimerHeap.Timers.IsValidHeap`, `SkipsSecondEntry`).
- The comment at `runtime/rcu.c:9-11` describes an ordering test; the code tests for equality
  (`runtime/rcu.c:71-73`).  The model follows the code, which is also right when a counter wraps.

## Model

| member | source | states |
|---|---|---|
| `RunQueue.RunQueue.constructor` | runtime/kthread.c:53-72 | an empty queue satisfies the invariant: ring within 32 slots, published difference equal to the length |
| `RunQueue.RunQueue.DrainOverflow` | runtime/sched.c:147-160 | refilling the ring from overflow leaves the queue as a sequence unchanged, for every 32-bit index value |
| `RunQueue.RunQueue.ThreadReadyLocked` | runtime/sched.c:773-801 | appends the thread at the end of the queue and publishes it |
| `RunQueue.RunQueue.ThreadReady` | runtime/sched.c:844-875 | the owner's append, ring or overflow, appends at the end and leaves the overflow list empty or the ring full; counters, lag and invariant are kept |
| `RunQueue.RunQueue.ThreadReadyHead` | runtime/sched.c:811-836 | prepends the thread even when the ring is full, by moving the ring's last thread to the front of overflow |
| `RunQueue.RunQueue.Pop` | runtime/sched.c:566-573 | takes the front of the queue and nothing else changes |
| `RunQueue.RunQueue.DrainThreads` | runtime/sched.c:209-234 | takes exactly the first min(nr, length) threads in order, the ring before the overflow list; the rest stays, and so do the counters' meaning |
| `RunQueue.RunQueue.Absorb` | runtime/sched.c:236-280 | the thief's queue, emptied and refilled from index zero, is the merge of both lists, and its counters still give its length |
| `RunQueue.Merge` | runtime/sched.c:236-280 | the merge has the length of both lists together |
| `RunQueue.MergeConserves` | runtime/sched.c:236-280 | merging loses and duplicates no thread |
| `RunQueue.MergeSorted` | runtime/sched.c:236-280 | the merge of two queues sorted by ready time is sorted |
| `RunQueue.MergeRunqueues` | runtime/sched.c:236-280 | the victim keeps its queue without the stolen prefix; the thief holds the merge of its queue with that prefix |
| `RunQueue.StealWork` | runtime/sched.c:359-390 | steals exactly when the victim's published length exceeds the thief's; half of the difference moves, rounded up and at most a ring full, as a prefix of the victim's queue, and then the thief exceeds the victim by at most one |
| `RunQueue.AppendSorted` | runtime/sched.c:773-801 | an append keeps the queue sorted if and only if the new time is not before the last one |
| `RunQueue.HeadPushSorted` | runtime/sched.c:811-836 | a head push keeps a sorted queue sorted if and only if the ring is not empty, or the overflow list is, or the time is not after that of the list's first thread |
| `RunQueue.HeadPushUnsorted` | runtime/sched.c:825-828 | a run of pushes, one theft of a full ring and one head push, after which the queue is unsorted |
| `RunQueue.PublishedLength` | runtime/sched.c:370-390 | the wrapped difference of the published counters is the queue length less the lag |
| `RunQueueSteps.StepRefines` | runtime/sched.c:209-234 | every single load and store of the owner's append and of a thief's drain, and every operation of the owner under its lock including its own merge, keeps the invariant and acts on the abstract queue as exactly one deque operation or none |
| `RunQueueSteps.StoreHeadRefines` | runtime/sched.c:869-873 | the store of the head index is the moment at which the thread is in the queue |
| `RunQueueSteps.DrainOneRefines` | runtime/sched.c:209-234 | each round of the thief takes the front of the abstract queue, also while the owner is mid-append |
| `RunQueueSteps.MergeRefines` | runtime/sched.c:236-280 | the merge on the thief's own queue, which resets both indices to zero and keeps as many threads as the counters say, keeps all of them |
| `RunQueueSteps.RunIsDequeRun` | runtime/sched.c:844-875 | every interleaving is a run of a plain deque with the same operations in the same order |
| `RunQueueSteps.NothingLost` | runtime/sched.c:209-280 | in every run of one queue, what was queued or merged in equals what was taken plus what is still there |
| `Stealing.StepKeeps` | runtime/sched.c:359-390 | with any number of kthreads stealing from each other, every step keeps the invariant: a thief's own queue is at rest, its victim is nobody else's, and the length it read is still right |
| `Stealing.StepConserves` | runtime/sched.c:236-280 | no step of an owner or a thief loses or doubles a thread over all queues and all thieves' local lists |
| `Stealing.NothingLost` | runtime/sched.c:236-280 | in every run over any number of queues the threads made ready are those popped, those queued and those in a thief's hands, as multisets |
| `Stealing.RefillDropsNone` | runtime/sched.c:236-252 | in every run the length a thief read before it drained its victim is the number of threads in its own queue when it empties and refills it |
| `Handshake.StepKeeps` | runtime/sched.c:616-707 | each of the nineteen steps of parking, yielding, waking, popping, stealing, ceding and exiting keeps the invariant linking stacks, flags and queues |
| `Handshake.OneStackUser` | runtime/sched.c:78-115 | in every state of every run at most one kthread is on a uthread's stack |
| `Handshake.EnteredAfterSave` | runtime/sched.c:692-706 | a kthread moves onto a stack only when the frame is saved, the ready flag cleared and nobody else is on it, also for a uthread stolen while its old kthread was leaving |
| `Handshake.StaysClear` | runtime/sched.c:78-115 | between the load that ends the spin on thread_running and the store that sets it, nobody else sets it or answers for it, in every run |
| `Handshake.ReadyOnce` | runtime/sched.c:736-748 | a uthread is ready exactly while one wake-up is unconsumed, and then it is in exactly one place once; wake-ups equal pops plus that one |
| `Handshake.AssertionsHold` | runtime/sched.c:992-1028 | the assertions on thread_ready in the wake, yield, cede and switch paths never fail |
| `CoreLink.OneOutstanding` | iokernel/sched.c:164-193 | in every run at most one request of a core is unacknowledged, and none when the core does not wait |
| `CoreLink.KernelTakesIssued` | ksched/ksched.c:191-239 | below 2^31 generations the kernel takes up exactly the issued (generation, tid) pairs, in order, none skipped and none read under another generation |
| `CoreLink.SignalsAreInTime` | ksched/ksched.c:334-360 | below 2^32 generations every signal is delivered to a task of no later generation than the one it was requested for, and to the task of that very generation if and only if the request last taken up was not missed |
| `CoreLink.IdleReportIsTrue` | iokernel/ksched.h:42-56 | when no request is outstanding and the busy flag is clear, the module runs no task or is releasing the one that parked |
| `CoreLink.RunsTheCurrentTask` | ksched/ksched.c:115-312 | below 2^31 generations and without missed requests, with no request outstanding the task the module runs is the one last requested |
| `CoreLink.RestartedTask` | ksched/ksched.c:191-239 | a run with 2^31 requests, none missed, after which a task that had reported idle runs again |
| `CoreLink.IdleReportExactly` | ksched/ksched.c:191-239 | idle reports are true in all runs of at most b requests if and only if b is below 2^31 |
| `CoreLink.StrayKeepsOldTask` | ksched/ksched.c:287-297 | a run with two requests, both acknowledged, after which the module still runs the task of the first one |
| `CoreLink.CurrentTaskExactly` | ksched/ksched.c:257-312 | in every run below 2^31 requests the task that runs with no request outstanding is the one last requested if and only if the request last taken up was not one for a parking task with another task as the running one |
| `CoreLink.QuietReachable` | iokernel/ksched.h:28-34 | every number of issued and acknowledged requests is reached by a run |
| `CoreLink.RetakenRequest` | ksched/ksched.c:168-189 | a run with 2^31 requests after which a request is taken twice |
| `CoreLink.TakesIssuedExactly` | ksched/ksched.c:168-239 | requests are taken up as issued in all runs of at most b requests if and only if b is below 2^31 |
| `CoreLink.SpuriousSignal` | ksched/ksched.c:324-349 | a run with 2^32 requests in which a cleared signal word is delivered |
| `CoreLink.SignalsInTimeExactly` | ksched/ksched.c:324-349 | signals arrive in time in all runs of at most b requests if and only if b is below 2^32 |
| `CoreLink.StraySignal` | ksched/ksched.c:324-360 | a run with two requests, the second missed, in which the signal for the second task goes to the first |
| `CoreLink.SignalsExactly` | ksched/ksched.c:324-360 | in every run below 2^32 requests every signal has reached the very task it was requested for if and only if none was sent after a missed request |
| `FlowSteering.OwnEntries` | iokernel/sched.c:83-90 | every active kthread gets its identity entry |
| `FlowSteering.RoundRobin` | iokernel/sched.c:92-98 | the other entries go round the active kthreads in turn |
| `FlowSteering.SteerFlows` | iokernel/sched.c:74-99 | every entry names an active kthread, each keeps its identity entry, and the entry counts differ by at most one |
| `CoreSched.Dataplane.constructor` | iokernel/sched.c:815-841 | all lists, slots, polling entries and reference counts are consistent at the start, nothing runs, each proc has one reference |
| `CoreSched.Dataplane.PollThread` | iokernel/defs.h:248-255 | adds the kthread to the polling array once, keeps the back-pointers inverse, and takes one reference exactly when it was not there |
| `CoreSched.Dataplane.UnpollThread` | iokernel/defs.h:261-269 | removes exactly that kthread, moves the last entry into the gap with its back-pointer, and puts one reference exactly when it was there |
| `CoreSched.Dataplane.ProcPut` | iokernel/defs.h:232-235 | one reference less, and the proc is released when none is left |
| `CoreSched.Dataplane.SteerProc` | iokernel/sched.c:114-115 | the flow tables of all procs without directpath are evenly spread over their active kthreads |
| `CoreSched.Dataplane.GrabKthread` | iokernel/sched.c:101-123 | an idle kthread becomes active on a core and polled; lists, back-pointers, flows and references stay consistent |
| `CoreSched.Dataplane.DropKthread` | iokernel/sched.c:125-138 | an active kthread returns to the idle list, stays polled only with packets queued, and its reference is put |
| `CoreSched.Dataplane.PickKthread` | iokernel/sched.c:140-162 | the first idle kthread that last ran on this core, else on the sibling, else the least recently used one |
| `CoreSched.Dataplane.SchedRun` | iokernel/sched.c:164-193 | the core is now meant to run the given kthread; the request is issued or queued; a replaced queued kthread, which never ran, is the only one to go back to the pool |
| `CoreSched.Dataplane.RunOnCore` | iokernel/sched.c:204-225 | rejected exactly without idle kthreads or for a foreign core; otherwise an idle kthread of the proc is meant to run there, the kernel sees exactly that request, no other core changes and no other kthread gets a new home |
| `CoreSched.Dataplane.IdleOnCore` | iokernel/sched.c:236-251 | the core is meant to run nothing, and no other core changes |
| `CoreSched.Dataplane.FinishSwitch` | iokernel/sched.c:745-768 | on an acknowledgement, and only then, the previous kthread returns to the pool and a queued request is issued; what each core is meant to run does not change |
| `CoreSched.Dataplane.NoteIdle` | iokernel/sched.c:770-782 | on an idle report, and only then, the current kthread returns to the pool, unless it is rewoken |
| `CoreSched.Dataplane.Rewake` | iokernel/sched.c:663-693 | the request for a parked kthread that has work goes to the core it is placed on |
| `CoreSched.Dataplane.FastPass` | iokernel/sched.c:742-783 | with kernel steps before each core and between its two polls, the whole pass keeps the invariant; a core changes what it is meant to run only by being reported idle |
| `CoreSched.Dataplane.KernelAct` | ksched/ksched.c:191-312 | any of the simplified kernel's steps - starting the requested kthread, acknowledging, parking, dropping the task, setting the busy flag - keeps the invariant at any time |
| `CoreSched.Dataplane.TxQueueEmpty` | iokernel/tx.c:205-210 | a kthread with an empty packet queue stays in the polling array if and only if it is active |
| `CoreSched.Dataplane.GetOutside` | iokernel/tx.c:94-94 | a packet handed to the device holds one more reference |
| `CoreSched.Dataplane.PutOutside` | iokernel/dp_clients.c:146-146 | the reference is put, and the identity of the counts is kept |
| `CoreSched.RunsOnOneCore` | iokernel/sched.c:164-193 | in every valid state a kthread that runs on a simplified kernel is active, placed on that core, not in the idle pool, and runs on no second core; `Machine.NoTaskOnTwoCores` carries this to the kernel module |
| `CoreSched.IdlePoolIsFree` | iokernel/sched.c:742-782 | a kthread in the idle pool runs on no simplified kernel, is named by no outstanding request and is in no slot; `Machine.PooledTaskIsStopped` carries this to the kernel module |
| `CoreSched.EffectiveIsHome` | iokernel/sched.c:319-323 | the kthread a core is meant to run is active and placed on that core |
| `CoreSched.RefsCountSlots` | iokernel/defs.h:248-269 | a proc's reference count is its filled slots plus its polled kthreads plus the references outside; a released proc has none of them |
| `CoreSched.AvailIsIdle` | iokernel/sched.h:110-113 | thread_count minus active_thread_count is the length of the idle list |
| `Machine.StepIsAct` | ksched/ksched.c:191-312 | below 2^31 requests and while none is missed, every load and store of the kernel module, and of its interrupt handler, is one step of the simplified kernel or none |
| `Machine.DataplaneShows` | iokernel/ksched.h:28-56 | a request changes what the kernel shows the way the core scheduler records it; its other stores show nothing; an acknowledgement that is polled has been given |
| `Machine.RelinkKeeps` | iokernel/ksched.h:28-56 | the acknowledgement and the request that a dataplane operation sees and makes keep a core and its link in agreement |
| `Machine.System.constructor` | iokernel/ksched.c:53-58 | before any request all links show what the core scheduler starts from |
| `Machine.System.ModuleStep` | ksched/ksched.c:191-360 | a step of the kernel module on any core, at any time between dataplane operations, keeps the whole machine consistent |
| `Machine.System.PlaneStore` | iokernel/ksched.h:28-99 | so do the separate stores of a request and of an interrupt |
| `Machine.System.RunOnCore` | iokernel/sched.c:204-225 | and sched_run_on_core, below 2^31 requests on that core |
| `Machine.System.IdleOnCore` | iokernel/sched.c:236-251 | and sched_idle_on_core |
| `Machine.System.PollDone` | iokernel/sched.c:745-768 | and the first half of one core's part of the fast pass, which changes a core only if its link says that the request was taken up |
| `Machine.System.PollIdle` | iokernel/sched.c:770-782 | and the second half, in which a core counts as idle only if its link says so; module steps may fall between the two |
| `Machine.NoTaskOnTwoCores` | iokernel/sched.c:164-193 | in every state of the machine the task a core's module runs is an active kthread placed on that core, not in the idle pool, and no other core's module runs it |
| `Machine.PooledTaskIsStopped` | iokernel/sched.c:742-782 | a kthread in the idle pool is run by no module and named by no unacknowledged request |
| `Machine.StrayBreaksView` | ksched/ksched.c:287-297 | after the run with a missed request the module's state fits no core state with the requested kthread as its current one |
| `Machine.RestartBreaksView` | ksched/ksched.c:191-239 | after the run with 2^31 requests the module's state fits no core state at all |
| `SimplePolicy.SomeCoreCanBeTaken` | iokernel/simple.c:33-38 | when the owned cores could meet all guarantees and a proc is below its own, some other proc owns a core above its guarantee |
| `SimplePolicy.Policy.constructor` | iokernel/simple.c:337-342 | all cores start idle and unowned |
| `SimplePolicy.Policy.MarkCongested` | iokernel/simple.c:63-69 | flag and list agree |
| `SimplePolicy.Policy.UnmarkCongested` | iokernel/simple.c:71-77 | flag and list agree |
| `SimplePolicy.Policy.CleanupCore` | iokernel/simple.c:47-61 | the core becomes unowned, its owner counts one core less and moves to the front of the core's history |
| `SimplePolicy.Policy.Attach` | iokernel/sched.c:815-841 | admitted exactly when the guarantees then still fit on the cores; their sum never exceeds the core count |
| `SimplePolicy.Policy.Detach` | iokernel/simple.c:100-117 | no owner, history or congestion entry of the proc is left; every unowned core stays known to be idle if and only if that held before and the proc owned no core |
| `SimplePolicy.Policy.RemoveClient` | iokernel/dp_clients.c:134-147 | detaching and putting the client's reference keeps both layers consistent |
| `SimplePolicy.Policy.RunKthreadOnCore` | iokernel/simple.c:119-144 | succeeds exactly when the proc has a kthread to spare and the core is the scheduler's; then owner, counters and idle bit change for that core alone and agree with what the core is meant to run |
| `SimplePolicy.Policy.ChooseCore` | iokernel/simple.c:146-204 | the core found is known to be idle, or another's above its guarantee, or the sibling of an own core, or where an idle kthread last ran, in the order of the stages; none is found if and only if no stage has one; and a proc below its guarantee finds one whenever every unowned core is known to be idle |
| `SimplePolicy.Policy.GuaranteeCanBeMet` | iokernel/simple.c:193-204 | a proc below its guarantee finds an idle core or one to preempt |
| `SimplePolicy.Policy.AddKthread` | iokernel/simple.c:206-219 | no core is found exactly at the limit or when no stage offers one; below its guarantee and limit a proc gets a core unless all its kthreads are taken; no preemption leaves the victim below its guarantee; nobody loses more than one core |
| `SimplePolicy.Policy.NotifyCongested` | iokernel/simple.c:226-261 | a congested proc gets a core or is marked; no guarantee is broken |
| `SimplePolicy.Policy.SlowPass` | iokernel/sched.c:707-735 | whatever the slow pass measures and for whichever procs, no guarantee that was met is broken and no core is lost |
| `SimplePolicy.Policy.ChooseKthread` | iokernel/simple.c:263-296 | finds a waiting proc if and only if there is one, the sibling's owner first |
| `SimplePolicy.Policy.ReuseCore` | iokernel/simple.c:306-321 | an idle core goes to a waiting proc; it is left idle only when no proc waits |
| `SimplePolicy.Policy.SchedPoll` | iokernel/simple.c:298-322 | each reported core is owned or marked idle afterwards, other cores are untouched, and owners agree with the core state machine again |
| `SimplePolicy.Policy.Poll` | iokernel/sched.c:698-791 | a whole sched_poll, slow pass, fast pass and policy, keeps ownership and core state machine in agreement and loses no core |
| `SimplePolicy.OwnedAtMostActive` | iokernel/simple.c:47-61 | the cores a proc owns are at most its active kthreads, and these at most its kthreads |
| `SimplePolicy.LostCoreStarves` | iokernel/simple.c:100-117 | a run of attaching two procs, running one in burst and detaching it, after which the other is below its guarantee and simple_choose_core finds no core for it |
| `Ownership.RunInMech` | iokernel/sched.c:204-225 | for an attached proc with a kthread to spare the only failure is a foreign core; kthreads of other procs keep their homes |
| `Ownership.ThreadsAvail` | iokernel/sched.h:110-113 | the number of kthreads to spare is the length of the idle list |
| `IasPolicy.Ias.constructor` | iokernel/ias.c:623-630 | every core outside the scheduler's counts as reserved, no other does |
| `IasPolicy.Ias.MarkCongested` | iokernel/ias.c:57-67 | flags and lists agree, and a proc is starved only when latency-critical, congested and without a core |
| `IasPolicy.Ias.UnmarkCongested` | iokernel/ias.c:69-78 | the proc is neither congested nor starved |
| `IasPolicy.Ias.Reserve` | iokernel/ias.c:122-156 | succeeds exactly when enough cores are free; then exactly g unreserved cores, in whole pairs, are added; otherwise the xor restores the bitmap |
| `IasPolicy.Ias.Attach` | iokernel/ias.c:92-156 | the reservation of an admitted proc never fails; odd guarantees are refused with hyperthreads; reservations stay disjoint and exact |
| `IasPolicy.Ias.Detach` | iokernel/ias.c:158-175 | the xor gives back exactly the proc's reservation; no core, mark or count of it is left; punished cores stay with their reserver if and only if the proc owned none of them |
| `IasPolicy.Ias.RunKthreadOnCore` | iokernel/ias.c:177-202 | on success the proc owns the core, is counted and is no longer starved; on failure nothing changes |
| `IasPolicy.Ias.IdlePlaceholderOnCore` | iokernel/ias.c:211-227 | the core idles in the proc's name; starved procs stay without cores because a placeholder's owner already has one |
| `IasPolicy.Ias.IdleOnCore` | iokernel/ias.c:235-250 | the core is unowned and marked idle |
| `IasPolicy.NoPreemptingBack` | iokernel/ias.c:252-278 | after any permitted preemption the victim may not take the core back |
| `IasPolicy.Ias.ChooseCore` | iokernel/ias.c:330-349 | for any scores, the best of the cores the proc may take, if there is one |
| `IasPolicy.Ias.CanAddKthread` | iokernel/ias.c:358-372 | true exactly when some allowed core may be taken |
| `IasPolicy.Ias.FindCore` | iokernel/ias.c:374-396 | the core is free or not reserved by its owner; only the proc's own cores change |
| `IasPolicy.Ias.AddKthread` | iokernel/ias.c:374-400 | no other proc loses a core it has reserved |
| `IasPolicy.Ias.NotifyCoreNeeded` | iokernel/ias.c:402-415 | the proc ends with a core or marked congested |
| `IasPolicy.Ias.NotifyCongested` | iokernel/ias.c:417-450 | an uncongested proc is unmarked and keeps its cores; a congested one has a core or is marked |
| `IasPolicy.ScoreOrder` | iokernel/ias.c:452-463 | the score puts a reservation first and latency-criticality second, whatever the burst |
| `IasPolicy.Ias.ChooseKthread` | iokernel/ias.c:465-491 | the longest starved proc, for which the assertion of no active core holds; else the best congested proc below its limit |
| `IasPolicy.Ias.AddKthreadOnCore` | iokernel/ias.c:499-513 | the core gets a new owner or nothing changes |
| `IasPolicy.Ias.BwPunish` | iokernel/ias_bw.c:138-153 | a best-effort owner is marked and gets the lower limit, the core goes to another proc or idles, all accounts are kept, and punished cores stay in order |
| `IasPolicy.Ias.BwRelax` | iokernel/ias_bw.c:155-174 | exactly a throttled and congested proc with the highest limit gets one more core, if there is one |
| `IasPolicy.Ias.BwPoll` | iokernel/ias_bw.c:207-250 | whatever bandwidth is measured, the controller's step keeps all accounts and the order of the punished cores; it lowers a limit exactly for a best-effort owner allowed more than its guarantee, and otherwise lowers none |
| `IasPolicy.ThrottledLimit` | iokernel/ias_bw.c:32-39 | the new limit is not negative and lower than the old one |
| `IasPolicy.ThrottleKeepsGuarantee` | iokernel/ias_bw.c:32-39 | the new limit of a proc above its guarantee stays at or above it if and only if the proc uses more cores than that, or is guaranteed none |
| `IasPolicy.ThrottledBelowGuarantee` | iokernel/ias_bw.c:32-39 | a run of attaching a best-effort proc with two guaranteed cores, running it on one and throttling it, after which its limit is zero |
| `BwSamples.StepKeeps` | iokernel/ias_bw.c:41-74 | changes of owner, requests, failed reads, the swap of the samples and the overwritten generation of a victim keep every sample at or behind its core's generation, and those of latency-critical owners behind it |
| `BwSamples.CountsBestEffort` | iokernel/ias_bw.c:88-99 | in every run a core whose samples count belongs to a best-effort proc |
| `BwSamples.RateShows` | iokernel/ias_bw.c:84-99 | a latency-critical proc has no miss rate, and one that has a miss rate has a core with misses |
| `BwSamples.ChooseVictim` | iokernel/ias_bw.c:76-136 | the victim is best-effort, allowed more than its guarantee, has the highest miss rate of the eligible procs, and the core is its worst; there is one if and only if some eligible proc misses at all, so the search for its core never fails |
| `IasPolicy.Ias.MayPunish` | iokernel/ias_ht.c:39-60 | yes exactly when the proc has reserved the core, neither core of the pair is punished, and the sibling's owner may be made to give way |
| `IasPolicy.Ias.PunishSibling` | iokernel/ias_ht.c:62-71 | the sibling, also reserved by the proc, is idled in its name; the punished set grows by it and the counter by one |
| `IasPolicy.Ias.HtPunish` | iokernel/ias_ht.c:39-76 | all accounts are kept and no third proc loses a core it has reserved |
| `IasPolicy.Ias.HtRelax` | iokernel/ias_ht.c:78-92 | the sibling is not punished afterwards, and counters and set still match |
| `IasPolicy.Ias.ChoosePunished` | iokernel/ias_ht.c:169-190 | a punished core of the proc with the least budget used by its sibling, if it has one and punishes at all |
| `IasPolicy.Ias.Relinquish` | iokernel/ias_ht.c:169-201 | a punished core of the proc itself is let go, or nothing changes |
| `IasPolicy.Ias.HtPoll` | iokernel/ias_ht.c:150-161 | for any order of cores and any budgets and scores, read anew in every round, all accounts and the order of the punished cores are kept |
| `IasPolicy.Ias.SchedPoll` | iokernel/ias.c:561-608 | the policy's whole poll, with both controllers, keeps all accounts, the order of the punished cores and the agreement with the core state machine |
| `IasPolicy.Ias.SlowPass` | iokernel/sched.c:707-735 | whatever the slow pass measures and for whichever procs, it keeps them too |
| `IasPolicy.Ias.Poll` | iokernel/sched.c:698-791 | a whole sched_poll under this policy, slow pass, fast pass and policy, keeps them too |
| `IasPolicy.FreeCount` | iokernel/sched.c:815-841 | the unreserved cores are the core count less all guarantees |
| `IasPolicy.Accounting` | iokernel/ias.c:122-156 | a summary of the invariant that every operation keeps: reservations are disjoint and exactly as large as promised, counters count owned cores, starved procs own none, punish minus relax is the number of punished cores |
| `IasPolicy.PunishedRunsNothing` | iokernel/ias_ht.c:62-71 | while punished cores are in order, which every operation but detaching keeps and detaching keeps under an exact condition, a punished core is meant to run nothing and is owned by the latency-critical proc that has reserved it |
| `IasPolicy.DetachStrandsPunished` | iokernel/ias.c:158-175 | a run of attaching, running, punishing and detaching after which a punished core is nobody's |
| `IasPolicy.BusyAtMostActive` | iokernel/ias.c:177-202 | the owned cores not marked idle are at most the proc's active kthreads |
| `Rcu.StepKeeps` | runtime/rcu.c:41-112 | every step of kthreads, freeing threads and the worker keeps the invariant, including wrapping counters and the +2 switch |
| `Rcu.CheckingKeepsSample` | runtime/rcu.c:69-75 | a counter that is even or no longer the sampled value shows that no section open at sampling is still open |
| `Rcu.ReleasedAfterGrace` | runtime/rcu.c:41-91 | in every run, when an object is released every open read section began after the object was freed, and every kthread sampled with an odd counter has since switched user threads or entered the scheduler |
| `Rcu.FreedIsAccounted` | runtime/rcu.c:98-112 | in every run freed objects are waiting, in the batch or released, each once |
| `Rcu.WorkerSeesObjects` | runtime/rcu.c:48-112 | while objects wait, the worker is parked if and only if exactly one freeing thread holds its handle, and that thread's next step wakes it: no wake-up is lost |
| `Rcu.ReadiesParkedWorker` | runtime/rcu.c:98-112 | a freeing thread makes ready only a worker that is parked |
| `TimerHeap.Timers.constructor` | runtime/timer.c:301-315 | an empty heap, nothing armed, the largest time published |
| `TimerHeap.Timers.SiftUp` | runtime/timer.c:53-68 | from a heap out of order only around one position, that position is in order with its parent and all back-pointers are right |
| `TimerHeap.Timers.SiftDown` | runtime/timer.c:70-95 | restores heap order everywhere and keeps array and back-pointers inverse |
| `TimerHeap.Timers.EarliestChild` | runtime/timer.c:76-86 | the earliest of the up to four children, if one is before the timer |
| `TimerHeap.Timers.UpdateQPtrs` | runtime/timer.c:97-104 | publishes the time of the root in 64-bit arithmetic, or the largest value |
| `TimerHeap.Timers.Start` | runtime/timer.c:124-165 | arms exactly the given entry with its deadline; heap, back-pointers and published time are right |
| `TimerHeap.Timers.Vacate` | runtime/timer.c:191-199 | the last timer fills the gap, and order is broken only around it |
| `TimerHeap.Timers.Cancel` | runtime/timer.c:174-206 | removes exactly the given entry from anywhere in the heap, or reports that it was not armed |
| `TimerHeap.Timers.RootIsEarliest` | runtime/timer.c:53-95 | in a heap no timer is before the root |
| `TimerHeap.Timers.Fire` | runtime/timer.c:259-271 | fires an armed entry that none is before, and only it |
| `TimerHeap.Timers.Softirq` | runtime/timer.c:250-282 | fires distinct due timers in order of their deadlines, each not before its time, and stops only when none is due or preempted |
| `TimerHeap.Timers.PublishedIsEarliest` | runtime/timer.c:97-104 | the published time belongs to a timer none is before, or none is armed |
| `TimerHeap.Timers.IsValidHeap` | runtime/timer.c:28-41 | true exactly when all positions but 1 are in order; together with position 1 that is the heap property |
| `TimerHeap.SkipsSecondEntry` | runtime/timer.c:28-41 | a heap of two entries out of order that is_valid_heap accepts |
| `Slab.BlocksDisjoint` | base/slab.c:290-320 | different blocks of a page do not overlap and lie in the page |
| `Slab.CreatedSlabsFit` | base/slab.c:172-189 | every slab that slab_create makes keeps its blocks in its pages and has at least eight of them |
| `Slab.InPageExactly` | base/slab.c:55-72 | all blocks lie in the page if and only if the last one ends in it |
| `Slab.SmallPageSlabFits` | base/slab.c:499-502 | the slab of small pages keeps its blocks in its pages |
| `Slab.NodeSlabLeavesPage` | base/slab.c:494-497 | of the 46 blocks of the node slab exactly the first 42 lie in the page |
| `Slab.SlabNode.constructor` | base/slab.c:55-72 | an empty node is consistent |
| `Slab.SlabNode.GetPage` | base/slab.c:266-288 | a partly free page, else a fresh one; none exactly when both have run out; no page is lost |
| `Slab.SlabNode.TakeBlock` | base/slab.c:306-319 | a block not in use, from the free list or from the frontier, which is the current page's whenever it is used |
| `Slab.SlabNode.Alloc` | base/slab.c:290-320 | an item nobody has is added to those in use and one block less can be reached; or no block can be reached, which is the only reason to fail, and the items in use are unchanged |
| `Slab.SlabNode.Free` | base/slab.c:343-377 | the item is no longer in use; the page is released if and only if it is not the current one and the item was its last in use |
| `Slab.SlabNode.TcacheAlloc` | base/slab.c:391-413 | all the items, distinct and new, exactly when so many blocks can be reached; else none, with everything in use as before |
| `Slab.SlabNode.TcacheFree` | base/slab.c:415-424 | exactly the given items are no longer in use |
| `Slab.SlabNode.LiveItemsDisjoint` | base/slab.c:290-320 | items in use are disjoint stretches of bytes inside their pages |
| `Slab.LastInUse` | base/slab.c:367-370 | of a fully carved page, item_count reaches nr_elems with the last item in use and not before |
| `Tcache.Cache.constructor` | base/tcache.c:156-196 | empty handles are consistent |
| `Tcache.Cache.AllocMag` | base/tcache.c:30-52 | a full magazine of items new to the cache exactly when the slab can fill one, else none; the balance with the slab is kept |
| `Tcache.Cache.LoadPrevious` | base/tcache.c:83-87 | the full previous magazine is loaded, no item lost |
| `Tcache.Cache.LoadShared` | base/tcache.c:91-98 | a full shared magazine is loaded, no item lost |
| `Tcache.Cache.Unload` | base/tcache.c:122-136 | loaded becomes previous, and a full previous one is shared |
| `Tcache.Cache.Alloc` | inc/base/tcache.h:68-78 | an item of the slab that is not in use becomes in use; it fails if and only if the thread's two magazines and the shared pool are empty and the slab cannot fill a magazine |
| `Tcache.Cache.Free` | inc/base/tcache.h:85-95 | the item is cached again and no longer in use |
| `Tcache.Cache.FreeMag` | base/tcache.c:54-69 | the magazine holds exactly mag_size distinct items of the slab, which get back to it |
| `Tcache.Cache.Reclaim` | base/tcache.c:202-216 | all shared magazines, and nothing else, go back to the slab; the magazine count falls by their number |
| `Tcache.Cache.InUseDisjoint` | base/tcache.c:72-142 | items handed out are disjoint stretches of bytes of the slab's pages |
| `Sync.RwMutex.constructor` | runtime/sync.c:91-98 | nobody holds or waits |
| `Sync.RwMutex.RdLock` | runtime/sync.c:104-118 | admitted exactly without a writer, else queued; nobody else changes |
| `Sync.RwMutex.TryRdLock` | runtime/sync.c:126-136 | admitted exactly without a writer, else nothing changes |
| `Sync.RwMutex.WrLock` | runtime/sync.c:142-155 | admitted exactly when nobody holds the lock, else queued |
| `Sync.RwMutex.TryWrLock` | runtime/sync.c:163-173 | admitted exactly when nobody holds the lock, else nothing changes |
| `Sync.RwMutex.Unlock` | runtime/sync.c:179-220 | the last holder lets in all waiting readers, else the first waiting writer; exactly those are woken, and nobody is left waiting who could be let in |
| `Sync.RwMutex.WriterExcludesAll` | runtime/sync.c:104-220 | a summary of the invariant that every operation keeps: a writer is the only holder |
| `Sync.Barrier.constructor` | runtime/sync.c:439-445 | nobody waits |
| `Sync.Barrier.Wait` | runtime/sync.c:453-479 | the call that completes a round releases all its threads, which are exactly count with the caller; other calls wait |
| `Sync.Barrier.Arrivals` | runtime/sync.c:453-479 | over any sequence of arrivals the rounds are its consecutive stretches of count threads |
| `Sync.WaitGroup.Add` | runtime/sync.c:378-398 | all waiters are woken exactly when the count becomes zero |
| `Sync.WaitGroup.Wait` | runtime/sync.c:404-416 | returns at once exactly when the count is zero, else waits |
| `Jenkins.ThirdBack` | base/jenkins_hash.c:79-87 | a third of a mixing round has an inverse on both sides |
| `Jenkins.MixBack` | base/jenkins_hash.c:79-87 | mix followed by its reverse is the identity on all triples |
| `Jenkins.UnmixBack` | base/jenkins_hash.c:79-87 | the reverse followed by mix is the identity on all triples |
| `Jenkins.StatesStayApart` | base/jenkins_hash.c:136-181 | different states stay different under any following blocks |
| `Jenkins.OneBlockTold` | base/jenkins_hash.c:136-181 | two keys of equal length that differ in one block only reach different states before the final step |
| `Jenkins.BlocksOfMixed` | base/jenkins_hash.c:136-181 | the hash is the final step of that state |
| `Jenkins.TailByWords` | base/jenkins_hash.c:166-181 | the masked last block adds exactly the key's remaining bytes |
| `Jenkins.MaskedLoad` | base/jenkins_hash.c:166-181 | what lies behind the key in its last word does not matter |
| `Jenkins.LaneByHalves` | base/jenkins_hash.c:221-250 | the fall-through cases by half-words add up to the padded word |
| `Jenkins.LaneByBytes` | base/jenkins_hash.c:275-292 | the fall-through cases by bytes add up to the padded word |
| `Jenkins.HashByWords` | base/jenkins_hash.c:136-181 | the loop over words returns the hash of the key's bytes |
| `Jenkins.HashByHalves` | base/jenkins_hash.c:205-250 | the loop over half-words returns the same |
| `Jenkins.HashByBytes` | base/jenkins_hash.c:252-292 | the loop over bytes returns the same |
| `Jenkins.JenkinsHash` | base/jenkins_hash.c:126-297 | for every address, key and length the result depends on the key's bytes alone |

## Left out

- I/O plumbing (sockets, shared-memory mapping, DPDK, SPDK, mlx5, PCI, sysfs), logging, statistics and configuration: wrappers over libraries.
- Mutexes, condition variables and timed waits: their fast paths are inline or their outcome depends on timer races; only the hand-off primitives of `Sync.dfy` are modelled.
- The preempted-queue twins of the run queue functions: the same code on a second queue.
- The garbage collector, the NUMA policy and vfio directpath: the first two are incomplete in the source, the third adds callbacks only.
- `oldest_tsc`, the idle-core statistics and the delay measurement: they feed decisions that are arbitrary parameters here.
- Stack switching assembly and signal delivery in user space: a switch is the step "frame saved, then running cleared".
- Liveness: that spin loops end, that timers are polled, that a kernel takes up a request.
- Storage and packet queues: whether a kthread has packets queued or I/O pending is a parameter.
- In `CoreSched.dfy` each of a core's two polls is one step; kernel steps happen before and between them.
- In `CoreSched.dfy` the procs of a run are fixed at its start; attaching and detaching them is part of the two policies.
- SimplePolicy.Policy.Attach: guarantees are natural numbers; the sum in the source is taken in 32 bits, which makes no difference for guarantees that fit an int.
- SimplePolicy.Policy.NotifyCongested: the delay signals are one parameter.
- IasPolicy.Ias.ChooseCore: scores are natural numbers in place of floating point ones.
- IasPolicy.Ias.HtPoll: budgets are parameters; the order of the cores is any sequence, of which the sorted one is an instance.
- IasPolicy.Ias.SchedPoll: the time sharing controller `ias_ts_poll` is left out; it sends yield interrupts and changes nothing of the policy or the core state.
- IasPolicy.Ias.BwPoll: the measured bandwidth, and with it whether to relax or to throttle and which core, is a parameter; the samples and the choice are those of `BwSamples.dfy`.
- BwSamples.ChooseVictim: miss rates are real numbers, and procs are visited in the order of their numbers.
- CoreLink.SignalsAreInTime: after a missed request only a task of no later generation is promised, since the exact task is not reached then (`CoreLink.SignalsExactly`).
- CoreSched.Dataplane.KernelAct: the simplified kernel neither misses requests nor takes them twice; where the module does, `Machine.StrayBreaksView` and `Machine.RestartBreaksView` show it.
- RunQueueSteps.NothingLost: one queue; `Stealing.NothingLost` spans all queues.
- Machine.System.ModuleStep: missed requests and links with 2^31 requests are excluded, since the view does not hold then (`Machine.StrayBreaksView`, `Machine.RestartBreaksView`).
- CoreSched.RunsOnOneCore: about the simplified kernel; what it says of the kernel module is `Machine.NoTaskOnTwoCores`.
- CoreSched.IdlePoolIsFree: about the simplified kernel; what it says of the kernel module is `Machine.PooledTaskIsStopped`.
- Rcu.StepKeeps: a read section that blocks is excluded, as the program stops on it (`runtime/sched.c:446`).
- TimerHeap.Timers.Softirq: the handlers it calls do not start timers in this method; each other operation can be called between its rounds.
- Slab.SlabNode.Alloc: one NUMA node; the page allocator is a supply of page numbers.
- Slab.SlabNode.TcacheAlloc: giving back the items of a failed batch, after the lock is dropped, is part of the same step.
- Slab.SlabNode.TcacheFree: the items are of one NUMA node; the choice of the calling thread's node is left out.
- Tcache.Cache.Alloc: the threads' operations are interleaved as whole calls.
- Sync.WaitGroup.Add: a count below zero, on which the program stops, is excluded.
