/**
 Read-copy-update: the per-kthread generation counters, which are odd while a user thread
 runs and even in the scheduler, and the worker that waits for a grace period before it
 releases objects.  All interleavings of kthreads, rcu_free callers and the worker.
 */
module Rcu {
  const U32: nat := 0x1_0000_0000

  /**
   A kthread: its rcu_gen, the nesting of read sections, when the outermost one began, and how
   often the kthread has switched user threads or crossed the scheduler's border.
   */
  datatype Kthread = Kthread(gen: nat, depth: nat, since: nat, moves: nat)

  /** A freed object and when rcu_free put it on the list. */
  datatype Object = Object(id: nat, freed: nat)

  datatype Phase =
    | Looking            // about to take rcu_lock and look at the list
    | Parked             // waiting for rcu_free to wake it
    | Sampling           // reading the counters one by one into last
    | Sleeping           // timer_sleep
    | Checking(i: nat)   // comparing counter i
    | Releasing          // running the callbacks of the batch

  /** The worker's local variables; stamps[i] is when counter i was read, and moves[i] its kthread's moves by then. */
  datatype Worker = Worker(phase: Phase, batch: seq<Object>, last: seq<nat>, stamps: seq<nat>, moves: seq<nat>)

  datatype State = State(
    kts: seq<Kthread>, head: seq<Object>,        // rcu_head
    waiting: bool,            // rcu_worker_th != NULL
    handles: nat,             // freeing threads that hold the worker's handle and have yet to ready it
    worker: Worker, clock: nat, freed: seq<Object>,       // everything ever passed to rcu_free
    released: seq<Object>)

  datatype Step =
    | EnterScheduler(k: nat)  // schedule, or thread_finish_cede giving up the core
    | LeaveScheduler(k: nat)  // into a user thread, or back from a cede
    | SwitchThread(k: nat)    // enter_schedule's direct switch
    | ReadLock(k: nat)
    | ReadUnlock(k: nat)
    | Free(id: nat)           // the locked section of rcu_free, or of synchronize_rcu
    | ReadyWorker             // thread_ready on the handle taken
    | WorkerStep

  function Odd(gen: nat): bool { gen % 2 == 1 }

  /** An unsigned int counter wraps; its parity does not notice. */
  function Bump(gen: nat, n: nat): nat { if gen + n >= U32 then gen + n - U32 else gen + n }

  /** A read section disables preemption, and the switch paths stop the program when it is still disabled. */
  predicate Enabled(s: State, step: Step) {
    match step
    case EnterScheduler(k) => k < |s.kts| && Odd(s.kts[k].gen) && s.kts[k].depth == 0
    case LeaveScheduler(k) => k < |s.kts| && !Odd(s.kts[k].gen)
    case SwitchThread(k) => k < |s.kts| && Odd(s.kts[k].gen) && s.kts[k].depth == 0
    case ReadLock(k) => k < |s.kts| && Odd(s.kts[k].gen)
    case ReadUnlock(k) => k < |s.kts| && s.kts[k].depth > 0
    case Free(id) => true
    case ReadyWorker => s.handles > 0
    case WorkerStep => s.worker.phase != Parked
  }

  function DoBump(s: State, k: nat, n: nat): State
    requires k < |s.kts|
  {
    var t := s.kts[k];
    s.(kts := s.kts[k := t.(gen := Bump(t.gen, n), moves := t.moves + 1)])
  }

  function DoRead(s: State, k: nat): State
    requires k < |s.kts|
  {
    var t := s.kts[k];
    s.(kts := s.kts[k := t.(depth := t.depth + 1, since := if t.depth == 0 then s.clock else t.since)])
  }

  /** The caller takes the worker's handle under the lock; it readies it afterwards. */
  function DoFree(s: State, id: nat): State {
    var o := Object(id, s.clock);
    s.(head := [o] + s.head, freed := s.freed + [o], waiting := false,
       handles := if s.waiting then s.handles + 1 else s.handles)
  }

  function DoReady(s: State): State
    requires s.handles > 0
  {
    s.(handles := s.handles - 1, worker := if s.worker.phase == Parked then s.worker.(phase := Looking) else s.worker)
  }

  function DoWorker(s: State): State {
    var w := s.worker;
    match w.phase
    case Looking =>
      if s.head == [] then s.(waiting := true, worker := w.(phase := Parked))
      else s.(head := [], worker := Worker(Sampling, s.head, [], [], []))
    case Parked => s
    case Sampling =>
      if |w.last| < |s.kts|
      then var t := s.kts[|w.last|];
           s.(worker := w.(last := w.last + [t.gen], stamps := w.stamps + [s.clock], moves := w.moves + [t.moves]))
      else s.(worker := w.(phase := Sleeping))
    case Sleeping => s.(worker := w.(phase := Checking(0)))
    case Checking(i) =>
      if i < |s.kts| && i < |w.last|
      then if Odd(s.kts[i].gen) && s.kts[i].gen == w.last[i] then s.(worker := w.(phase := Sleeping))
           else s.(worker := w.(phase := Checking(i + 1)))
      else s.(worker := w.(phase := Releasing))
    case Releasing =>
      if w.batch == [] then s.(worker := w.(phase := Looking))
      else s.(worker := w.(batch := w.batch[1..]), released := s.released + [w.batch[0]])
  }

  function Do(s: State, step: Step): State
    requires Enabled(s, step)
  {
    var s' := match step
      case EnterScheduler(k) => DoBump(s, k, 1)
      case LeaveScheduler(k) => DoBump(s, k, 1)
      case SwitchThread(k) => DoBump(s, k, 2)
      case ReadLock(k) => DoRead(s, k)
      case ReadUnlock(k) => s.(kts := s.kts[k := s.kts[k].(depth := s.kts[k].depth - 1)])
      case Free(id) => DoFree(s, id)
      case ReadyWorker => DoReady(s)
      case WorkerStep => DoWorker(s);
    s'.(clock := s.clock + 1)
  }

  // ------------------------------------------------------------------ invariant

  predicate Quiet(t: Kthread, stamp: nat) {
    t.depth > 0 ==> t.since >= stamp
  }

  /** A section that was open when the counter was read still runs under the value read. */
  predicate Tracked(t: Kthread, last: nat, stamp: nat) {
    Quiet(t, stamp) || (t.gen == last && Odd(t.gen))
  }

  /** A kthread that has not moved since its counter was read still shows the value read. */
  predicate Moved(t: Kthread, last: nat, moves: nat) {
    t.moves >= moves && (t.moves == moves ==> t.gen == last)
  }

  predicate KtOk(t: Kthread, clock: nat) {
    t.gen < U32 && (t.depth > 0 ==> Odd(t.gen) && t.since < clock)
  }

  /** How many counters have passed the current check. */
  function Passed(w: Worker, n: nat): nat {
    match w.phase
    case Checking(i) => if i <= n then i else n
    case Releasing => n
    case _ => 0
  }

  /** The worker holds a batch and is reading, or has read, the counters. */
  predicate Waiting(p: Phase) { p == Sampling || p == Sleeping || p.Checking? || p == Releasing }

  ghost predicate SampleInv(s: State) {
    var w := s.worker;
    Waiting(w.phase) ==>
      && |w.last| == |w.stamps| == |w.moves| <= |s.kts|
      && (w.phase != Sampling ==> |w.last| == |s.kts|)
      && (forall k :: 0 <= k < |w.last| ==> w.stamps[k] <= s.clock && Tracked(s.kts[k], w.last[k], w.stamps[k]))
      && (forall k :: 0 <= k < |w.last| ==> Moved(s.kts[k], w.last[k], w.moves[k]))
      && (forall k :: 0 <= k < Passed(w, |w.last|) ==>
            Quiet(s.kts[k], w.stamps[k]) && (Odd(w.last[k]) ==> s.kts[k].moves > w.moves[k]))
      && (forall o :: o in w.batch ==> o.freed < s.clock && forall k :: 0 <= k < |w.stamps| ==> o.freed < w.stamps[k])
  }

  ghost predicate ListInv(s: State) {
    && (s.worker.phase == Parked <==> s.waiting || s.handles > 0)
    && (s.waiting ==> s.head == [] && s.handles == 0)
    && s.handles <= 1
    && (s.worker.phase == Looking || s.worker.phase == Parked ==> s.worker.batch == [])
    && (forall o :: o in s.head ==> o.freed < s.clock)
    && multiset(s.freed) == multiset(s.head) + multiset(s.worker.batch) + multiset(s.released)
  }

  ghost predicate Inv(s: State) {
    && (forall k :: 0 <= k < |s.kts| ==> KtOk(s.kts[k], s.clock))
    && SampleInv(s)
    && ListInv(s)
  }

  predicate Init(s: State) {
    && (forall k :: 0 <= k < |s.kts| ==> s.kts[k] == Kthread(1, 0, 0, 0))
    && s.head == [] && !s.waiting && s.handles == 0 && s.worker == Worker(Looking, [], [], [], []) && s.clock == 0
    && s.freed == [] && s.released == []
  }

  lemma InitInv(s: State)
    requires Init(s)
    ensures Inv(s)
  {
  }

  lemma ListKept(s: State, s': State)
    requires ListInv(s) && s' == s.(kts := s'.kts, clock := s.clock + 1)
    ensures ListInv(s')
  {
  }

  /** The steps of a kthread change that kthread alone; what it must not break is about that kthread alone. */
  lemma KthreadKeeps(s: State, s': State, k: nat)
    requires Inv(s) && k < |s.kts| == |s'.kts| && s' == s.(kts := s.kts[k := s'.kts[k]], clock := s.clock + 1)
    requires KtOk(s'.kts[k], s'.clock) && KtStep(s.kts[k], s'.kts[k], s.clock)
    ensures Inv(s')
  {
    hide ListInv, KtStep;
    ListKept(s, s');
    var w := s.worker;
    forall j | 0 <= j < |s'.kts| ensures KtOk(s'.kts[j], s'.clock) {
      assert KtOk(s.kts[j], s.clock);
    }
    if Waiting(w.phase) {
      forall j | 0 <= j < |w.last|
        ensures w.stamps[j] <= s'.clock && Tracked(s'.kts[j], w.last[j], w.stamps[j])
        ensures Moved(s'.kts[j], w.last[j], w.moves[j])
        ensures Quiet(s.kts[j], w.stamps[j]) ==> Quiet(s'.kts[j], w.stamps[j])
        ensures s'.kts[j].moves >= s.kts[j].moves
      {
        assert Tracked(s.kts[j], w.last[j], w.stamps[j]) && Moved(s.kts[j], w.last[j], w.moves[j]);
        if j == k {
          KtStepKeeps(s.kts[k], s'.kts[k], s.clock, w.last[k], w.stamps[k], w.moves[k]);
        }
      }
    }
  }

  /** A kthread moves with no section open, or opens or closes a section without moving. */
  predicate KtStep(t: Kthread, t': Kthread, clock: nat) {
    || (t.depth == 0 == t'.depth && t'.moves == t.moves + 1)
    || (t'.gen == t.gen && t'.moves == t.moves && Odd(t.gen)
        && (if t.depth == 0 then t'.since == clock else t'.since == t.since))
  }

  lemma KtStepKeeps(t: Kthread, t': Kthread, clock: nat, last: nat, stamp: nat, moves: nat)
    requires KtStep(t, t', clock) && Tracked(t, last, stamp) && Moved(t, last, moves) && stamp <= clock
    ensures Tracked(t', last, stamp) && Moved(t', last, moves) && t'.moves >= t.moves
    ensures Quiet(t, stamp) ==> Quiet(t', stamp)
  {
  }

  lemma FreeKeeps(s: State, id: nat)
    requires Inv(s)
    ensures Inv(Do(s, Free(id)))
  {
  }

  lemma ReadyKeeps(s: State)
    requires Inv(s) && s.handles > 0
    ensures Inv(Do(s, ReadyWorker))
  {
  }

  lemma WorkerKeepsList(s: State)
    requires ListInv(s) && s.worker.phase != Parked
    ensures ListInv(Do(s, WorkerStep))
  {
    var w := s.worker;
    if w.phase == Releasing && w.batch != [] {
      assert w.batch == [w.batch[0]] + w.batch[1..];
    }
  }

  /** The batch taken from the list was freed before any counter is read. */
  lemma LookingKeepsSample(s: State)
    requires Inv(s) && (s.worker.phase == Looking || s.worker.phase == Sleeping || s.worker.phase == Releasing)
    ensures SampleInv(Do(s, WorkerStep))
  {
  }

  lemma SamplingKeepsSample(s: State)
    requires Inv(s) && s.worker.phase == Sampling
    ensures SampleInv(Do(s, WorkerStep))
  {
    var s', w := Do(s, WorkerStep), s.worker;
    forall k | 0 <= k < |s'.worker.last|
      ensures s'.worker.stamps[k] <= s'.clock && Tracked(s'.kts[k], s'.worker.last[k], s'.worker.stamps[k])
    {
      assert KtOk(s.kts[k], s.clock);
    }
  }

  /** A counter that is even, or no longer the value read, shows that no old section is open. */
  lemma CheckingKeepsSample(s: State)
    requires Inv(s) && s.worker.phase.Checking?
    ensures SampleInv(Do(s, WorkerStep))
  {
    var s', w, i := Do(s, WorkerStep), s.worker, s.worker.phase.i;
    if i < |s.kts| {
      assert KtOk(s.kts[i], s.clock) && Tracked(s.kts[i], w.last[i], w.stamps[i])
             && Moved(s.kts[i], w.last[i], w.moves[i]);
    }
  }

  lemma WorkerKeeps(s: State)
    requires Inv(s) && Enabled(s, WorkerStep)
    ensures Inv(Do(s, WorkerStep))
  {
    hide SampleInv, ListInv;
    WorkerKeepsList(s);
    match s.worker.phase {
      case Sampling => SamplingKeepsSample(s);
      case Checking(_) => CheckingKeepsSample(s);
      case _ => LookingKeepsSample(s);
    }
    forall k | 0 <= k < |s.kts| ensures KtOk(s.kts[k], s.clock + 1) { assert KtOk(s.kts[k], s.clock); }
  }

  lemma StepKeeps(s: State, step: Step)
    requires Inv(s) && Enabled(s, step)
    ensures Inv(Do(s, step))
  {
    match step
    case Free(id) => FreeKeeps(s, id);
    case ReadyWorker => ReadyKeeps(s);
    case WorkerStep => WorkerKeeps(s);
    case _ =>
      var k := step.k;
      assert KtOk(s.kts[k], s.clock);
      KthreadKeeps(s, Do(s, step), k);
  }

  // ------------------------------------------------------------------ runs

  ghost predicate IsRun(run: seq<State>, steps: seq<Step>) {
    && |run| == |steps| + 1 && Init(run[0])
    && forall i :: 0 <= i < |steps| ==> Enabled(run[i], steps[i]) && run[i + 1] == Do(run[i], steps[i])
  }

  lemma {:induction false} RunInv(run: seq<State>, steps: seq<Step>, i: nat)
    requires IsRun(run, steps) && i < |run|
    ensures Inv(run[i])
  {
    if i == 0 {
      InitInv(run[0]);
    } else {
      RunInv(run, steps, i - 1);
      StepKeeps(run[i - 1], steps[i - 1]);
    }
  }

  /**
   The grace period: in every run, when an object is released, every read section that is still
   open began after the object was freed, and every kthread whose counter was odd when it was read,
   after the object was freed, has switched user threads or entered the scheduler since.
   */
  lemma ReleasedAfterGrace(run: seq<State>, steps: seq<Step>, i: nat, o: Object)
    requires IsRun(run, steps) && i < |steps| && run[i + 1].released == run[i].released + [o]
    ensures o in run[i].freed
    ensures forall k :: 0 <= k < |run[i].kts| && run[i].kts[k].depth > 0 ==> run[i].kts[k].since > o.freed
    ensures var w := run[i].worker;
            |w.last| == |w.stamps| == |w.moves| == |run[i].kts|
            && forall k :: 0 <= k < |w.last| ==>
                 w.stamps[k] > o.freed && (Odd(w.last[k]) ==> run[i].kts[k].moves > w.moves[k])
  {
    RunInv(run, steps, i);
    var s, w := run[i], run[i].worker;
    assert |s.released + [o]| == |s.released| + 1;
    assert steps[i] == WorkerStep && w.phase == Releasing && w.batch != [];
    assert (s.released + [o])[|s.released|] == o && (s.released + [w.batch[0]])[|s.released|] == w.batch[0];
    assert o in multiset(s.freed);
    forall k | 0 <= k < |s.kts| && s.kts[k].depth > 0 ensures s.kts[k].since > o.freed {
      assert Quiet(s.kts[k], w.stamps[k]);
    }
  }

  /** Nothing freed is lost or released twice. */
  lemma FreedIsAccounted(run: seq<State>, steps: seq<Step>, i: nat)
    requires IsRun(run, steps) && i < |run|
    ensures multiset(run[i].freed) == multiset(run[i].head) + multiset(run[i].worker.batch) + multiset(run[i].released)
  {
    RunInv(run, steps, i);
  }

  /**
   No lost wakeup: while objects wait the worker is parked only as long as exactly one freeing thread
   holds its handle, and that thread's next step wakes it.
   */
  lemma WorkerSeesObjects(run: seq<State>, steps: seq<Step>, i: nat)
    requires IsRun(run, steps) && i < |run| && (run[i].head != [] || run[i].worker.batch != [])
    ensures !run[i].waiting
    ensures run[i].worker.phase == Parked <==> run[i].handles == 1
    ensures run[i].handles == 1 ==>
              && Enabled(run[i], ReadyWorker) && Do(run[i], ReadyWorker).worker.phase == Looking
              && run[i].worker.batch == []
    ensures run[i].handles <= 1
  {
    RunInv(run, steps, i);
  }

  /** A freeing thread readies a worker that is parked, never one that runs. */
  lemma ReadiesParkedWorker(run: seq<State>, steps: seq<Step>, i: nat)
    requires IsRun(run, steps) && i < |steps| && steps[i] == ReadyWorker
    ensures run[i].worker.phase == Parked && run[i + 1].worker.phase == Looking && run[i + 1].handles == 0
  {
    RunInv(run, steps, i);
  }
}
