/**
 The thread_ready / thread_running handshake.  Any number of kthreads park, yield,
 wake, steal, cede and switch uthreads; every flag access that another kthread can
 observe is a step of its own.  In every reachable state a uthread's stack is in use
 by at most one kthread, it is entered only after its previous frame was saved, and
 every wake-up is consumed by exactly one pop.
 */
module Handshake {

  type Tid = nat
  type Kid = nat

  /** Where a kthread is. */
  datatype Pc =
    | Executing(th: Tid)                // user code on th's stack
    | Leaving(cur: Tid)                 // enter_schedule, still on cur's stack
    | Chosen(cur: Tid, next: Tid)       // popped next, still on cur's stack
    | Waiting(cur: Tid, next: Tid)      // cleared next's ready flag, spins on its running flag
    | Clear(cur: Tid, next: Tid)        // loaded next's running flag and found it clear
    | Claimed(cur: Tid, next: Tid)      // set next's running flag
    | Switched(cur: Tid, next: Tid)     // saved cur's frame, on next's stack, cur's running flag still set
    | Saved(cur: Tid)                   // jmp_runtime: saved cur's frame, on the runtime stack
    | Scheduling                        // schedule(), no current uthread
    | Picked(next: Tid)                 // schedule() popped next
    | Entering(next: Tid)               // jmp_thread: cleared ready, spins on running
    | Cleared(next: Tid)                // jmp_thread: found the running flag clear
    | Ceding(cur: Tid)                  // thread_finish_cede: frame saved, running still set
    | Ceded(cur: Tid)                   // running cleared, not yet queued again

  /** Where a uthread is to be found: auxiliary, the code does not record it. */
  datatype Place = Dead | Asleep | Queued(k: Kid) | With(k: Kid)

  datatype Holder = Nobody | Holder(k: Kid)

  /**
   The uthread flags, and auxiliary history: whether the saved frame is current, the
   place, the kthread that answers for the running flag, and counters.
   */
  datatype Uthread = Uthread(
    ready: bool, running: bool, saved: bool, place: Place, holder: Holder, wakes: nat, pops: nat)

  datatype State = State(thr: seq<Uthread>, pc: seq<Pc>, queue: seq<seq<Tid>>)

  /** The kthread answers for t's running flag. */
  predicate Holds(pc: Pc, t: Tid) {
    match pc
    case Executing(c) => t == c
    case Leaving(c) => t == c
    case Chosen(c, _) => t == c
    case Waiting(c, _) => t == c
    case Clear(c, _) => t == c
    case Claimed(c, n) => t == c || t == n
    case Switched(c, n) => t == c || t == n
    case Saved(c) => t == c
    case Ceding(c) => t == c
    case _ => false
  }

  /** The kthread is using t's stack. */
  predicate OnStack(pc: Pc, t: Tid) {
    match pc
    case Executing(c) => t == c
    case Leaving(c) => t == c
    case Chosen(c, _) => t == c
    case Waiting(c, _) => t == c
    case Clear(c, _) => t == c
    case Claimed(c, _) => t == c
    case Switched(_, n) => t == n
    case _ => false
  }

  /** The kthread has popped t or is executing it: nobody else may run or queue it. */
  predicate Token(pc: Pc, t: Tid) {
    match pc
    case Executing(c) => t == c
    case Chosen(_, n) => t == n
    case Waiting(_, n) => t == n
    case Clear(_, n) => t == n
    case Claimed(_, n) => t == n
    case Switched(_, n) => t == n
    case Picked(n) => t == n
    case Entering(n) => t == n
    case Cleared(n) => t == n
    case Ceding(c) => t == c
    case Ceded(c) => t == c
    case _ => false
  }

  predicate HoldsReadyToken(pc: Pc) { pc.Chosen? || pc.Picked? }

  // ------------------------------------------------ the invariant

  const NoThread := Uthread(false, false, false, Dead, Nobody, 0, 0)

  /** The record of uthread t. */
  function T(s: State, t: Tid): Uthread { if t < |s.thr| then s.thr[t] else NoThread }

  /** Kthread k and uthread t agree on who holds, has popped or has queued t. */
  ghost predicate Linked(s: State, k: Kid, t: Tid)
    requires k < |s.pc| == |s.queue|
  {
    && (Holds(s.pc[k], t) <==> T(s, t).holder == Holder(k))
    && (Token(s.pc[k], t) <==> T(s, t).place == With(k))
    && multiset(s.queue[k])[t] == (if T(s, t).place == Queued(k) then 1 else 0)
  }

  /** The flags of a live uthread say what its place and its holder say. */
  ghost predicate FlagInv(s: State, t: Tid) {
    var u := T(s, t);
    && (u.place.Dead? ==> u.holder.Nobody?)
    && (!u.place.Dead? ==> (u.running <==> u.holder.Holder?))
    && (!u.place.Dead? && !u.running ==> u.saved)
    && (u.holder.Holder? ==> u.holder.k < |s.pc|)
    && (u.place.Queued? ==> u.place.k < |s.pc| && u.ready)
    && (u.place.With? ==> u.place.k < |s.pc| && (u.ready <==> HoldsReadyToken(s.pc[u.place.k])))
    && (u.place.Asleep? ==> !u.ready)
    && (!u.place.Dead? ==> u.wakes == u.pops + (if u.ready then 1 else 0))
  }

  /**
   Frames that a kthread is about to give up, or to resume, have been saved; and a running flag
   that it saw clear is still clear.
   */
  predicate FrameInv(s: State, pc: Pc) {
    match pc
    case Clear(t, n) => T(s, n).saved && !T(s, n).running && t != n
    case Cleared(n) => T(s, n).saved && !T(s, n).running
    case Claimed(t, n) => T(s, n).saved && t != n
    case Switched(t, n) => T(s, t).saved && t != n
    case Saved(t) => T(s, t).saved
    case Ceding(t) => T(s, t).saved
    case _ => true
  }

  ghost predicate Inv(s: State) {
    && |s.pc| == |s.queue|
    && (forall k, t :: 0 <= k < |s.pc| ==> Linked(s, k, t))
    && (forall t :: FlagInv(s, t))
    && (forall k :: 0 <= k < |s.pc| ==> FrameInv(s, s.pc[k]))
  }

  // ------------------------------------------------ steps

  datatype Step =
    | Create(t: Tid)
    | Wake(t: Tid, atHead: bool)   // thread_ready, thread_ready_head
    | Park                         // thread_park_and_unlock_np released the lock
    | Yield                        // thread_yield queued the current uthread
    | PopDirect                    // enter_schedule, fast path
    | ClearReady
    | SeeStopped                   // the load that ends the spin on the running flag
    | Claim
    | SaveAndSwitch
    | ClearOldRunning
    | SlowPath                     // enter_schedule, slow path: jmp_runtime(schedule)
    | ClearSelfRunning
    | PopScheduled
    | Enter
    | Steal(victim: Kid, n: nat, merged: seq<Tid>)
    | CedeSave
    | CedeClear
    | CedeReady
    | Exit

  function Upd(s: State, t: Tid, u: Uthread): State {
    if t < |s.thr| then s.(thr := s.thr[t := u]) else s
  }

  function Dequeue(s: State, k: Kid): State
    requires k < |s.queue| && s.queue[k] != []
  {
    s.(queue := s.queue[k := s.queue[k][1..]])
  }

  function At(s: State, k: Kid, pc: Pc): State
    requires k < |s.pc|
  {
    s.(pc := s.pc[k := pc])
  }

  function Enqueue(s: State, k: Kid, t: Tid, atHead: bool): State
    requires k < |s.queue|
  {
    s.(queue := s.queue[k := if atHead then [t] + s.queue[k] else s.queue[k] + [t]])
  }

  function Woken(u: Uthread, k: Kid): Uthread { u.(ready := true, place := Queued(k), wakes := u.wakes + 1) }

  predicate Enabled(s: State, k: Kid, step: Step)
    requires k < |s.pc| == |s.queue|
  {
    var pc := s.pc[k];
    match step
    case Create(t) => pc.Executing? && t < |s.thr| && T(s, t).place.Dead?
    case Wake(t, _) => (pc.Executing? || pc.Scheduling?) && T(s, t).place.Asleep?  // only a parked uthread
    case Park => pc.Executing?
    case Yield => pc.Executing?
    case PopDirect => pc.Leaving? && s.queue[k] != []
    case ClearReady => pc.Chosen? || pc.Picked?
    case SeeStopped => (pc.Waiting? || pc.Entering?) && !T(s, pc.next).running
    case Claim => pc.Clear?
    case SaveAndSwitch => pc.Claimed?
    case ClearOldRunning => pc.Switched?
    case SlowPath => pc.Leaving?
    case ClearSelfRunning => pc.Saved?
    case PopScheduled => pc.Scheduling? && s.queue[k] != []
    case Enter => pc.Cleared?
    case Steal(r, n, merged) =>   // merge_runqueues keeps every thread and changes only the order
      && pc.Scheduling? && r < |s.queue| && r != k && n <= |s.queue[r]|
      && multiset(merged) == multiset(s.queue[k]) + multiset(s.queue[r][..n])
    case CedeSave => pc.Executing?
    case CedeClear => pc.Ceding?
    case CedeReady => pc.Ceded?
    case Exit => pc.Executing?
  }

  function Do(s: State, k: Kid, step: Step): State
    requires k < |s.pc| == |s.queue| && Enabled(s, k, step)
  {
    var pc := s.pc[k];
    match step
    case Create(t) => Upd(s, t, Uthread(false, false, true, Asleep, Nobody, 0, 0))
    case Wake(t, atHead) => Enqueue(Upd(s, t, Woken(T(s, t), k)), k, t, atHead)
    case Park => At(Upd(s, pc.th, T(s, pc.th).(place := Asleep)), k, Leaving(pc.th))
    case Yield => At(Enqueue(Upd(s, pc.th, Woken(T(s, pc.th), k)), k, pc.th, false), k, Leaving(pc.th))
    case PopDirect =>
      var t := s.queue[k][0];
      var u := T(s, t).(place := With(k));
      if t == pc.cur then At(Upd(Dequeue(s, k), t, u.(ready := false, pops := u.pops + 1)), k, Executing(t))
      else At(Upd(Dequeue(s, k), t, u), k, Chosen(pc.cur, t))
    case ClearReady =>
      var u := T(s, pc.next);
      At(Upd(s, pc.next, u.(ready := false, pops := u.pops + 1)), k,
         if pc.Chosen? then Waiting(pc.cur, pc.next) else Entering(pc.next))
    case SeeStopped => At(s, k, if pc.Waiting? then Clear(pc.cur, pc.next) else Cleared(pc.next))
    case Claim =>
      At(Upd(s, pc.next, T(s, pc.next).(running := true, holder := Holder(k))), k, Claimed(pc.cur, pc.next))
    case SaveAndSwitch =>
      At(Upd(Upd(s, pc.cur, T(s, pc.cur).(saved := true)), pc.next, T(s, pc.next).(saved := false)),
         k, Switched(pc.cur, pc.next))
    case ClearOldRunning => At(Upd(s, pc.cur, T(s, pc.cur).(running := false, holder := Nobody)), k, Executing(pc.next))
    case SlowPath => At(Upd(s, pc.cur, T(s, pc.cur).(saved := true)), k, Saved(pc.cur))
    case ClearSelfRunning => At(Upd(s, pc.cur, T(s, pc.cur).(running := false, holder := Nobody)), k, Scheduling)
    case PopScheduled =>
      var t := s.queue[k][0];
      At(Upd(Dequeue(s, k), t, T(s, t).(place := With(k))), k, Picked(t))
    case Enter =>
      At(Upd(s, pc.next, T(s, pc.next).(running := true, holder := Holder(k), saved := false)), k, Executing(pc.next))
    case Steal(r, n, merged) =>
      s.(queue := s.queue[k := merged][r := s.queue[r][n..]], thr := Moved(s.thr, s.queue[r][..n], k))
    case CedeSave => At(Upd(s, pc.th, T(s, pc.th).(saved := true)), k, Ceding(pc.th))
    case CedeClear => At(Upd(s, pc.cur, T(s, pc.cur).(running := false, holder := Nobody)), k, Ceded(pc.cur))
    case CedeReady => At(Enqueue(Upd(s, pc.cur, Woken(T(s, pc.cur), k)), k, pc.cur, true), k, Scheduling)
    case Exit => At(Upd(s, pc.th, T(s, pc.th).(place := Dead, holder := Nobody)), k, Scheduling)
  }

  /** The auxiliary places after a steal. */
  function Moved(thr: seq<Uthread>, ths: seq<Tid>, k: Kid): seq<Uthread> {
    seq(|thr|, i requires 0 <= i < |thr| => if i in ths then thr[i].(place := Queued(k)) else thr[i])
  }

  // ------------------------------------------------ every step keeps the invariant

  /** The part of the invariant that speaks about kthread j and uthread t. */
  ghost predicate InvAt(s: State, j: Kid, t: Tid)
    requires j < |s.pc| == |s.queue|
  {
    Linked(s, j, t) && FlagInv(s, t) && FrameInv(s, s.pc[j])
  }

  lemma CreateKept(s: State, k: Kid, step: Step, j: Kid, t: Tid)
    requires Inv(s) && k < |s.pc| && j < |s.pc| && Enabled(s, k, step)
    requires step.Create?
    ensures InvAt(Do(s, k, step), j, t)
  {
    assert InvAt(s, j, t) && InvAt(s, k, t);
    assert InvAt(s, k, FrameOf(s.pc[j])) && InvAt(s, j, FrameOf(s.pc[j]));
  }

  lemma WakeKept(s: State, k: Kid, step: Step, j: Kid, t: Tid)
    requires Inv(s) && k < |s.pc| && j < |s.pc| && Enabled(s, k, step)
    requires step.Wake?
    ensures InvAt(Do(s, k, step), j, t)
  {
    assert InvAt(s, j, t) && InvAt(s, k, t);
  }

  lemma ParkKept(s: State, k: Kid, step: Step, j: Kid, t: Tid)
    requires Inv(s) && k < |s.pc| && j < |s.pc| && Enabled(s, k, step)
    requires step.Park?
    ensures InvAt(Do(s, k, step), j, t)
  {
    assert InvAt(s, j, t) && InvAt(s, k, t);
  }

  lemma YieldKept(s: State, k: Kid, step: Step, j: Kid, t: Tid)
    requires Inv(s) && k < |s.pc| && j < |s.pc| && Enabled(s, k, step)
    requires step.Yield?
    ensures InvAt(Do(s, k, step), j, t)
  {
    assert InvAt(s, j, t) && InvAt(s, k, t);
  }

  lemma PopDirectKept(s: State, k: Kid, step: Step, j: Kid, t: Tid)
    requires Inv(s) && k < |s.pc| && j < |s.pc| && Enabled(s, k, step)
    requires step.PopDirect?
    ensures InvAt(Do(s, k, step), j, t)
  {
    assert InvAt(s, j, t) && InvAt(s, k, t);
    assert s.queue[k] == [s.queue[k][0]] + s.queue[k][1..];
    assert T(s, s.queue[k][0]).place == Queued(k) by { assert Linked(s, k, s.queue[k][0]); }
    var s' := Do(s, k, step);
    assert multiset(s'.queue[j])[t] == if T(s', t).place == Queued(j) then 1 else 0;
  }

  lemma ClearReadyKept(s: State, k: Kid, step: Step, j: Kid, t: Tid)
    requires Inv(s) && k < |s.pc| && j < |s.pc| && Enabled(s, k, step)
    requires step.ClearReady?
    ensures InvAt(Do(s, k, step), j, t)
  {
    assert InvAt(s, j, t) && InvAt(s, k, t);
  }

  lemma SeeStoppedKept(s: State, k: Kid, step: Step, j: Kid, t: Tid)
    requires Inv(s) && k < |s.pc| && j < |s.pc| && Enabled(s, k, step)
    requires step.SeeStopped?
    ensures InvAt(Do(s, k, step), j, t)
  {
    assert InvAt(s, j, t) && InvAt(s, k, t);
    assert InvAt(s, k, s.pc[k].next);
    if s.pc[k].Waiting? {
      assert InvAt(s, k, s.pc[k].cur);
    }
  }

  lemma ClaimKept(s: State, k: Kid, step: Step, j: Kid, t: Tid)
    requires Inv(s) && k < |s.pc| && j < |s.pc| && Enabled(s, k, step)
    requires step.Claim?
    ensures InvAt(Do(s, k, step), j, t)
  {
    assert InvAt(s, j, t) && InvAt(s, k, t);
    assert InvAt(s, k, s.pc[k].cur);
    assert InvAt(s, k, s.pc[k].next);
    assert InvAt(s, k, FrameOf(s.pc[j])) && InvAt(s, j, FrameOf(s.pc[j]));
  }

  lemma SaveAndSwitchKept(s: State, k: Kid, step: Step, j: Kid, t: Tid)
    requires Inv(s) && k < |s.pc| && j < |s.pc| && Enabled(s, k, step)
    requires step.SaveAndSwitch?
    ensures InvAt(Do(s, k, step), j, t)
  {
    assert InvAt(s, j, t) && InvAt(s, k, t);
    assert InvAt(s, k, s.pc[k].cur);
    assert InvAt(s, k, FrameOf(s.pc[j])) && InvAt(s, j, FrameOf(s.pc[j]));
  }

  lemma ClearOldRunningKept(s: State, k: Kid, step: Step, j: Kid, t: Tid)
    requires Inv(s) && k < |s.pc| && j < |s.pc| && Enabled(s, k, step)
    requires step.ClearOldRunning?
    ensures InvAt(Do(s, k, step), j, t)
  {
    assert InvAt(s, j, t) && InvAt(s, k, t);
  }

  lemma SlowPathKept(s: State, k: Kid, step: Step, j: Kid, t: Tid)
    requires Inv(s) && k < |s.pc| && j < |s.pc| && Enabled(s, k, step)
    requires step.SlowPath?
    ensures InvAt(Do(s, k, step), j, t)
  {
    assert InvAt(s, j, t) && InvAt(s, k, t);
    assert InvAt(s, k, s.pc[k].cur);
  }

  lemma ClearSelfRunningKept(s: State, k: Kid, step: Step, j: Kid, t: Tid)
    requires Inv(s) && k < |s.pc| && j < |s.pc| && Enabled(s, k, step)
    requires step.ClearSelfRunning?
    ensures InvAt(Do(s, k, step), j, t)
  {
    assert InvAt(s, j, t) && InvAt(s, k, t);
  }

  lemma PopScheduledKept(s: State, k: Kid, step: Step, j: Kid, t: Tid)
    requires Inv(s) && k < |s.pc| && j < |s.pc| && Enabled(s, k, step)
    requires step.PopScheduled?
    ensures InvAt(Do(s, k, step), j, t)
  {
    assert InvAt(s, j, t) && InvAt(s, k, t);
    assert s.queue[k] == [s.queue[k][0]] + s.queue[k][1..];
  }

  lemma EnterKept(s: State, k: Kid, step: Step, j: Kid, t: Tid)
    requires Inv(s) && k < |s.pc| && j < |s.pc| && Enabled(s, k, step)
    requires step.Enter?
    ensures InvAt(Do(s, k, step), j, t)
  {
    assert InvAt(s, j, t) && InvAt(s, k, t);
    assert InvAt(s, k, FrameOf(s.pc[j])) && InvAt(s, j, FrameOf(s.pc[j]));
    assert InvAt(s, k, s.pc[k].next);
  }

  lemma StealKept(s: State, k: Kid, step: Step, j: Kid, t: Tid)
    requires Inv(s) && k < |s.pc| && j < |s.pc| && Enabled(s, k, step)
    requires step.Steal?
    ensures InvAt(Do(s, k, step), j, t)
  {
    assert InvAt(s, j, t) && InvAt(s, k, t);
    var q := s.queue[step.victim];
    assert InvAt(s, step.victim, t);
    assert q == q[..step.n] + q[step.n..];
    assert t in q[..step.n] <==> multiset(q[..step.n])[t] > 0;
  }

  lemma CedeSaveKept(s: State, k: Kid, step: Step, j: Kid, t: Tid)
    requires Inv(s) && k < |s.pc| && j < |s.pc| && Enabled(s, k, step)
    requires step.CedeSave?
    ensures InvAt(Do(s, k, step), j, t)
  {
    assert InvAt(s, j, t) && InvAt(s, k, t);
    assert InvAt(s, k, s.pc[k].th);
  }

  lemma CedeClearKept(s: State, k: Kid, step: Step, j: Kid, t: Tid)
    requires Inv(s) && k < |s.pc| && j < |s.pc| && Enabled(s, k, step)
    requires step.CedeClear?
    ensures InvAt(Do(s, k, step), j, t)
  {
    assert InvAt(s, j, t) && InvAt(s, k, t);
  }

  lemma CedeReadyKept(s: State, k: Kid, step: Step, j: Kid, t: Tid)
    requires Inv(s) && k < |s.pc| && j < |s.pc| && Enabled(s, k, step)
    requires step.CedeReady?
    ensures InvAt(Do(s, k, step), j, t)
  {
    assert InvAt(s, j, t) && InvAt(s, k, t);
    assert InvAt(s, k, s.pc[k].cur);
  }

  lemma ExitKept(s: State, k: Kid, step: Step, j: Kid, t: Tid)
    requires Inv(s) && k < |s.pc| && j < |s.pc| && Enabled(s, k, step)
    requires step.Exit?
    ensures InvAt(Do(s, k, step), j, t)
  {
    assert InvAt(s, j, t) && InvAt(s, k, t);
  }

  /** The uthread whose frame FrameInv speaks about. */
  function FrameOf(pc: Pc): Tid {
    match pc
    case Clear(_, n) => n
    case Claimed(_, n) => n
    case Waiting(_, n) => n
    case Cleared(n) => n
    case Switched(t, _) => t
    case Saved(t) => t
    case Ceding(t) => t
    case _ => 0
  }

  lemma StepKeeps(s: State, k: Kid, step: Step)
    requires Inv(s) && k < |s.pc| && Enabled(s, k, step)
    ensures Inv(Do(s, k, step))
  {
    var s' := Do(s, k, step);
    forall j, t | 0 <= j < |s.pc| ensures InvAt(s', j, t) {
      match step
      case Create(_) => CreateKept(s, k, step, j, t);
      case Wake(_, _) => WakeKept(s, k, step, j, t);
      case Park => ParkKept(s, k, step, j, t);
      case Yield => YieldKept(s, k, step, j, t);
      case PopDirect => PopDirectKept(s, k, step, j, t);
      case ClearReady => ClearReadyKept(s, k, step, j, t);
      case SeeStopped => SeeStoppedKept(s, k, step, j, t);
      case Claim => ClaimKept(s, k, step, j, t);
      case SaveAndSwitch => SaveAndSwitchKept(s, k, step, j, t);
      case ClearOldRunning => ClearOldRunningKept(s, k, step, j, t);
      case SlowPath => SlowPathKept(s, k, step, j, t);
      case ClearSelfRunning => ClearSelfRunningKept(s, k, step, j, t);
      case PopScheduled => PopScheduledKept(s, k, step, j, t);
      case Enter => EnterKept(s, k, step, j, t);
      case Steal(_, _, _) => StealKept(s, k, step, j, t);
      case CedeSave => CedeSaveKept(s, k, step, j, t);
      case CedeClear => CedeClearKept(s, k, step, j, t);
      case CedeReady => CedeReadyKept(s, k, step, j, t);
      case Exit => ExitKept(s, k, step, j, t);
    }
    forall t ensures FlagInv(s', t) {
      assert InvAt(s', k, t);
    }
    forall j | 0 <= j < |s.pc| ensures FrameInv(s', s'.pc[j]) {
      assert InvAt(s', j, 0);
    }
    forall j, t | 0 <= j < |s.pc| ensures Linked(s', j, t) {
      assert InvAt(s', j, t);
    }
  }

  // ------------------------------------------------ whole runs

  /** Every kthread is in the scheduler; the uthreads created so far sleep, the others do not exist. */
  ghost predicate Init(s: State) {
    && |s.pc| == |s.queue|
    && (forall k :: 0 <= k < |s.pc| ==> s.pc[k].Scheduling? && s.queue[k] == [])
    && (forall t :: 0 <= t < |s.thr| ==>
          s.thr[t] == NoThread || s.thr[t] == Uthread(false, false, true, Asleep, Nobody, 0, 0))
  }

  ghost predicate IsRun(run: seq<State>, who: seq<Kid>, steps: seq<Step>) {
    && |run| == |steps| + 1 == |who| + 1
    && Init(run[0])
    && forall i :: 0 <= i < |steps| ==>
         && who[i] < |run[i].pc| == |run[i].queue|
         && Enabled(run[i], who[i], steps[i])
         && run[i + 1] == Do(run[i], who[i], steps[i])
  }

  lemma {:induction false} RunInv(run: seq<State>, who: seq<Kid>, steps: seq<Step>, n: nat)
    requires IsRun(run, who, steps) && n < |run|
    ensures Inv(run[n])
  {
    if n == 0 {
      forall t ensures FlagInv(run[0], t) { }
    } else {
      RunInv(run, who, steps, n - 1);
      StepKeeps(run[n - 1], who[n - 1], steps[n - 1]);
    }
  }

  /** No uthread is on the stack of two kthreads, in any state of any run. */
  lemma OneStackUser(run: seq<State>, who: seq<Kid>, steps: seq<Step>, n: nat, k: Kid, k': Kid, t: Tid)
    requires IsRun(run, who, steps) && n < |run|
    requires k < |run[n].pc| && k' < |run[n].pc|
    requires OnStack(run[n].pc[k], t) && OnStack(run[n].pc[k'], t)
    ensures k == k'
  {
    RunInv(run, who, steps, n);
    assert Linked(run[n], k, t) && Linked(run[n], k', t);
  }

  /**
   A kthread that moves onto a uthread's stack finds its frame saved and the stack in
   nobody else's use: the spin on thread_running is enough, also for a uthread that
   was queued, stolen and popped while its old kthread was still leaving it.
   */
  lemma EnteredAfterSave(run: seq<State>, who: seq<Kid>, steps: seq<Step>, n: nat, t: Tid, j: Kid)
    requires IsRun(run, who, steps) && n < |steps| && j < |run[n].pc| && who[n] < |run[n + 1].pc|
    requires !OnStack(run[n].pc[who[n]], t) && OnStack(run[n + 1].pc[who[n]], t)
    ensures T(run[n], t).saved && !T(run[n], t).ready
    ensures !OnStack(run[n].pc[j], t)
  {
    RunInv(run, who, steps, n);
    EnteringStep(run[n], who[n], steps[n], t);
    assert InvAt(run[n], who[n], t) && InvAt(run[n], j, t);
  }

  /**
   From the load that found a running flag clear to the store that sets it, nobody else sets it: the
   two accesses need not be atomic, since only the kthread that popped the uthread gets that far.
   */
  lemma StaysClear(run: seq<State>, who: seq<Kid>, steps: seq<Step>, n: nat, k: Kid, j: Kid)
    requires IsRun(run, who, steps) && n < |run| && k < |run[n].pc| && j < |run[n].pc|
    requires run[n].pc[k].Clear? || run[n].pc[k].Cleared?
    ensures !T(run[n], run[n].pc[k].next).running && !Holds(run[n].pc[j], run[n].pc[k].next)
    ensures j != k ==> !Token(run[n].pc[j], run[n].pc[k].next)
  {
    RunInv(run, who, steps, n);
    assert InvAt(run[n], k, run[n].pc[k].next) && InvAt(run[n], j, run[n].pc[k].next);
  }

  /** Only two steps move a kthread onto the stack of a uthread. */
  lemma EnteringStep(s: State, k: Kid, step: Step, t: Tid)
    requires k < |s.pc| == |s.queue| && Enabled(s, k, step)
    requires !OnStack(s.pc[k], t) && OnStack(Do(s, k, step).pc[k], t)
    ensures (step.SaveAndSwitch? && s.pc[k] == Claimed(s.pc[k].cur, t)) || (step.Enter? && s.pc[k] == Cleared(t))
  {
  }

  /** A uthread is ready exactly while one wake-up is unconsumed, and then it is to be found once. */
  lemma ReadyOnce(run: seq<State>, who: seq<Kid>, steps: seq<Step>, n: nat, t: Tid)
    requires IsRun(run, who, steps) && n < |run|
    requires !T(run[n], t).place.Dead?
    ensures T(run[n], t).wakes == T(run[n], t).pops + (if T(run[n], t).ready then 1 else 0)
    ensures T(run[n], t).ready <==>
            exists k :: 0 <= k < |run[n].pc| == |run[n].queue| && HasReady(run[n], k, t)
    ensures |run[n].pc| == |run[n].queue|
    ensures forall k, k' | 0 <= k < |run[n].pc| && 0 <= k' < |run[n].pc| ::
              HasReady(run[n], k, t) && HasReady(run[n], k', t) ==> k == k'
    ensures forall k | 0 <= k < |run[n].queue| :: multiset(run[n].queue[k])[t] <= 1
  {
    var s := run[n];
    RunInv(run, who, steps, n);
    assert FlagInv(s, t);
    forall k | 0 <= k < |s.pc|
      ensures HasReady(s, k, t) ==> T(s, t).ready && T(s, t).place.k == k
      ensures multiset(s.queue[k])[t] <= 1
    {
      assert Linked(s, k, t);
    }
    if T(s, t).ready {
      assert Linked(s, T(s, t).place.k, t);
      assert HasReady(s, T(s, t).place.k, t);
    }
  }

  /** Kthread k has t queued, or popped and not yet begun to enter it. */
  ghost predicate HasReady(s: State, k: Kid, t: Tid)
    requires k < |s.pc| == |s.queue|
  {
    t in s.queue[k] || (Token(s.pc[k], t) && HoldsReadyToken(s.pc[k]))
  }

  /**
   The assertions of the code hold: a uthread about to be entered is still marked
   ready, and none that is made ready is marked already.
   */
  lemma AssertionsHold(run: seq<State>, who: seq<Kid>, steps: seq<Step>, n: nat)
    requires IsRun(run, who, steps) && n < |steps|
    ensures steps[n].ClearReady? ==> T(run[n], run[n].pc[who[n]].next).ready
    ensures steps[n].Wake? ==> !T(run[n], steps[n].t).ready
    ensures steps[n].Yield? ==> !T(run[n], run[n].pc[who[n]].th).ready
    ensures steps[n].CedeReady? ==> !T(run[n], run[n].pc[who[n]].cur).ready
  {
    var s, k := run[n], who[n];
    RunInv(run, who, steps, n);
    match steps[n]
    case ClearReady => assert InvAt(s, k, s.pc[k].next);
    case Wake(t, _) => assert FlagInv(s, t);
    case Yield => assert InvAt(s, k, s.pc[k].th);
    case CedeReady => assert InvAt(s, k, s.pc[k].cur);
    case _ =>
  }
}
