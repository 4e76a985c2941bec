/**
 The run queue under concurrency.  The owner appends without the lock, one shared
 access at a time; a thief that holds the lock drains the queue one thread at a
 time; every other operation of the owner, its own merge of stolen threads included,
 runs with the lock held.  Every step refines a step of a plain deque.
 */
module RunQueueSteps {
  import opened RingIndex
  import RunQueue

  /** Where the owner is inside thread_ready. */
  datatype Owner =
    | Outside
    | TailRead(th: Uthread, tailSeen: u32)   // loaded rq_tail
    | MayAppend(th: Uthread, tailSeen: u32)  // saw room in the ring and an empty overflow list
    | SlotWritten(th: Uthread, tailSeen: u32)
    | Unpublished                            // queued, counter update outstanding

  /** A thief inside drain_threads. */
  datatype Thief = Away | Draining(headSeen: u32, at: u32, taken: seq<Uthread>, left: nat)

  datatype State = State(
    slots: seq<Uthread>, head: u32, tail: u32, overflow: seq<Uthread>,
    pubHead: u32, pubTail: u32, owner: Owner, thief: Thief)
  {
    /** The index of the first entry still in the queue. */
    function First(): u32 { if thief.Draining? then thief.at else tail }

    ghost function Abs(): seq<Uthread>
      requires |slots| == RQ_SIZE
    {
      RingSeq(slots, First(), Dist(head, First())) + overflow
    }
  }

  /** What a step does to the deque. */
  datatype Label = Silent | Append(x: Uthread) | Prepend(x: Uthread) | Take(x: Uthread) | Absorb(loot: seq<Uthread>)

  ghost predicate DequeStep(q: seq<Uthread>, q': seq<Uthread>, lab: Label) {
    match lab
    case Silent => q' == q
    case Append(x) => q' == q + [x]
    case Prepend(x) => q' == [x] + q
    case Take(x) => q == [x] + q'
    case Absorb(loot) => q' == RunQueue.Merge(q, loot)
  }

  /** One while the owner has queued a thread and not yet counted it. */
  function Lag(s: State): nat { if s.owner.Unpublished? then 1 else 0 }

  ghost predicate Inv(s: State) {
    && |s.slots| == RQ_SIZE
    && Dist(s.head, s.tail) <= RQ_SIZE
    && OwnerInv(s)
    && ThiefInv(s)
    && Lag(s) + Left(s) <= |s.Abs()|
    && RunQueue.Published(s.pubHead, s.pubTail, Lag(s), |s.Abs()| + |Taken(s)|)
  }

  function Taken(s: State): seq<Uthread> { if s.thief.Draining? then s.thief.taken else [] }
  function Left(s: State): nat { if s.thief.Draining? then s.thief.left else 0 }

  /** A tail the owner loaded may be stale but is never ahead: the room it saw is still there. */
  ghost predicate OwnerInv(s: State)
    requires |s.slots| == RQ_SIZE
  {
    match s.owner
    case Outside => true
    case TailRead(_, t) => Dist(s.head, s.tail) <= Dist(s.head, t) <= RQ_SIZE
    case MayAppend(_, t) => s.overflow == [] && Dist(s.head, s.tail) <= Dist(s.head, t) < RQ_SIZE
    case SlotWritten(th, t) =>
      && s.overflow == [] && Dist(s.head, s.tail) <= Dist(s.head, t) < RQ_SIZE
      && s.slots[Slot(s.head, 0)] == th
    case Unpublished => true
  }

  /** The thief is between tail and the head it loaded; appends since that load left overflow empty. */
  ghost predicate ThiefInv(s: State) {
    s.thief.Draining? ==>
      && Dist(s.head, s.thief.at) <= Dist(s.head, s.tail)
      && Dist(s.head, s.thief.headSeen) <= Dist(s.head, s.thief.at)
      && (s.head != s.thief.headSeen ==> s.overflow == [])
  }

  datatype Step =
    | LoadTail(th: Uthread)
    | CheckRoom
    | WriteSlot
    | StoreHead
    | Publish
    | Locked(lab: Label)
    | Merge(lsize: nat, loot: seq<Uthread>)
    | Lock(nr: nat)
    | DrainOne
    | Commit

  ghost predicate Next(s: State, s': State, step: Step)
    requires |s.slots| == RQ_SIZE
  {
    match step
    // thread_ready, fast path
    case LoadTail(th) => s.owner.Outside? && s' == s.(owner := TailRead(th, s.tail))
    case CheckRoom =>
      && s.owner.TailRead?
      && Dist(s.head, s.owner.tailSeen) < RQ_SIZE && s.overflow == []
      && s' == s.(owner := MayAppend(s.owner.th, s.owner.tailSeen))
    case WriteSlot =>
      && s.owner.MayAppend?
      && s' == s.(slots := s.slots[Slot(s.head, 0) := s.owner.th],
                  owner := SlotWritten(s.owner.th, s.owner.tailSeen))
    case StoreHead => s.owner.SlotWritten? && s' == s.(head := Inc(s.head), owner := Unpublished)
    case Publish => s.owner.Unpublished? && s' == s.(pubHead := Inc(s.pubHead), owner := Outside)
    // an operation of the owner under its lock, as the methods of RunQueue specify it
    case Locked(lab) => s.thief.Away? && s'.thief.Away? && LockedStep(s, s', lab)
    // merge_runqueues on the thief's own queue: as many of its threads as its counters say are kept
    case Merge(lsize, loot) => |s.Abs()| < U32 && lsize == Dist(s.pubHead, s.pubTail) && Merged(s, s', lsize, loot)
    // a thief under the lock: no more than the published length
    case Lock(nr) =>
      && s.thief.Away? && |s.Abs()| < U32
      && nr <= Dist(s.pubHead, s.pubTail)
      && s' == s.(thief := Draining(s.head, s.tail, [], nr))
    case DrainOne =>
      && s.thief.Draining? && s.thief.left > 0
      && (if WrapsLt(s.thief.at, s.thief.headSeen) then
            s' == s.(thief := Draining(s.thief.headSeen, Inc(s.thief.at),
                                       s.thief.taken + [s.slots[Slot(s.thief.at, 0)]], s.thief.left - 1))
          else
            && s.overflow != []
            && s' == s.(overflow := s.overflow[1..],
                        thief := Draining(s.thief.headSeen, s.thief.at,
                                          s.thief.taken + [s.overflow[0]], s.thief.left - 1)))
    case Commit =>
      && s.thief.Draining? && (s.thief.left == 0 || (s.thief.at == s.thief.headSeen && s.overflow == []))
      && s' == s.(tail := s.thief.at, pubTail := Add(s.pubTail, |s.thief.taken|), thief := Away)
  }

  ghost predicate LockedStep(s: State, s': State, lab: Label)
    requires |s.slots| == RQ_SIZE
  {
    && |s'.slots| == RQ_SIZE && Dist(s'.head, s'.tail) <= RQ_SIZE
    && DequeStep(s.Abs(), s'.Abs(), lab)
    && (match lab
        case Append(_) =>   // thread_ready_locked, or the overflow path of thread_ready
          && (s.owner.Outside? || (s.owner.TailRead? && s.owner.th == lab.x))
          && s'.owner.Unpublished? && s'.pubHead == s.pubHead && s'.pubTail == s.pubTail
        case Prepend(_) =>  // thread_ready_head
          s.owner.Outside? && s'.owner.Unpublished? && s'.pubHead == s.pubHead && s'.pubTail == s.pubTail
        case Take(_) =>     // schedule or enter_schedule pops a thread
          s.owner.Outside? && s'.owner.Outside? && s'.pubHead == s.pubHead && s'.pubTail == Inc(s.pubTail)
        case Silent =>      // drain_overflow
          s.owner.Outside? && s'.owner.Outside? && s'.pubHead == s.pubHead && s'.pubTail == s.pubTail
        case Absorb(_) => false)
  }

  /** The indices restart at zero; threads beyond the first lsize would be dropped. */
  ghost predicate Merged(s: State, s': State, lsize: nat, loot: seq<Uthread>)
    requires |s.slots| == RQ_SIZE
  {
    && s.thief.Away? && s'.thief.Away? && s.owner.Outside? && s'.owner.Outside?
    && |s'.slots| == RQ_SIZE && Dist(s'.head, s'.tail) <= RQ_SIZE && s'.tail == 0
    && s'.Abs() == RunQueue.Merge(if lsize < |s.Abs()| then s.Abs()[..lsize] else s.Abs(), loot)
    && s'.pubHead == Add(s.pubHead, |loot|) && s'.pubTail == s.pubTail
  }

  /** The deque operation a step performs. */
  function LabelOf(s: State, step: Step): Label
    requires |s.slots| == RQ_SIZE
  {
    match step
    case StoreHead => if s.owner.SlotWritten? then Append(s.owner.th) else Silent
    case Locked(lab) => lab
    case Merge(_, loot) => Absorb(loot)
    case DrainOne =>
      if !s.thief.Draining? then Silent
      else if WrapsLt(s.thief.at, s.thief.headSeen) then Take(s.slots[Slot(s.thief.at, 0)])
      else if s.overflow != [] then Take(s.overflow[0])
      else Silent
    case _ => Silent
  }

  // ------------------------------------------------ every step keeps the invariant

  lemma StoreHeadRefines(s: State, s': State)
    requires Inv(s) && Next(s, s', StoreHead)
    ensures Inv(s') && s'.Abs() == s.Abs() + [s.owner.th]
  {
    var n := Dist(s.head, s.First());
    HeadSlot(s.head, s.First());
    RingAppend(s.slots, s.First(), n, s.owner.th);
    assert s.slots[Slot(s.First(), n) := s.owner.th] == s.slots;
    RunQueue.PublishedLag(s.pubHead, s.pubTail, |s.Abs()| + |Taken(s)|);
  }

  lemma WriteSlotRefines(s: State, s': State)
    requires Inv(s) && Next(s, s', WriteSlot)
    ensures Inv(s') && s'.Abs() == s.Abs()
  {
    HeadSlot(s.head, s.First());
    RingAppend(s.slots, s.First(), Dist(s.head, s.First()), s.owner.th);
  }

  lemma DrainOneRefines(s: State, s': State)
    requires Inv(s) && Next(s, s', DrainOne)
    ensures Inv(s') && DequeStep(s.Abs(), s'.Abs(), LabelOf(s, DrainOne))
  {
    if WrapsLt(s.thief.at, s.thief.headSeen) {
      DrainRingRefines(s, s');
    } else {
      DrainOverflowRefines(s, s');
    }
  }

  lemma DrainRingRefines(s: State, s': State)
    requires Inv(s) && Next(s, s', DrainOne) && WrapsLt(s.thief.at, s.thief.headSeen)
    ensures Inv(s') && DequeStep(s.Abs(), s'.Abs(), LabelOf(s, DrainOne))
  {
    hide RunQueue.Published, RingSeq;
    RingPop(s.slots, s.thief.at, Dist(s.head, s.thief.at));
  }

  lemma DrainOverflowRefines(s: State, s': State)
    requires Inv(s) && Next(s, s', DrainOne) && !WrapsLt(s.thief.at, s.thief.headSeen)
    ensures Inv(s') && DequeStep(s.Abs(), s'.Abs(), LabelOf(s, DrainOne))
  {
    hide RunQueue.Published, RingSeq;
    assert s.thief.at == s.thief.headSeen == s.head;
  }

  lemma CommitRefines(s: State, s': State)
    requires Inv(s) && Next(s, s', Commit)
    ensures Inv(s') && s'.Abs() == s.Abs()
  {
    RunQueue.PublishedTake(s.pubHead, s.pubTail, Lag(s), |s.Abs()| + |Taken(s)|, |Taken(s)|);
  }

  lemma LockRefines(s: State, s': State, nr: nat)
    requires Inv(s) && Next(s, s', Lock(nr))
    ensures Inv(s') && s'.Abs() == s.Abs()
  {
    RunQueue.PublishedLength(s.pubHead, s.pubTail, Lag(s), |s.Abs()|);
  }

  lemma LockedRefines(s: State, s': State, lab: Label)
    requires Inv(s) && Next(s, s', Locked(lab))
    ensures Inv(s')
  {
    var n := |s.Abs()|;
    RunQueue.PublishedLag(s.pubHead, s.pubTail, n);
    if lab.Take? {
      RunQueue.PublishedTake(s.pubHead, s.pubTail, 0, n, 1);
      IncIsAdd(s.pubTail);
    }
  }

  lemma MergeRefines(s: State, s': State, lsize: nat, loot: seq<Uthread>)
    requires Inv(s) && Next(s, s', Merge(lsize, loot))
    ensures Inv(s') && lsize == |s.Abs()| && s'.Abs() == RunQueue.Merge(s.Abs(), loot)
  {
    RunQueue.PublishedLength(s.pubHead, s.pubTail, 0, |s.Abs()|);
    RunQueue.PublishedPut(s.pubHead, s.pubTail, |s.Abs()|, |loot|);
  }

  /** Every step keeps the invariant and performs exactly its deque operation. */
  lemma StepRefines(s: State, s': State, step: Step)
    requires Inv(s) && Next(s, s', step)
    ensures Inv(s') && DequeStep(s.Abs(), s'.Abs(), LabelOf(s, step))
  {
    match step
    case StoreHead => StoreHeadRefines(s, s');
    case WriteSlot => WriteSlotRefines(s, s');
    case DrainOne => DrainOneRefines(s, s');
    case Commit => CommitRefines(s, s');
    case Lock(nr) => LockRefines(s, s', nr);
    case Locked(lab) => LockedRefines(s, s', lab);
    case Merge(lsize, loot) => MergeRefines(s, s', lsize, loot);
    case Publish => RunQueue.PublishedLag(s.pubHead, s.pubTail, |s.Abs()| + |Taken(s)|);
    case LoadTail(_) =>
    case CheckRoom =>
  }

  // ------------------------------------------------ whole runs

  ghost predicate IsRun(run: seq<State>, steps: seq<Step>) {
    && |run| == |steps| + 1
    && Inv(run[0])
    && (forall k :: 0 <= k < |run| ==> |run[k].slots| == RQ_SIZE)
    && forall i :: 0 <= i < |steps| ==> Next(run[i], run[i + 1], steps[i])
  }

  lemma {:induction false} RunInv(run: seq<State>, steps: seq<Step>, k: nat)
    requires IsRun(run, steps) && k < |run|
    ensures Inv(run[k])
  {
    if k > 0 {
      RunInv(run, steps, k - 1);
      StepRefines(run[k - 1], run[k], steps[k - 1]);
    }
  }

  /** The deque operations of a run, in order. */
  function Trace(run: seq<State>, steps: seq<Step>): (labs: seq<Label>)
    requires |run| == |steps| + 1 && forall k :: 0 <= k < |run| ==> |run[k].slots| == RQ_SIZE
    ensures |labs| == |steps|
  {
    seq(|steps|, i requires 0 <= i < |steps| => LabelOf(run[i], steps[i]))
  }

  /** A plain deque that performs a list of operations; None when it takes what is not in front. */
  datatype Result = None | Some(q: seq<Uthread>)

  function Replay(q: seq<Uthread>, labs: seq<Label>): Result
    decreases |labs|
  {
    if labs == [] then Some(q) else
    match Replay(q, labs[..|labs| - 1])
    case None => None
    case Some(p) =>
      match labs[|labs| - 1]
      case Silent => Some(p)
      case Append(x) => Some(p + [x])
      case Prepend(x) => Some([x] + p)
      case Take(x) => if p != [] && p[0] == x then Some(p[1..]) else None
      case Absorb(loot) => Some(RunQueue.Merge(p, loot))
  }

  /** Over every run, the queue is the plain deque that performed the same operations. */
  lemma {:induction false} RunIsDequeRun(run: seq<State>, steps: seq<Step>)
    requires IsRun(run, steps)
    ensures forall k :: 0 <= k < |run| ==> Inv(run[k])
    ensures Replay(run[0].Abs(), Trace(run, steps)) == Some(run[|steps|].Abs())
    decreases |steps|
  {
    forall k | 0 <= k < |run| ensures Inv(run[k]) {
      RunInv(run, steps, k);
    }
    if steps != [] {
      var n := |steps| - 1;
      RunIsDequeRun(run[..n + 1], steps[..n]);
      StepRefines(run[n], run[n + 1], steps[n]);
      var labs := Trace(run, steps);
      assert labs[..n] == Trace(run[..n + 1], steps[..n]);
      var q, q' := run[n].Abs(), run[n + 1].Abs();
      assert DequeStep(q, q', labs[n]);
      if labs[n].Take? {
        assert q[0] == labs[n].x && q[1..] == q';
      }
    }
  }

  function Enqueued(labs: seq<Label>): multiset<Uthread> {
    if labs == [] then multiset{} else
    var m := Enqueued(labs[..|labs| - 1]);
    match labs[|labs| - 1]
    case Append(x) => m + multiset{x}
    case Prepend(x) => m + multiset{x}
    case Absorb(loot) => m + multiset(loot)
    case _ => m
  }

  function Dequeued(labs: seq<Label>): multiset<Uthread> {
    if labs == [] then multiset{} else
    var m := Dequeued(labs[..|labs| - 1]);
    match labs[|labs| - 1]
    case Take(x) => m + multiset{x}
    case _ => m
  }

  lemma {:induction false} ReplayConserves(q: seq<Uthread>, labs: seq<Label>)
    requires Replay(q, labs).Some?
    ensures multiset(q) + Enqueued(labs) == multiset(Replay(q, labs).q) + Dequeued(labs)
    decreases |labs|
  {
    if labs != [] {
      var before := labs[..|labs| - 1];
      ReplayConserves(q, before);
      var p := Replay(q, before).q;
      if labs[|labs| - 1].Take? {
        assert p == [p[0]] + p[1..];
      }
      if labs[|labs| - 1].Absorb? {
        RunQueue.MergeConserves(p, labs[|labs| - 1].loot);
      }
    }
  }

  /** No run loses or duplicates a thread: what went in is what came out plus what is queued. */
  lemma NothingLost(run: seq<State>, steps: seq<Step>)
    requires IsRun(run, steps)
    ensures forall k :: 0 <= k < |run| ==> Inv(run[k])
    ensures multiset(run[0].Abs()) + Enqueued(Trace(run, steps))
         == multiset(run[|steps|].Abs()) + Dequeued(Trace(run, steps))
  {
    RunIsDequeRun(run, steps);
    ReplayConserves(run[0].Abs(), Trace(run, steps));
  }
}
