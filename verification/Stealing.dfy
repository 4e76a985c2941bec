/**
 Work stealing among any number of kthreads: a thief locks its own queue and the
 victim's, drains the victim, unlocks it, and then merges what it holds into its own
 queue.  In every interleaving the threads made ready are those that were run, those in
 a queue and those in a thief's hands, each counted once; and the length that the thief
 read before it drained the victim is still right when it refills its own queue.
 */
module Stealing {
  import opened RingIndex
  import RunQueue
  import Q = RunQueueSteps

  /** Where a kthread is inside steal_work; lsize is the length of its own queue as it read it. */
  datatype Kthread = Free | Robbing(victim: nat, lsize: nat) | Merging(loot: seq<Uthread>, lsize: nat)

  type Bag = multiset<Uthread>

  datatype Sys = Sys(queues: seq<Q.State>, at: seq<Kthread>)

  datatype Step =
    | Own(k: nat, step: Q.Step)        // the owner's append, and its other operations
    | Lock(k: nat, r: nat, nr: nat)    // both locks are held, the lengths are read
    | Drain(k: nat)
    | Unlock(k: nat)                   // the victim's tail and counter are stored
    | Refill(k: nat)

  ghost predicate Sized(s: Sys) {
    |s.at| == |s.queues| && forall k :: 0 <= k < |s.queues| ==> |s.queues[k].slots| == RQ_SIZE
  }

  /** Only queue r changes, and it does so by the given step. */
  ghost predicate Moves(s: Sys, s': Sys, r: nat, step: Q.Step)
    requires Sized(s)
  {
    && r < |s.queues| == |s'.queues|
    && s'.queues == s.queues[r := s'.queues[r]]
    && Q.Next(s.queues[r], s'.queues[r], step)
  }

  predicate OwnersStep(step: Q.Step) { !step.Lock? && !step.DrainOne? && !step.Commit? && !step.Merge? }

  ghost predicate Next(s: Sys, s': Sys, step: Step)
    requires Sized(s)
  {
    match step
    case Own(k, st) => k < |s.at| && s.at[k].Free? && OwnersStep(st) && Moves(s, s', k, st) && s'.at == s.at
    case Lock(k, r, nr) =>   // neither queue is locked
      && k < |s.at| && r < |s.at| && k != r && s.at[k].Free? && s.at[r].Free?
      && s.queues[k].thief.Away? && s.queues[k].owner.Outside? && |s.queues[k].Abs()| < U32
      && Moves(s, s', r, Q.Lock(nr))
      && s'.at == s.at[k := Robbing(r, Dist(s.queues[k].pubHead, s.queues[k].pubTail))]
    case Drain(k) => k < |s.at| && s.at[k].Robbing? && Moves(s, s', s.at[k].victim, Q.DrainOne) && s'.at == s.at
    case Unlock(k) =>
      && k < |s.at| && s.at[k].Robbing? && Moves(s, s', s.at[k].victim, Q.Commit)
      && s'.at == s.at[k := Merging(Q.Taken(s.queues[s.at[k].victim]), s.at[k].lsize)]
    case Refill(k) =>
      && k < |s.at| && s.at[k].Merging? && |s'.queues| == |s.queues| && s'.queues == s.queues[k := s'.queues[k]]
      && Q.Merged(s.queues[k], s'.queues[k], s.at[k].lsize, s.at[k].loot)
      && s'.at == s.at[k := Free]
  }

  // ------------------------------------------------ the invariant

  /** A queue whose owner is stealing: locked, at rest, and of the length that was read. */
  ghost predicate Held(q: Q.State, lsize: nat) {
    && q.thief.Away? && q.owner.Outside? && |q.slots| == RQ_SIZE
    && |q.Abs()| < U32 && lsize == Dist(q.pubHead, q.pubTail)
  }

  ghost predicate At(s: Sys, k: nat)
    requires k < |s.at| == |s.queues|
  {
    match s.at[k]
    case Free => true
    case Robbing(r, lsize) =>
      r < |s.at| && r != k && s.at[r].Free? && s.queues[r].thief.Draining? && Held(s.queues[k], lsize)
    case Merging(_, lsize) => Held(s.queues[k], lsize)
  }

  predicate Apart(x: Kthread, y: Kthread) { x.Robbing? && y.Robbing? ==> x.victim != y.victim }

  ghost predicate Inv(s: Sys) {
    && Sized(s)
    && (forall k :: 0 <= k < |s.at| ==> Q.Inv(s.queues[k]))
    && (forall k :: 0 <= k < |s.at| ==> At(s, k))
    && (forall j, k :: 0 <= j < k < |s.at| ==> Apart(s.at[j], s.at[k]))
  }

  /** The step that the changed queue takes. */
  function QueueStep(s: Sys, step: Step): Q.Step
    requires |s.at| == |s.queues| && (step.Refill? ==> step.k < |s.at| && s.at[step.k].Merging?)
  {
    match step
    case Own(_, st) => st
    case Lock(_, _, nr) => Q.Lock(nr)
    case Drain(_) => Q.DrainOne
    case Unlock(_) => Q.Commit
    case Refill(k) => Q.Merge(s.at[k].lsize, s.at[k].loot)
  }

  /** The queue that a step changes. */
  function Where(s: Sys, step: Step): nat {
    match step
    case Lock(_, r, _) => r
    case Own(k, _) => k
    case Refill(k) => k
    case _ => if step.k < |s.at| && s.at[step.k].Robbing? then s.at[step.k].victim else 0
  }

  /** The changed queue performs a queue step: a refill finds the length that was read long before. */
  lemma QueueMoves(s: Sys, s': Sys, step: Step)
    requires Inv(s) && Next(s, s', step)
    ensures Moves(s, s', Where(s, step), QueueStep(s, step)) && Q.Inv(s'.queues[Where(s, step)])
    ensures Q.DequeStep(s.queues[Where(s, step)].Abs(), s'.queues[Where(s, step)].Abs(),
                        Q.LabelOf(s.queues[Where(s, step)], QueueStep(s, step)))
  {
    hide Q.Inv;
    var r := Where(s, step);
    assert step.Refill? ==> At(s, step.k);
    assert step.Drain? || step.Unlock? ==> At(s, step.k);
    Q.StepRefines(s.queues[r], s'.queues[r], QueueStep(s, step));
  }

  lemma StepKeeps(s: Sys, s': Sys, step: Step)
    requires Inv(s) && Next(s, s', step)
    ensures Inv(s')
  {
    hide Q.Inv;
    QueueMoves(s, s', step);
    SizedKept(s, s', step);
    forall k | 0 <= k < |s'.at| ensures At(s', k) {
      assert At(s, k);
    }
    forall j, k | 0 <= j < k < |s'.at| ensures Apart(s'.at[j], s'.at[k]) {
      assert At(s, j) && At(s, k) && Apart(s.at[j], s.at[k]);
    }
  }

  lemma SizedKept(s: Sys, s': Sys, step: Step)
    requires Inv(s) && Next(s, s', step)
    ensures Sized(s')
  {
    QueueMoves(s, s', step);
  }

  // ------------------------------------------------ conservation

  /** All threads in a list of places. */
  ghost function Pile(bags: seq<Bag>): Bag {
    if bags == [] then multiset{} else Pile(bags[..|bags| - 1]) + bags[|bags| - 1]
  }

  lemma {:induction false} PileUpdate(bags: seq<Bag>, i: nat, b: Bag)
    requires i < |bags|
    ensures Pile(bags[i := b]) + bags[i] == Pile(bags) + b
  {
    var n, after := |bags| - 1, bags[i := b];
    assert Pile(after) == Pile(after[..n]) + after[n] && Pile(bags) == Pile(bags[..n]) + bags[n];
    if i == n {
      assert after[..n] == bags[..n];
    } else {
      PileUpdate(bags[..n], i, b);
      assert after[..n] == bags[..n][i := b] && bags[..n][i] == bags[i];
      Chain(Pile(bags[..n]), Pile(after[..n]), Pile(after), bags[i], multiset{}, b, bags[n]);
      assert bags[i] + multiset{} == bags[i] && Pile(bags) + b == Pile(bags[..n]) + (b + bags[n]);
    }
  }

  lemma Chain(r0: Bag, r: Bag, r': Bag, p: Bag, p': Bag, a: Bag, a': Bag)
    requires r + p == r0 + a && r' + p' == r + a'
    ensures r' + (p + p') == r0 + (a + a')
  {
    assert r' + (p + p') == (r' + p') + p == (r + p) + a';
  }

  /** The threads of a queue, including those a thief has drained and not yet carried off. */
  ghost function Content(q: Q.State): Bag {
    if |q.slots| == RQ_SIZE then multiset(q.Abs()) + multiset(Q.Taken(q)) else multiset{}
  }

  function Loot(k: Kthread): Bag { if k.Merging? then multiset(k.loot) else multiset{} }

  ghost function Bags(s: Sys): (bs: seq<Bag>)
    ensures |bs| == |s.queues|
  {
    seq(|s.queues|, k requires 0 <= k < |s.queues| => Content(s.queues[k]))
  }

  ghost function Loots(s: Sys): (bs: seq<Bag>)
    ensures |bs| == |s.at|
  {
    seq(|s.at|, k requires 0 <= k < |s.at| => Loot(s.at[k]))
  }

  /** Every thread that is ready and not being run. */
  ghost function Ready(s: Sys): Bag { Pile(Bags(s)) + Pile(Loots(s)) }

  /** What a step puts into the queue it changes. */
  function Gained(q: Q.State, step: Q.Step): Bag {
    match step
    case StoreHead => if q.owner.SlotWritten? then multiset{q.owner.th} else multiset{}
    case Locked(Append(x)) => multiset{x}
    case Locked(Prepend(x)) => multiset{x}
    case Merge(_, loot) => multiset(loot)
    case _ => multiset{}
  }

  /** What it takes away. */
  function Lost(q: Q.State, step: Q.Step): Bag {
    match step
    case Locked(Take(x)) => multiset{x}
    case Commit => multiset(Q.Taken(q))
    case _ => multiset{}
  }

  lemma BagStep(q: Q.State, q': Q.State, step: Q.Step)
    requires Q.Inv(q) && Q.Next(q, q', step)
    ensures Content(q') + Lost(q, step) == Content(q) + Gained(q, step)
  {
    Q.StepRefines(q, q', step);
    BagOf(q.Abs(), q'.Abs(), Q.Taken(q), Q.Taken(q'), Q.LabelOf(q, step));
  }

  /** The queue and what is drained from it, before and after a deque operation. */
  lemma BagOf(a: seq<Uthread>, a': seq<Uthread>, t: seq<Uthread>, t': seq<Uthread>, lab: Q.Label)
    requires Q.DequeStep(a, a', lab)
    ensures match lab
            case Silent => multiset(a') == multiset(a)
            case Append(x) => multiset(a') == multiset(a) + multiset{x}
            case Prepend(x) => multiset(a') == multiset(a) + multiset{x}
            case Take(x) => multiset(a') + multiset{x} == multiset(a) && multiset(t + [x]) == multiset(t) + multiset{x}
            case Absorb(loot) => multiset(a') == multiset(a) + multiset(loot)
  {
    if lab.Absorb? {
      RunQueue.MergeConserves(a, lab.loot);
    }
  }

  /** What the owners' own operations put in. */
  function Added(s: Sys, step: Step): Bag {
    if step.Own? && step.k < |s.queues| then Gained(s.queues[step.k], step.step) else multiset{}
  }

  /** What the owners take to run. */
  function Popped(s: Sys, step: Step): Bag {
    if step.Own? && step.k < |s.queues| then Lost(s.queues[step.k], step.step) else multiset{}
  }

  lemma QueuesConserve(s: Sys, s': Sys, step: Step)
    requires Inv(s) && Next(s, s', step)
    ensures Where(s, step) < |s.queues| == |s.at| && |s'.queues| == |s.queues|
    ensures step.Refill? ==> step.k < |s.at| && s.at[step.k].Merging?
    ensures var q, st := s.queues[Where(s, step)], QueueStep(s, step);
            Pile(Bags(s')) + Lost(q, st) == Pile(Bags(s)) + Gained(q, st)
  {
    hide Q.Inv, Q.Next, At, Content, Lost, Gained;
    QueueMoves(s, s', step);
    var r, st := Where(s, step), QueueStep(s, step);
    var q, q' := s.queues[r], s'.queues[r];
    BagStep(q, q', st);
    PileUpdate(Bags(s), r, Content(q'));
    assert Bags(s') == Bags(s)[r := Content(q')];
    Cancel(Pile(Bags(s)), Pile(Bags(s')), Content(q), Content(q'), Lost(q, st), Gained(q, st));
  }

  lemma LootsConserve(s: Sys, s': Sys, step: Step)
    requires Inv(s) && Next(s, s', step) && !step.Own?
    ensures Where(s, step) < |s.queues|
    ensures var q, st := s.queues[Where(s, step)], QueueStep(s, step);
            Pile(Loots(s')) + Gained(q, st) == Pile(Loots(s)) + Lost(q, st)
  {
    hide Inv, Q.Next, Q.Merged, Pile, Lost, Gained;
    LootMatches(s, s', step);
    PileUpdate(Loots(s), step.k, Loot(s'.at[step.k]));
    assert Loots(s') == Loots(s)[step.k := Loot(s'.at[step.k])];
  }

  /** What leaves a queue in a steal is what the thief then holds, and the other way round. */
  lemma LootMatches(s: Sys, s': Sys, step: Step)
    requires Inv(s) && Next(s, s', step) && !step.Own?
    ensures Where(s, step) < |s.queues| && step.k < |s.at| == |s'.at|
    ensures var q, st := s.queues[Where(s, step)], QueueStep(s, step);
            Gained(q, st) == Loot(s.at[step.k]) && Lost(q, st) == Loot(s'.at[step.k])
  {
    hide Q.Inv, Q.Next, Q.Merged;
    assert At(s, step.k);
  }

  /** Nothing appears, disappears or is doubled in a step, whatever the others are in the middle of. */
  lemma StepConserves(s: Sys, s': Sys, step: Step)
    requires Inv(s) && Next(s, s', step)
    ensures Ready(s') + Popped(s, step) == Ready(s) + Added(s, step)
  {
    hide Inv, Q.Next, Q.Merged, Pile, Lost, Gained;
    QueuesConserve(s, s', step);
    var q, st := s.queues[Where(s, step)], QueueStep(s, step);
    if step.Own? {
      assert Loots(s') == Loots(s);
      Beside(Pile(Bags(s)), Pile(Bags(s')), Lost(q, st), Gained(q, st), Pile(Loots(s)));
    } else {
      LootsConserve(s, s', step);
      Moved(Pile(Bags(s)), Pile(Bags(s')), Lost(q, st), Gained(q, st), Pile(Loots(s)), Pile(Loots(s')));
    }
  }

  lemma Beside(p: Bag, p': Bag, lost: Bag, gained: Bag, l: Bag)
    requires p' + lost == p + gained
    ensures (p' + l) + lost == (p + l) + gained
  {
    assert (p' + l) + lost == (p' + lost) + l;
  }

  lemma Moved(p: Bag, p': Bag, lost: Bag, gained: Bag, l: Bag, l': Bag)
    requires p' + lost == p + gained && l' + gained == l + lost
    ensures p' + l' == p + l
  {
    forall x: Uthread ensures (p' + l')[x] == (p + l)[x] {
      assert (p' + lost)[x] == (p + gained)[x] && (l' + gained)[x] == (l + lost)[x];
    }
  }

  lemma Cancel(p: Bag, p': Bag, b: Bag, b': Bag, lost: Bag, gained: Bag)
    requires p' + b == p + b' && b' + lost == b + gained
    ensures p' + lost == p + gained
  {
    forall x: Uthread ensures (p' + lost)[x] == (p + gained)[x] {
      assert (p' + b)[x] == (p + b')[x] && (b' + lost)[x] == (b + gained)[x];
    }
  }

  // ------------------------------------------------ whole runs

  ghost predicate IsRun(run: seq<Sys>, steps: seq<Step>) {
    && |run| == |steps| + 1
    && Inv(run[0]) && (forall i :: 0 <= i < |run| ==> Sized(run[i]))
    && forall i :: 0 <= i < |steps| ==> Next(run[i], run[i + 1], steps[i])
  }

  function AllAdded(run: seq<Sys>, steps: seq<Step>, n: nat): Bag
    requires n <= |steps| <= |run|
  {
    if n == 0 then multiset{} else AllAdded(run, steps, n - 1) + Added(run[n - 1], steps[n - 1])
  }

  function AllPopped(run: seq<Sys>, steps: seq<Step>, n: nat): Bag
    requires n <= |steps| <= |run|
  {
    if n == 0 then multiset{} else AllPopped(run, steps, n - 1) + Popped(run[n - 1], steps[n - 1])
  }

  /** In every run over any number of queues, what was made ready has been run or is in one place. */
  lemma {:induction false} NothingLost(run: seq<Sys>, steps: seq<Step>, n: nat)
    requires IsRun(run, steps) && n <= |steps|
    ensures Inv(run[n])
    ensures Ready(run[n]) + AllPopped(run, steps, n) == Ready(run[0]) + AllAdded(run, steps, n)
  {
    hide Inv, Ready, Next;
    if n > 0 {
      NothingLost(run, steps, n - 1);
      assert Next(run[n - 1], run[n], steps[n - 1]);
      StepKeeps(run[n - 1], run[n], steps[n - 1]);
      StepConserves(run[n - 1], run[n], steps[n - 1]);
      Chain(Ready(run[0]), Ready(run[n - 1]), Ready(run[n]),
            AllPopped(run, steps, n - 1), Popped(run[n - 1], steps[n - 1]),
            AllAdded(run, steps, n - 1), Added(run[n - 1], steps[n - 1]));
    }
  }

  /** When a thief refills its queue, the length it read is the number of threads in it: none is dropped. */
  lemma RefillDropsNone(run: seq<Sys>, steps: seq<Step>, n: nat)
    requires IsRun(run, steps) && n < |steps| && steps[n].Refill?
    ensures var k := steps[n].k;
            && k < |run[n].at| == |run[n].queues| == |run[n + 1].queues| && run[n].at[k].Merging?
            && run[n].at[k].lsize == |run[n].queues[k].Abs()|
            && run[n + 1].queues[k].Abs() == RunQueue.Merge(run[n].queues[k].Abs(), run[n].at[k].loot)
  {
    hide Ready, Q.Inv, RingSeq, RunQueue.Merge;
    NothingLost(run, steps, n);
    assert Next(run[n], run[n + 1], steps[n]);
    var k := steps[n].k;
    assert At(run[n], k);
    Q.MergeRefines(run[n].queues[k], run[n + 1].queues[k], run[n].at[k].lsize, run[n].at[k].loot);
  }
}
