/**
 The run queue of one kthread: a 32-slot ring with free-running 32-bit indices, an
 overflow list behind it, and the counters published to the iokernel.

 The abstract value of a queue is the sequence Contents(): the ring from tail to
 head, followed by the overflow list.  Every operation is specified on that
 sequence.
 */
module RingIndex {

  const RQ_SIZE: nat := 32
  const U32: nat := 0x1_0000_0000
  type u32 = x: nat | x < U32

  /** A ready uthread: its identity and the time it was made ready. */
  datatype Uthread = Uthread(id: nat, readyTsc: nat)

  // ------------------------------------------------ 32-bit index arithmetic

  function Inc(a: u32): u32 { if a == U32 - 1 then 0 else a + 1 }
  function Dec(a: u32): u32 { if a == 0 then U32 - 1 else a - 1 }

  /** a - b on uint32_t */
  function Dist(a: u32, b: u32): u32 {
    if a >= b then a - b else a - b + U32
  }

  /** a < b under wrap-around, as (int32_t)(a - b) < 0 */
  predicate WrapsLt(a: u32, b: u32) {
    Dist(a, b) >= 0x8000_0000
  }

  /** The array position of the ring entry i places after index t. */
  function Slot(t: int, i: int): (p: nat)
    ensures p < RQ_SIZE
  {
    (t + i) % RQ_SIZE
  }

  lemma SlotShift(t: int, i: int, q: int)
    ensures Slot(t + q * RQ_SIZE, i) == Slot(t, i)
  {
    var m := (t + i) / RQ_SIZE + q;
    assert t + q * RQ_SIZE + i == m * RQ_SIZE + (t + i) % RQ_SIZE;
  }

  /** The ring positions do not notice the index wrapping, because 32 divides 2^32. */
  lemma SlotWraps(t: u32, i: int)
    ensures Slot(Inc(t), i) == Slot(t, i + 1)
    ensures Slot(Dec(t), i) == Slot(t, i - 1)
  {
    if t == U32 - 1 {
      SlotShift(0, i, 0x800_0000);
    }
    if t == 0 {
      SlotShift(-1, i, 0x800_0000);
    }
  }

  lemma SlotsDistinct(t: int, i: int, j: int)
    requires i < j < i + RQ_SIZE
    ensures Slot(t, i) != Slot(t, j)
  {
  }

  /** The head index names the slot behind the last entry. */
  lemma HeadSlot(head: u32, tail: u32)
    ensures Slot(head, 0) == Slot(tail, Dist(head, tail))
  {
    if head < tail {
      SlotShift(head, 0, 0x800_0000);
    }
  }

  /** a + n on uint32_t */
  function Add(a: u32, n: nat): u32 { (a + n) % U32 }

  /** A published difference follows the additions to both counters, modulo 2^32. */
  lemma DistAdd(h: u32, t: u32, m: nat, n: nat)
    ensures (Dist(Add(h, m), Add(t, n)) + n) % U32 == (Dist(h, t) + m) % U32
  {
    var qh, qt := (h + m) / U32, (t + n) / U32;
    var lhs, rhs := Dist(Add(h, m), Add(t, n)) + n, Dist(h, t) + m;
    assert exists k: int :: lhs == rhs + k * U32 by {
      var e1 := if Add(h, m) >= Add(t, n) then 0 else 1;
      var e2 := if h >= t then 0 else 1;
      assert lhs == rhs + (e1 - e2 - qh + qt) * U32;
    }
    var k :| lhs == rhs + k * U32;
    assert lhs == (rhs / U32 + k) * U32 + rhs % U32;
  }

  lemma IncIsAdd(h: u32)
    ensures Inc(h) == Add(h, 1)
    ensures Add(h, 0) == h
  {
  }

  // ------------------------------------------------ the ring as a sequence

  /** The n ring entries that start at index tail. */
  function RingSeq(slots: seq<Uthread>, tail: u32, n: nat): (s: seq<Uthread>)
    requires |slots| == RQ_SIZE
    ensures |s| == n
  {
    seq(n, i requires 0 <= i < n => slots[Slot(tail, i)])
  }

  lemma RingPop(slots: seq<Uthread>, tail: u32, n: nat)
    requires |slots| == RQ_SIZE && 0 < n
    ensures RingSeq(slots, tail, n) == [slots[Slot(tail, 0)]] + RingSeq(slots, Inc(tail), n - 1)
  {
    forall i | 0 <= i < n - 1 ensures Slot(Inc(tail), i) == Slot(tail, i + 1) {
      SlotWraps(tail, i);
    }
  }

  /** Writing the slot behind the last entry extends the ring at the end. */
  lemma RingAppend(slots: seq<Uthread>, tail: u32, n: nat, x: Uthread)
    requires |slots| == RQ_SIZE && n < RQ_SIZE
    ensures RingSeq(slots[Slot(tail, n) := x], tail, n) == RingSeq(slots, tail, n)
    ensures RingSeq(slots[Slot(tail, n) := x], tail, n + 1) == RingSeq(slots, tail, n) + [x]
  {
    forall i | 0 <= i < n ensures Slot(tail, i) != Slot(tail, n) {
      SlotsDistinct(tail, i, n);
    }
  }

  /** Writing the slot before the first entry extends the ring at the front. */
  lemma RingPrepend(slots: seq<Uthread>, tail: u32, n: nat, x: Uthread)
    requires |slots| == RQ_SIZE && n < RQ_SIZE
    ensures RingSeq(slots[Slot(Dec(tail), 0) := x], Dec(tail), n + 1) == [x] + RingSeq(slots, tail, n)
  {
    forall i | 0 <= i < n
      ensures Slot(Dec(tail), i + 1) == Slot(tail, i)
      ensures Slot(tail, i) != Slot(Dec(tail), 0)
    {
      SlotWraps(tail, i + 1);
      SlotWraps(tail, 0);
      SlotsDistinct(tail, -1, i);
    }
  }

  /** In a full ring the slot before the first entry holds the last entry. */
  lemma RingFull(slots: seq<Uthread>, tail: u32)
    requires |slots| == RQ_SIZE
    ensures RingSeq(slots, tail, RQ_SIZE)
         == RingSeq(slots, tail, RQ_SIZE - 1) + [slots[Slot(Dec(tail), 0)]]
  {
    SlotWraps(tail, 0);
    SlotShift(tail, -1, 1);
  }
}

module RunQueue {
  import opened RingIndex

  class RunQueue {
    const rq: array<Uthread>
    var head: u32
    var tail: u32
    var overflow: seq<Uthread>
    var pubHead: u32   // q_ptrs->rq_head
    var pubTail: u32   // q_ptrs->rq_tail
    ghost var lag: nat // threads already queued but not yet counted in pubHead

    ghost predicate RingOk()
      reads this, rq
    {
      rq.Length == RQ_SIZE && Dist(head, tail) <= RQ_SIZE
    }

    ghost predicate Valid()
      reads this, rq
    {
      RingOk() && lag <= 1 && lag <= |Contents()| && Published(pubHead, pubTail, lag, |Contents()|)
    }

    ghost function Ring(): seq<Uthread>
      requires rq.Length == RQ_SIZE
      reads this, rq
    {
      RingSeq(rq[..], tail, Dist(head, tail))
    }

    ghost function Contents(): seq<Uthread>
      requires rq.Length == RQ_SIZE
      reads this, rq
    {
      Ring() + overflow
    }

    constructor ()
      ensures Valid() && Contents() == [] && lag == 0 && fresh(rq)
    {
      rq := new Uthread[RQ_SIZE](_ => Uthread(0, 0));
      head, tail, overflow := 0, 0, [];
      pubHead, pubTail, lag := 0, 0, 0;
    }

    /** Moves overflow threads into free ring slots: the queue itself does not change. */
    method DrainOverflow()
      requires RingOk()
      modifies this`head, this`overflow, rq
      ensures RingOk() && Contents() == old(Contents())
      ensures overflow == [] || Dist(head, tail) == RQ_SIZE
    {
      while Dist(head, tail) < RQ_SIZE && overflow != []
        invariant RingOk() && Contents() == old(Contents())
        decreases |overflow|
      {
        RingAppend(rq[..], tail, Dist(head, tail), overflow[0]);
        HeadSlot(head, tail);
        ghost var before := rq[..];
        rq[head % RQ_SIZE] := overflow[0];
        assert rq[..] == before[Slot(tail, Dist(head, tail)) := overflow[0]];
        head, overflow := Inc(head), overflow[1..];
      }
    }

    /** The counter update that ends every enqueue. */
    method PublishHead()
      requires Valid() && lag == 1
      modifies this`pubHead, this`lag
      ensures Valid() && lag == 0 && Contents() == old(Contents())
      ensures pubHead == Inc(old(pubHead))
    {
      PublishedLag(pubHead, pubTail, |Contents()|);
      pubHead, lag := Inc(pubHead), 0;
    }

    /** thread_ready_locked: at the tail, with the kthread lock held. */
    method ThreadReadyLocked(id: nat, now: nat)
      requires Valid() && lag == 0
      modifies this, rq
      ensures Valid() && lag == 0
      ensures Contents() == old(Contents()) + [Uthread(id, now)]
    {
      if overflow != [] {
        DrainOverflow();
      }
      var th := Uthread(id, now);
      if Dist(head, tail) >= RQ_SIZE {
        assert Contents() + [th] == Ring() + (overflow + [th]);
        overflow := overflow + [th];
      } else {
        PutAtHead(th);
      }
      PublishedLag(pubHead, pubTail, |old(Contents())|);
      lag := 1;
      PublishHead();
    }

    /** Stores a thread in the slot behind the ring and advances head. */
    method PutAtHead(th: Uthread)
      requires rq.Length == RQ_SIZE && Dist(head, tail) < RQ_SIZE
      requires overflow == []
      modifies this`head, rq
      ensures Dist(head, tail) == old(Dist(head, tail)) + 1
      ensures Contents() == old(Contents()) + [th]
    {
      RingAppend(rq[..], tail, Dist(head, tail), th);
      HeadSlot(head, tail);
      ghost var before := rq[..];
      rq[head % RQ_SIZE] := th;
      assert rq[..] == before[Slot(tail, Dist(head, tail)) := th];
      head := Inc(head);
    }

    /**
     thread_ready up to, and not including, its counter update: a lock-free append
     when the ring has room and nothing overflowed, else through the overflow list.
     */
    method ReadyPush(id: nat, now: nat)
      requires Valid() && lag == 0
      modifies this, rq
      ensures Valid() && lag == 1 && unchanged(this`pubHead, this`pubTail)
      ensures Contents() == old(Contents()) + [Uthread(id, now)]
      ensures overflow == [] || Dist(head, tail) == RQ_SIZE
    {
      var th := Uthread(id, now);
      PublishedLag(pubHead, pubTail, |Contents()|);
      if Dist(head, tail) >= RQ_SIZE || overflow != [] {
        assert Contents() + [th] == Ring() + (overflow + [th]);
        overflow, lag := overflow + [th], 1;
        DrainOverflow();
      } else {
        PutAtHead(th);
        lag := 1;
      }
    }

    method ThreadReady(id: nat, now: nat)
      requires Valid() && lag == 0
      modifies this, rq
      ensures Valid() && lag == 0
      ensures Contents() == old(Contents()) + [Uthread(id, now)]
      ensures overflow == [] || Dist(head, tail) == RQ_SIZE
    {
      ReadyPush(id, now);
      PublishHead();
    }

    /**
     The ring part of a push at the head: when the ring is full its last entry moves
     to the front of the overflow list.
     */
    method PutAtTail(th: Uthread)
      requires RingOk()
      modifies this`head, this`tail, this`overflow, rq
      ensures RingOk() && Contents() == [th] + old(Contents())
    {
      hide RingSeq;
      ghost var n, before, oldTail := Dist(head, tail), rq[..], tail;
      tail := Dec(tail);
      var oldestTh := rq[tail % RQ_SIZE];
      rq[tail % RQ_SIZE] := th;
      assert rq[..] == before[Slot(tail, 0) := th];
      if n < RQ_SIZE {
        RingPrepend(before, oldTail, n, th);
      } else {
        RingPrepend(before, oldTail, n - 1, th);
        RingFull(before, oldTail);
      }
      if Dist(head, tail) > RQ_SIZE {
        overflow := [oldestTh] + overflow;
        head := Dec(head);
      }
    }

    /** thread_ready_head and thread_ready_head_locked: at the head of the queue. */
    method ThreadReadyHead(id: nat, now: nat)
      requires Valid() && lag == 0
      modifies this, rq
      ensures Valid() && lag == 0
      ensures Contents() == [Uthread(id, HeadTsc(old(Ring()), now))] + old(Contents())
    {
      var th := Uthread(id, now);
      if head != tail {
        th := Uthread(id, rq[tail % RQ_SIZE].readyTsc);
      }
      PutAtTail(th);
      PublishedLag(pubHead, pubTail, |old(Contents())|);
      lag := 1;
      PublishHead();
    }

    /** Takes the first ring entry. */
    method TakeFirst() returns (th: Uthread)
      requires RingOk() && head != tail
      modifies this`tail
      ensures RingOk() && [th] + Contents() == old(Contents())
    {
      RingPop(rq[..], tail, Dist(head, tail));
      th := rq[tail % RQ_SIZE];
      tail := Inc(tail);
    }

    /** Takes the thread to run next, as schedule() and enter_schedule() do. */
    method Pop() returns (th: Uthread)
      requires Valid() && lag == 0
      requires Contents() != []
      modifies this, rq
      ensures Valid() && lag == 0
      ensures [th] + Contents() == old(Contents())
    {
      if overflow != [] {
        DrainOverflow();
      }
      th := TakeFirst();
      PublishedTake(pubHead, pubTail, lag, |old(Contents())|, 1);
      IncIsAdd(pubTail);
      pubTail := Inc(pubTail);
      if overflow != [] {
        DrainOverflow();
      }
    }

    /** The loop of drain_threads: what is left in the ring starts at the returned index. */
    method TakeThreads(nr: nat) returns (ths: seq<Uthread>, rqTail: u32)
      requires RingOk()
      modifies this`overflow
      ensures |ths| == if nr < |old(Contents())| then nr else |old(Contents())|
      ensures Dist(head, rqTail) <= RQ_SIZE && (overflow == old(overflow) || head == rqTail)
      ensures old(Contents()) == ths + (RingSeq(rq[..], rqTail, Dist(head, rqTail)) + overflow)
    {
      hide RingSeq;
      var rqHead: u32 := head;
      rqTail := tail;
      ths := [];
      while |ths| < nr && (WrapsLt(rqTail, rqHead) || overflow != [])
        invariant Dist(rqHead, rqTail) <= RQ_SIZE && |ths| <= nr
        invariant overflow == old(overflow) || rqHead == rqTail
        invariant old(Contents()) == ths + (RingSeq(rq[..], rqTail, Dist(rqHead, rqTail)) + overflow)
        decreases nr - |ths|
      {
        if WrapsLt(rqTail, rqHead) {
          RingPop(rq[..], rqTail, Dist(rqHead, rqTail));
          ths := ths + [rq[rqTail % RQ_SIZE]];
          rqTail := Inc(rqTail);
        } else {
          ths, overflow := ths + [overflow[0]], overflow[1..];
        }
      }
    }

    /**
     drain_threads: takes up to nr threads, ring first, then overflow.  Without
     updateTail the ring indices stay behind, for the caller to reset.
     */
    method DrainThreads(nr: nat, updateTail: bool) returns (ths: seq<Uthread>)
      requires Valid()
      modifies this`tail, this`overflow, this`pubTail
      ensures |ths| == if nr < |old(Contents())| then nr else |old(Contents())|
      ensures ths == old(Contents())[..|ths|]
      ensures updateTail ==> RingOk() && Contents() == old(Contents())[|ths|..]
      ensures updateTail ==> overflow == old(overflow) || head == tail
      ensures updateTail && |ths| + lag <= |old(Contents())| ==> Valid()
      ensures !updateTail ==> unchanged(this`tail, this`pubTail)
      ensures !updateTail && nr >= |old(Contents())| ==> overflow == []
    {
      hide RingSeq;
      var rqTail: u32;
      ths, rqTail := TakeThreads(nr);
      if updateTail {
        PublishedTake(pubHead, pubTail, lag, |old(Contents())|, |ths|);
        tail, pubTail := rqTail, Add(pubTail, |ths|);
      }
    }

    /** Adds a merged thread at the end: to the ring while it has room, else to overflow. */
    method PutMerged(th: Uthread)
      requires RingOk() && (overflow == [] || Dist(head, tail) == RQ_SIZE)
      modifies this`head, this`overflow, rq
      ensures RingOk() && (overflow == [] || Dist(head, tail) == RQ_SIZE)
      ensures Contents() == old(Contents()) + [th]
    {
      if Dist(head, tail) >= RQ_SIZE {
        assert Contents() + [th] == Ring() + (overflow + [th]);
        overflow := overflow + [th];
      } else {
        PutAtHead(th);
      }
    }

    /** Restarts the ring at index zero and fills it with the merge of two lists. */
    method Refill(lList: seq<Uthread>, rList: seq<Uthread>)
      requires rq.Length == RQ_SIZE && overflow == []
      modifies this`head, this`tail, this`overflow, rq
      ensures RingOk() && Contents() == Merge(lList, rList)
    {
      var lThs, rThs := lList, rList;
      head, tail := 0, 0;
      ghost var done := [];
      for i := 0 to |lList| + |rList|
        invariant RingOk() && (overflow == [] || Dist(head, tail) == RQ_SIZE)
        invariant |lThs| + |rThs| == |lList| + |rList| - i
        invariant Contents() == done && done + Merge(lThs, rThs) == Merge(lList, rList)
      {
        var th: Uthread;
        ghost var rest := Merge(lThs, rThs);
        if rThs != [] && (lThs == [] || rThs[0].readyTsc < lThs[0].readyTsc) {
          th, rThs := rThs[0], rThs[1..];
        } else {
          th, lThs := lThs[0], lThs[1..];
        }
        assert done + rest == done + [th] + Merge(lThs, rThs);
        PutMerged(th);
        done := done + [th];
      }
    }

    /** The thief's half of a merge: drains its own lsize threads and queues the merge. */
    method Absorb(lsize: nat, rThs: seq<Uthread>)
      requires Valid() && lag == 0 && lsize == |Contents()|
      modifies this, rq
      ensures Valid() && lag == 0
      ensures Contents() == Merge(old(Contents()), rThs)
    {
      PublishedPut(pubHead, pubTail, lsize, |rThs|);
      var lThs := DrainThreads(lsize, false);
      assert lThs == old(Contents());
      Refill(lThs, rThs);
      pubHead := Add(pubHead, |rThs|);
    }
  }

  // ------------------------------------------------ stealing

  /** The order in which merge_runqueues interleaves two queues. */
  function Merge(l: seq<Uthread>, r: seq<Uthread>): (m: seq<Uthread>)
    ensures |m| == |l| + |r|
    decreases |l| + |r|
  {
    if r != [] && (l == [] || r[0].readyTsc < l[0].readyTsc) then [r[0]] + Merge(l, r[1..])
    else if l != [] then [l[0]] + Merge(l[1..], r)
    else []
  }

  /** Sorted by ready time. */
  ghost predicate Sorted(s: seq<Uthread>) {
    forall i, j :: 0 <= i < j < |s| ==> s[i].readyTsc <= s[j].readyTsc
  }

  lemma {:induction false} MergeConserves(l: seq<Uthread>, r: seq<Uthread>)
    ensures multiset(Merge(l, r)) == multiset(l) + multiset(r)
    decreases |l| + |r|
  {
    if r != [] && (l == [] || r[0].readyTsc < l[0].readyTsc) {
      MergeConserves(l, r[1..]);
      assert r == [r[0]] + r[1..];
    } else if l != [] {
      MergeConserves(l[1..], r);
      assert l == [l[0]] + l[1..];
    }
  }

  ghost predicate AllAtLeast(s: seq<Uthread>, t: nat) {
    forall i :: 0 <= i < |s| ==> t <= s[i].readyTsc
  }

  lemma {:induction false} MergeAtLeast(l: seq<Uthread>, r: seq<Uthread>, t: nat)
    requires AllAtLeast(l, t) && AllAtLeast(r, t)
    ensures AllAtLeast(Merge(l, r), t)
    decreases |l| + |r|
  {
    if r != [] && (l == [] || r[0].readyTsc < l[0].readyTsc) {
      MergeAtLeast(l, r[1..], t);
    } else if l != [] {
      MergeAtLeast(l[1..], r, t);
    }
  }

  lemma SortedCons(x: Uthread, s: seq<Uthread>)
    ensures Sorted([x] + s) <==> Sorted(s) && AllAtLeast(s, x.readyTsc)
  {
    var t := [x] + s;
    if Sorted(t) {
      forall i, j | 0 <= i < j < |s| ensures s[i].readyTsc <= s[j].readyTsc {
        assert t[i + 1] == s[i] && t[j + 1] == s[j];
      }
      forall i | 0 <= i < |s| ensures x.readyTsc <= s[i].readyTsc {
        assert t[0] == x && t[i + 1] == s[i];
      }
    }
  }

  /** Merging two sorted queues gives a sorted queue. */
  lemma {:induction false} MergeSorted(l: seq<Uthread>, r: seq<Uthread>)
    requires Sorted(l) && Sorted(r)
    ensures Sorted(Merge(l, r))
    decreases |l| + |r|
  {
    if r != [] && (l == [] || r[0].readyTsc < l[0].readyTsc) {
      MergeSorted(l, r[1..]);
      MergeAtLeast(l, r[1..], r[0].readyTsc);
      SortedCons(r[0], Merge(l, r[1..]));
    } else if l != [] {
      MergeSorted(l[1..], r);
      MergeAtLeast(l[1..], r, l[0].readyTsc);
      SortedCons(l[0], Merge(l[1..], r));
    }
  }

  /** An append keeps the queue sorted exactly when the clock did not run backwards. */
  lemma AppendSorted(q: seq<Uthread>, x: Uthread)
    requires Sorted(q)
    ensures Sorted(q + [x]) <==> q == [] || q[|q| - 1].readyTsc <= x.readyTsc
  {
    var t := q + [x];
    if q != [] && Sorted(t) {
      assert t[|q| - 1] == q[|q| - 1] && t[|q|] == x;
    }
    if q == [] || q[|q| - 1].readyTsc <= x.readyTsc {
      forall i, j | 0 <= i < j < |t| ensures t[i].readyTsc <= t[j].readyTsc {
        if j == |q| && i < |q| - 1 {
          assert q[i].readyTsc <= q[|q| - 1].readyTsc;
        }
      }
    }
  }

  /**
   A push at the head keeps the queue sorted exactly when the ring has an entry to
   copy the ready time from, or there is nothing behind it, or the overflow list is
   not older than the current time.
   */
  lemma HeadPushSorted(ring: seq<Uthread>, overflow: seq<Uthread>, id: nat, now: nat)
    requires Sorted(ring + overflow)
    ensures Sorted([Uthread(id, HeadTsc(ring, now))] + (ring + overflow))
       <==> ring != [] || overflow == [] || now <= overflow[0].readyTsc
  {
    var q, x := ring + overflow, Uthread(id, HeadTsc(ring, now));
    SortedCons(x, q);
    if q != [] {
      assert forall i :: 0 < i < |q| ==> q[0].readyTsc <= q[i].readyTsc;
      assert q[0] == if ring != [] then ring[0] else overflow[0];
    }
  }

  /**
   merge_runqueues: the thief l takes a prefix of the victim's queue and merges it
   with its own by ready time.  The thief's indices restart at zero, which loses
   nothing because the published counters said exactly how many threads to drain.
   */
  method MergeRunqueues(l: RunQueue, lsize: nat, r: RunQueue, rsize: nat)
    requires l != r && l.rq != r.rq && l.Valid() && r.Valid() && l.lag == 0
    requires lsize == |l.Contents()| && rsize + r.lag <= |r.Contents()|
    modifies l, l.rq, r
    ensures l.Valid() && r.Valid() && l.lag == 0 && r.lag == old(r.lag)
    ensures r.Contents() == old(r.Contents())[rsize..]
    ensures r.overflow == old(r.overflow) || r.head == r.tail
    ensures l.Contents() == Merge(old(l.Contents()), old(r.Contents())[..rsize])
  {
    var rThs := r.DrainThreads(rsize, true);
    l.Absorb(lsize, rThs);
  }

  /** steal_work: moves half of the difference, at most one ring full. */
  method StealWork(l: RunQueue, r: RunQueue) returns (stole: bool, ghost n: nat)
    requires l != r && l.rq != r.rq && l.Valid() && r.Valid() && l.lag == 0
    requires |l.Contents()| < U32 && |r.Contents()| < U32
    modifies l, l.rq, r
    ensures l.Valid() && r.Valid() && l.lag == 0 && r.lag == old(r.lag)
    // a prefix of the victim's queue moves, merged by ready time
    ensures n <= |old(r.Contents())|
    ensures r.Contents() == old(r.Contents())[n..]
    ensures r.overflow == old(r.overflow) || r.head == r.tail
    ensures l.Contents() == if stole then Merge(old(l.Contents()), old(r.Contents())[..n]) else old(l.Contents())
    // stealing happens exactly when the victim's published length exceeds the thief's
    ensures stole <==> |old(r.Contents())| - old(r.lag) > |old(l.Contents())|
    ensures stole <==> 0 < n
    // half of the difference is stolen, rounded up, but no more than a ring
    ensures var diff := |old(r.Contents())| - old(r.lag) - |old(l.Contents())|;
            stole ==> n == if diff < 2 * RQ_SIZE then (diff + 1) / 2 else RQ_SIZE
    ensures n <= RQ_SIZE && (stole ==> |l.Contents()| <= |r.Contents()| + 1)
  {
    PublishedLength(l.pubHead, l.pubTail, l.lag, |l.Contents()|);
    PublishedLength(r.pubHead, r.pubTail, r.lag, |r.Contents()|);
    var lsize: nat := Dist(l.pubHead, l.pubTail);
    var rsize: nat := Dist(r.pubHead, r.pubTail);
    var numToSteal: nat := 0;
    if lsize < rsize {
      numToSteal := if (rsize - lsize + 1) / 2 < RQ_SIZE then (rsize - lsize + 1) / 2 else RQ_SIZE;
    }
    n := numToSteal;
    stole := numToSteal != 0;
    if stole {
      MergeRunqueues(l, lsize, r, numToSteal);
    }
  }

  /** A queue of 64 threads made ready at the same time: half of them are in the ring, half have overflowed. */
  method FilledTwice() returns (r: RunQueue)
    ensures fresh(r) && fresh(r.rq) && r.Valid() && r.lag == 0 && |r.Contents()| == 2 * RQ_SIZE
    ensures Dist(r.head, r.tail) == RQ_SIZE && forall t :: t in r.Contents() ==> t.readyTsc == 10
  {
    r := new RunQueue();
    for i := 0 to 2 * RQ_SIZE
      invariant fresh(r) && fresh(r.rq) && r.Valid() && r.lag == 0 && |r.Contents()| == i
      invariant r.overflow == [] || Dist(r.head, r.tail) == RQ_SIZE
      invariant forall t :: t in r.Contents() ==> t.readyTsc == 10
    {
      r.ThreadReady(i, 10);
    }
  }

  /** A thief takes the full ring, and leaves the threads that overflowed. */
  method RingStolen() returns (r: RunQueue)
    ensures fresh(r) && fresh(r.rq) && r.Valid() && r.lag == 0 && |r.Contents()| == RQ_SIZE && r.Ring() == []
    ensures forall t :: t in r.Contents() ==> t.readyTsc == 10
  {
    hide Published, RingSeq, Merge;
    r := FilledTwice();
    var l := new RunQueue();
    var stole, n := StealWork(l, r);
    assert n == RQ_SIZE && |r.Ring()| == 0;
  }

  /**
   Run queues are not sorted in general: after that theft, a thread is pushed at the head of the emptied
   ring, in front of the older threads that overflowed.
   */
  method HeadPushUnsorted() returns (r: RunQueue)
    ensures r.Valid() && |r.Contents()| == RQ_SIZE + 1 && Sorted(r.Contents()[1..]) && !Sorted(r.Contents())
  {
    hide Published, RingSeq;
    r := RingStolen();
    ghost var rest := r.Contents();
    r.ThreadReadyHead(99, 20);
    assert r.Contents()[1..] == rest && r.Contents()[0].readyTsc == 20 && r.Contents()[1].readyTsc == 10;
  }

  /** The published counters differ by the queue length, short of lag threads. */
  ghost predicate Published(pubHead: u32, pubTail: u32, lag: nat, n: nat) {
    (Dist(pubHead, pubTail) + lag) % U32 == n % U32
  }

  /** Below 2^32 threads, the published difference is the queue length less the lag. */
  lemma PublishedLength(pubHead: u32, pubTail: u32, lag: nat, n: nat)
    requires Published(pubHead, pubTail, lag, n)
    requires lag <= 1 && n < U32 && (lag == 1 ==> n > 0)
    ensures Dist(pubHead, pubTail) == n - lag
  {
  }

  lemma PublishedPut(pubHead: u32, pubTail: u32, n: nat, m: nat)
    requires Published(pubHead, pubTail, 0, n)
    ensures Published(Add(pubHead, m), pubTail, 0, n + m)
  {
    DistAdd(pubHead, pubTail, m, 0);
    IncIsAdd(pubTail);
    ModCancel(Dist(pubHead, pubTail), n, m);
  }

  lemma PublishedLag(pubHead: u32, pubTail: u32, n: nat)
    ensures Published(pubHead, pubTail, 1, n) <==> Published(Inc(pubHead), pubTail, 0, n)
    ensures Published(pubHead, pubTail, 1, n + 1) <==> Published(pubHead, pubTail, 0, n)
  {
    DistAdd(pubHead, pubTail, 1, 0);
    IncIsAdd(pubHead);
    IncIsAdd(pubTail);
    var d := Dist(pubHead, pubTail);
    if (d + 1) % U32 == (n + 1) % U32 { ModCancel(d + 1, n + 1, -1); }
    if d % U32 == n % U32 { ModCancel(d, n, 1); }
  }

  lemma PublishedTake(pubHead: u32, pubTail: u32, lag: nat, n: nat, m: nat)
    requires Published(pubHead, pubTail, lag, n) && m <= n
    ensures Published(pubHead, Add(pubTail, m), lag, n - m)
  {
    DistAdd(pubHead, pubTail, 0, m);
    IncIsAdd(pubHead);
    var d, e := Dist(pubHead, Add(pubTail, m)), Dist(pubHead, pubTail);
    assert (d + m) % U32 == e;
    ModCancel(d + m, e, lag);
    var back: int := m;
    ModCancel(d + lag + m, n, -back);
  }

  lemma ModCancel(a: int, b: int, c: int)
    requires a % U32 == b % U32
    ensures (a + c) % U32 == (b + c) % U32
  {
    var q := a / U32 - b / U32;
    assert a + c == (q + (b + c) / U32) * U32 + (b + c) % U32;
  }

  /** The ready time a head push gives its thread. */
  function HeadTsc(ring: seq<Uthread>, now: nat): nat {
    if ring != [] then ring[0].readyTsc else now
  }
}
