/**
 The timers of a kthread: a 4-ary min-heap in an array, with every entry's position written
 back to the entry so that it can be removed from the middle.
 */
module TimerHeap {
  const D := 4
  const MAX_TIMERS := 4096
  const UINT64_MAX: nat := 0xffff_ffff_ffff_ffff

  /** struct timer_idx; entries are numbered. */
  datatype Timer = Timer(deadline: nat, e: nat)

  function Parent(i: nat): (p: nat)
    requires i > 0
    ensures p < i && D * p + 1 <= i <= D * p + D
  {
    (i - 1) / D
  }

  /** What update_q_ptrs publishes for the earliest deadline, in 64-bit arithmetic. */
  function Tsc(deadline: nat, cyclesPerUs: nat, startTsc: nat): nat {
    (deadline * cyclesPerUs + startTsc) % (UINT64_MAX + 1)
  }

  class Timers {
    const heap: array<Timer>
    const cyclesPerUs: nat
    const startTsc: nat

    var n: nat                  // timern
    var idx: seq<nat>           // e->idx
    var armed: seq<bool>
    var executing: seq<bool>
    var nextTsc: nat            // q_ptrs->next_timer_tsc

    ghost var due: map<nat, nat> // the armed entries and their deadlines

    // ---------------------------------------------------------------- invariants

    /** The array and the back-pointers are inverse, and hold exactly the armed entries. */
    ghost predicate BackOk()
      reads this`n, this`idx, this`due, heap
    {
      && n <= heap.Length == MAX_TIMERS
      && (forall i :: 0 <= i < n ==> Placed(heap[i], i))
      && (forall e :: e in due ==> e < |idx| && idx[e] < n && heap[idx[e]].e == e)
    }

    ghost predicate Placed(t: Timer, i: nat)
      reads this`idx, this`due
    {
      t.e < |idx| && idx[t.e] == i && t.e in due && due[t.e] == t.deadline
    }

    ghost predicate Ordered(j: nat)
      reads this`n, heap
      requires 0 < j < n <= heap.Length
    {
      heap[Parent(j)].deadline <= heap[j].deadline
    }

    ghost predicate HeapOk()
      reads this`n, heap
    {
      n <= heap.Length && forall j :: 0 < j < n ==> Ordered(j)
    }

    /** Heap order everywhere but around position i, which may be filled from below or above. */
    ghost predicate Near(i: nat)
      reads this`n, heap
    {
      && i < n <= heap.Length
      && (forall j :: 0 < j < n && j != i && Parent(j) != i ==> Ordered(j))
      && (i > 0 ==> forall j :: 0 < j < n && Parent(j) == i ==> heap[Parent(i)].deadline <= heap[j].deadline)
    }

    ghost predicate FlagsOk()
      reads this`idx, this`armed, this`executing, this`due
    {
      |idx| == |armed| == |executing| && forall e :: 0 <= e < |armed| ==> (armed[e] <==> e in due)
    }

    /** The published time is that of the earliest timer. */
    ghost predicate PublishedOk()
      reads this`n, this`nextTsc, heap
    {
      n <= heap.Length && nextTsc == if n == 0 then UINT64_MAX else Tsc(heap[0].deadline, cyclesPerUs, startTsc)
    }

    ghost predicate Valid()
      reads this, heap
    {
      BackOk() && HeapOk() && FlagsOk() && PublishedOk()
    }

    // ---------------------------------------------------------------- sifting

    /** The two timers trade places, and their entries are told. */
    method Swap(i: nat, j: nat)
      requires BackOk() && i < n && j < n && i != j
      modifies heap, this`idx
      ensures BackOk() && |idx| == old(|idx|)
      ensures heap[i] == old(heap[j]) && heap[j] == old(heap[i])
      ensures forall k :: 0 <= k < heap.Length && k != i && k != j ==> heap[k] == old(heap[k])
    {
      assert Placed(heap[i], i) && Placed(heap[j], j);
      var tmp := heap[i];
      heap[i] := heap[j];
      idx := idx[heap[i].e := i];
      heap[j] := tmp;
      idx := idx[heap[j].e := j];
      forall k | 0 <= k < n ensures Placed(heap[k], k) {
        assert old(Placed(heap[k], k));
      }
    }

    /** One round of sift_up: only the new position can be out of order with its parent. */
    method MoveUp(i: nat)
      requires BackOk() && Near(i) && i > 0 && heap[i].deadline < heap[Parent(i)].deadline
      modifies heap, this`idx
      ensures BackOk() && |idx| == old(|idx|) && Near(Parent(i))
      ensures forall j :: 0 < j < n && j != Parent(i) ==> Ordered(j)
    {
      var p := Parent(i);
      Swap(i, p);
      forall j | 0 < j < n && j != p ensures Ordered(j) {
        assert j != i && Parent(j) != i ==> old(Ordered(j));
      }
      if p > 0 {
        assert old(Ordered(p));
        forall j | 0 < j < n && Parent(j) == p ensures heap[Parent(p)].deadline <= heap[j].deadline {
          assert j != i ==> old(Ordered(j));
        }
      }
    }

    /** sift_up */
    method SiftUp(at: nat)
      requires BackOk() && Near(at)
      modifies heap, this`idx
      ensures BackOk() && |idx| == old(|idx|)
      ensures Near(at) && (at > 0 ==> Ordered(at))
    {
      hide BackOk;
      var i := at;
      ghost var moved := false;
      while i > 0
        invariant BackOk() && |idx| == old(|idx|) && Near(i)
        invariant at < n && (!moved ==> i == at)
        invariant moved ==> forall j :: 0 < j < n && j != i ==> Ordered(j)
        decreases i
      {
        var p := Parent(i);
        if heap[i].deadline >= heap[p].deadline {
          break;
        }
        MoveUp(i);
        moved := true;
        i := p;
      }
      if moved {
        HeapIsNear(at);
      }
    }

    lemma HeapIsNear(i: nat)
      requires HeapOk() && i < n
      ensures Near(i) && (i > 0 ==> Ordered(i))
    {
      forall j | 0 < j < n && Parent(j) == i && i > 0 ensures heap[Parent(i)].deadline <= heap[j].deadline {
        assert Ordered(j) && Ordered(i);
      }
    }

    /** The child that sift_down picks: the earliest of those before the timer at i, or n. */
    method EarliestChild(i: nat) returns (c: nat)
      requires i < n <= heap.Length
      ensures c == n || (0 < c < n && Parent(c) == i && heap[c].deadline < heap[i].deadline)
      ensures forall j :: 0 < j < n && Parent(j) == i ==> heap[if c == n then i else c].deadline <= heap[j].deadline
    {
      c := n;
      var w := heap[i].deadline;
      var j := i * D + 1;
      while j <= i * D + D && j < n
        invariant i * D + 1 <= j <= i * D + D + 1
        invariant c == n || (0 < c < n && Parent(c) == i && heap[c].deadline < heap[i].deadline)
        invariant w == heap[if c == n then i else c].deadline
        invariant forall k :: i * D + 1 <= k < j && k < n ==> w <= heap[k].deadline
      {
        if heap[j].deadline < w {
          w, c := heap[j].deadline, j;
        }
        j := j + 1;
      }
    }

    /** One round of sift_down. */
    method MoveDown(i: nat, c: nat)
      requires BackOk() && Near(i) && (i > 0 ==> Ordered(i))
      requires 0 < c < n && Parent(c) == i && heap[c].deadline < heap[i].deadline
      requires forall j :: 0 < j < n && Parent(j) == i ==> heap[c].deadline <= heap[j].deadline
      modifies heap, this`idx
      ensures BackOk() && |idx| == old(|idx|) && Near(c) && Ordered(c)
    {
      Swap(i, c);
      assert i > 0 ==> Ordered(i);
      forall j | 0 < j < n && j != c && Parent(j) != c ensures Ordered(j) {
        assert j != i && Parent(j) != i ==> old(Ordered(j));
      }
      forall j | 0 < j < n && Parent(j) == c ensures heap[Parent(c)].deadline <= heap[j].deadline {
        assert old(Ordered(j));
      }
    }

    /** sift_down */
    method SiftDown(at: nat)
      requires BackOk() && Near(at) && (at > 0 ==> Ordered(at))
      modifies heap, this`idx
      ensures BackOk() && HeapOk() && |idx| == old(|idx|)
    {
      var i := at;
      while true
        invariant BackOk() && |idx| == old(|idx|) && i < n && Near(i) && (i > 0 ==> Ordered(i))
        decreases n - i
      {
        var c := EarliestChild(i);
        if c == n {
          forall j | 0 < j < n ensures Ordered(j) { }
          break;
        }
        MoveDown(i, c);
        i := c;
      }
    }

    // ---------------------------------------------------------------- operations

    constructor (entries: nat, cyclesPerUs: nat, startTsc: nat)
      ensures Valid() && fresh(heap) && due == map[] && |armed| == entries
      ensures this.cyclesPerUs == cyclesPerUs && this.startTsc == startTsc
    {
      this.cyclesPerUs, this.startTsc := cyclesPerUs, startTsc;
      heap := new Timer[MAX_TIMERS](_ => Timer(0, 0));
      n, idx, due, nextTsc := 0, seq(entries, _ => 0), map[], UINT64_MAX;
      armed, executing := seq(entries, _ => false), seq(entries, _ => false);
    }

    /** update_q_ptrs */
    method UpdateQPtrs()
      requires n <= heap.Length
      modifies this`nextTsc
      ensures PublishedOk()
    {
      var next := UINT64_MAX;
      if n != 0 {
        next := (heap[0].deadline * cyclesPerUs + startTsc) % (UINT64_MAX + 1);
      }
      nextTsc := next;
    }

    /** A timer is put behind the last one. */
    method Append(e: nat, deadline: nat)
      requires BackOk() && HeapOk() && e < |idx| && e !in due && n + 1 < MAX_TIMERS
      modifies heap, this`n, this`idx, this`due
      ensures BackOk() && n == old(n) + 1 && Near(n - 1) && |idx| == old(|idx|)
      ensures due == old(due)[e := deadline]
    {
      var i := n;
      n := n + 1;
      heap[i] := Timer(deadline, e);
      idx := idx[e := i];
      due := due[e := deadline];
      forall k | 0 <= k < n ensures Placed(heap[k], k) {
        assert k < i ==> old(Placed(heap[k], k));
      }
      forall j | 0 < j < n && j != i ensures Ordered(j) { assert old(Ordered(j)); }
    }

    /** timer_start; starting an armed timer or one too many stops the program. */
    method Start(e: nat, deadline: nat)
      requires Valid() && e < |armed| && !armed[e] && n + 1 < MAX_TIMERS
      modifies this, heap
      ensures Valid() && due == old(due)[e := deadline]
      ensures armed == old(armed)[e := true] && executing == old(executing)[e := false]
    {
      Append(e, deadline);
      SiftUp(n - 1);
      armed, executing := armed[e := true], executing[e := false];
      forall j | 0 < j < n ensures Ordered(j) { }
      UpdateQPtrs();
    }

    /** The timer at position v leaves, and the last one takes its place. */
    method Vacate(v: nat)
      requires BackOk() && HeapOk() && v < n
      modifies heap, this`n, this`idx, this`due
      ensures BackOk() && n == old(n) - 1 && |idx| == old(|idx|)
      ensures due == old(due) - {old(heap[v].e)}
      ensures if v < n then Near(v) else HeapOk()
    {
      assert Placed(heap[v], v) && Placed(heap[n - 1], n - 1);
      ghost var e := heap[v].e;
      n := n - 1;
      due := due - {e};
      if v != n {
        heap[v] := heap[n];
        idx := idx[heap[v].e := v];
      }
      forall k | 0 <= k < n ensures Placed(heap[k], k) {
        assert old(Placed(heap[k], k));
      }
      forall j | 0 < j < n && j != v && Parent(j) != v ensures Ordered(j) { assert old(Ordered(j)); }
      if v > 0 {
        assert old(Ordered(v));
        forall j | 0 < j < n && Parent(j) == v ensures heap[Parent(v)].deadline <= heap[j].deadline {
          assert old(Ordered(j));
        }
      }
    }

    /** __timer_cancel: exactly the given entry goes, wherever it is in the heap. */
    method Cancel(e: nat) returns (ok: bool)
      requires Valid() && e < |armed|
      modifies this, heap
      ensures Valid() && ok == old(armed[e])
      ensures due == old(due) - {e} && armed == old(armed)[e := false] && executing == old(executing)
    {
      hide HeapOk, Near;
      if !armed[e] {
        assert due == due - {e};
        return false;
      }
      armed := armed[e := false];
      var v := idx[e];
      Vacate(v);
      if v < n {
        SiftUp(v);
        SiftDown(v);
      }
      UpdateQPtrs();
      return true;
    }

    /** In a heap the root is the earliest. */
    lemma {:induction false} RootIsEarliest(i: nat)
      requires HeapOk() && i < n
      ensures heap[0].deadline <= heap[i].deadline
    {
      if i > 0 {
        assert Ordered(i);
        RootIsEarliest(Parent(i));
      }
    }

    /** One round of the loop in timer_softirq_one, when the root is due: the earliest timer fires. */
    method Fire() returns (e: nat)
      requires Valid() && n > 0
      modifies this, heap
      ensures Valid() && e in old(due) && due == old(due) - {e}
      ensures forall x :: x in old(due) ==> old(due)[e] <= old(due)[x]
      ensures e < old(|armed|) == old(|executing|)
      ensures armed == old(armed)[e := false] && executing == old(executing)[e := true]
    {
      hide HeapOk, Near;
      EarliestIsRoot();
      assert Placed(heap[0], 0);
      e := heap[0].e;
      Vacate(0);
      if n > 0 {
        SiftDown(0);
      }
      UpdateQPtrs();
      executing, armed := executing[e := true], armed[e := false];
    }

    /** The published time is that of a timer none is before, or the largest value when there is none. */
    lemma PublishedIsEarliest()
      requires Valid()
      ensures due == map[] ==> nextTsc == UINT64_MAX
      ensures due != map[] ==> exists e :: e in due && nextTsc == Tsc(due[e], cyclesPerUs, startTsc)
                                          && forall x :: x in due ==> due[e] <= due[x]
    {
      EarliestIsRoot();
      if n == 0 {
        assert due == map[];
      }
    }

    /** The handler has returned. */
    method Finish(e: nat)
      requires Valid() && e < |executing|
      modifies this`executing
      ensures Valid() && executing == old(executing)[e := false]
    {
      executing := executing[e := false];
    }

    /**
     timer_softirq_one, while no handler starts a timer: now[i] is the time seen in round i, preempt[i]
     a pending preemption.
     */
    method Softirq(now: seq<nat>, preempt: seq<bool>) returns (fired: seq<nat>)
      requires Valid() && |now| == |preempt|
      modifies this, heap
      ensures Valid() && |fired| <= |now|
      ensures forall i :: 0 <= i < |fired| ==> fired[i] in old(due) && old(due)[fired[i]] <= now[i]
      ensures forall i, j :: 0 <= i < j < |fired| ==> fired[i] != fired[j] && old(due)[fired[i]] <= old(due)[fired[j]]
      ensures due == old(due) - (set e | e in fired)
      ensures |fired| < |now| && !preempt[|fired|] ==> forall e :: e in due ==> now[|fired|] < due[e]
    {
      hide HeapOk, FlagsOk, PublishedOk;
      fired := [];
      var i := 0;
      while i < |now| && !preempt[i] && n > 0 && heap[0].deadline <= now[i]
        invariant Valid() && i == |fired| <= |now|
        invariant forall k :: 0 <= k < |fired| ==> fired[k] in old(due) && old(due)[fired[k]] <= now[k]
        invariant forall k :: 0 <= k < |fired| ==> forall e :: e in due ==> old(due)[fired[k]] <= due[e]
        invariant forall j, k :: 0 <= j < k < |fired| ==>
                  fired[j] != fired[k] && old(due)[fired[j]] <= old(due)[fired[k]]
        invariant due == old(due) - (set e | e in fired)
      {
        ghost var before := due;
        EarliestIsRoot();
        var e := Fire();
        Finish(e);
        assert old(due)[e] == before[e];
        fired := fired + [e];
        assert due == old(due) - (set x | x in fired);
        i := i + 1;
      }
      EarliestIsRoot();
    }

    lemma EarliestIsRoot()
      requires Valid()
      ensures forall x :: x in due ==> n > 0 && heap[0].deadline <= due[x]
      ensures n > 0 ==> heap[0].e in due && due[heap[0].e] == heap[0].deadline
    {
      assert n > 0 ==> Placed(heap[0], 0);
      forall x | x in due ensures n > 0 && heap[0].deadline <= due[x] {
        assert Placed(heap[idx[x]], idx[x]);
        RootIsEarliest(idx[x]);
      }
    }

    /** is_valid_heap, as far as it looks: it skips position 1. */
    method IsValidHeap() returns (ok: bool)
      requires n <= heap.Length
      ensures ok <==> forall j :: 1 < j < n ==> Ordered(j)
      ensures HeapOk() <==> ok && (n > 1 ==> Ordered(1))
    {
      var i: int := n - 1;
      while i > 1
        invariant i < n && forall j :: i < j < n && j > 1 ==> Ordered(j)
      {
        if heap[Parent(i)].deadline > heap[i].deadline {
          assert !Ordered(i);
          return false;
        }
        i := i - 1;
      }
      return true;
    }
  }

  /** Two entries out of order, which is_valid_heap accepts. */
  method SkipsSecondEntry() returns (t: Timers, ok: bool)
    ensures t.n == 2 <= t.heap.Length && ok && !t.HeapOk()
  {
    t := new Timers(2, 1, 0);
    t.heap[0], t.heap[1] := Timer(5, 0), Timer(3, 1);
    t.n := 2;
    ok := t.IsValidHeap();
    assert !t.Ordered(1);
  }
}
