/**
 The blocking primitives that hand themselves over under a spinlock: read-write mutex,
 barrier and wait group.  A locked section is one method; threads it makes ready are returned.
 */
module Sync {
  import opened Seqs

  type Thread = nat

  class RwMutex {
    var count: int                  // -1 for a writer, else the number of readers
    var readWaiterCount: int
    var readWaiters: seq<Thread>
    var writeWaiters: seq<Thread>

    ghost var readers: multiset<Thread>
    ghost var writer: Opt

    /** The count describes the holders, and nobody waits who could be let in. */
    ghost predicate Valid()
      reads this
    {
      && CountOk()
      && readWaiterCount == |readWaiters|
      && (count >= 0 ==> readWaiters == [])
      && (count == 0 ==> writeWaiters == [])
    }

    /** The threads that hold the lock. */
    ghost function Holders(): multiset<Thread>
      reads this`readers, this`writer
    {
      readers + if writer.Some? then multiset{writer.t} else multiset{}
    }

    ghost predicate Unheld()
      reads this`readers, this`writer
    {
      writer == None && |readers| == 0
    }

    /** Every thread that asked for the lock and has not given it back, holding or waiting. */
    ghost function Everyone(): multiset<Thread>
      reads this
    {
      Holders() + multiset(readWaiters) + multiset(writeWaiters)
    }

    constructor ()
      ensures Valid() && Everyone() == multiset{}
    {
      count, readWaiterCount, readWaiters, writeWaiters := 0, 0, [], [];
      readers, writer := multiset{}, None;
    }

    /** rwmutex_rdlock; the caller parks when it is not admitted. */
    method RdLock(t: Thread) returns (admitted: bool)
      requires Valid()
      modifies this
      ensures Valid() && Everyone() == old(Everyone()) + multiset{t}
      ensures admitted == (old(writer) == None) && writer == old(writer) && writeWaiters == old(writeWaiters)
      ensures readers == if admitted then old(readers) + multiset{t} else old(readers)
    {
      if count >= 0 {
        count := count + 1;
        readers := readers + multiset{t};
        return true;
      }
      readWaiterCount := readWaiterCount + 1;
      readWaiters := readWaiters + [t];
      return false;
    }

    /** rwmutex_try_rdlock */
    method TryRdLock(t: Thread) returns (admitted: bool)
      requires Valid()
      modifies this
      ensures Valid() && admitted == (old(writer) == None)
      ensures Everyone() == if admitted then old(Everyone()) + multiset{t} else old(Everyone())
      ensures readers == (if admitted then old(readers) + multiset{t} else old(readers)) && writer == old(writer)
    {
      if count >= 0 {
        count := count + 1;
        readers := readers + multiset{t};
        return true;
      }
      return false;
    }

    /** rwmutex_wrlock */
    method WrLock(t: Thread) returns (admitted: bool)
      requires Valid()
      modifies this
      ensures Valid() && Everyone() == old(Everyone()) + multiset{t}
      ensures admitted == old(Unheld()) && readers == old(readers) && readWaiters == old(readWaiters)
      ensures writer == if admitted then Some(t) else old(writer)
    {
      if count == 0 {
        count := -1;
        writer := Some(t);
        return true;
      }
      writeWaiters := writeWaiters + [t];
      return false;
    }

    /** rwmutex_try_wrlock */
    method TryWrLock(t: Thread) returns (admitted: bool)
      requires Valid()
      modifies this
      ensures Valid() && admitted == old(Unheld())
      ensures Everyone() == if admitted then old(Everyone()) + multiset{t} else old(Everyone())
      ensures writer == (if admitted then Some(t) else old(writer)) && readers == old(readers)
    {
      if count == 0 {
        count := -1;
        writer := Some(t);
        return true;
      }
      return false;
    }

    /** The holders and the count, whatever the waiters. */
    ghost predicate CountOk()
      reads this`count, this`readers, this`writer
    {
      && (writer.Some? ==> count == -1 && readers == multiset{})
      && (writer == None ==> count == |readers|)
    }

    method GiveBack(t: Thread)
      requires CountOk() && t in Holders()
      modifies this`count, this`readers, this`writer
      ensures CountOk() && writer == None && Holders() == old(Holders()) - multiset{t}
      ensures old(count) < 0 || count == old(count) - 1
      ensures count >= 0 && (old(count) < 0 ==> count == 0)
    {
      if count < 0 {
        count := 0;
        writer := None;
      } else {
        count := count - 1;
        readers := readers - multiset{t};
      }
    }

    /** All waiting readers are let in. */
    method AdmitReaders() returns (woken: seq<Thread>)
      requires CountOk() && count == 0 && readWaiterCount == |readWaiters|
      modifies this`count, this`readWaiterCount, this`readWaiters, this`readers
      ensures CountOk() && readWaiters == [] && readWaiterCount == 0 && woken == old(readWaiters)
      ensures Holders() == multiset(woken) && (woken != [] ==> count > 0)
    {
      assert |readers| == 0 && readers == multiset{};
      woken := readWaiters;
      count := readWaiterCount;
      readWaiterCount, readWaiters := 0, [];
      readers := multiset(woken);
    }

    /** The first waiting writer is let in. */
    method AdmitWriter() returns (woken: seq<Thread>)
      requires CountOk() && count == 0 && writeWaiters != []
      modifies this`count, this`writeWaiters, this`writer
      ensures CountOk() && count == -1 && writer == Some(old(writeWaiters)[0])
      ensures woken == [old(writeWaiters)[0]] && old(writeWaiters) == woken + writeWaiters
      ensures Holders() == multiset(woken)
    {
      assert |readers| == 0 && readers == multiset{};
      woken := [writeWaiters[0]];
      writeWaiters := writeWaiters[1..];
      count := -1;
      writer := Some(woken[0]);
    }

    /**
     rwmutex_unlock by a holder.  The last one out lets in all waiting readers, else the first
     waiting writer; exactly the threads let in are made ready, and no waiter is lost.
     */
    method Unlock(t: Thread) returns (woken: seq<Thread>)
      requires Valid() && t in Holders()
      modifies this
      ensures Valid()
      ensures Holders() == if woken == [] then old(Holders()) - multiset{t} else multiset(woken)
      ensures woken != [] ==> old(Holders()) == multiset{t}
      ensures old(Holders()) != multiset{t} ==> readWaiters == old(readWaiters) && writeWaiters == old(writeWaiters)
      ensures old(Holders()) == multiset{t} ==>
                if old(readWaiters) != [] then
                  woken == old(readWaiters) && readWaiters == [] && writeWaiters == old(writeWaiters)
                else if old(writeWaiters) != [] then
                  woken + writeWaiters == old(writeWaiters) && writer == Some(old(writeWaiters)[0])
                else
                  woken == [] && readWaiters == writeWaiters == []
    {
      LastHolder(t);
      GiveBack(t);
      woken := [];
      if count == 0 && readWaiterCount > 0 {
        woken := AdmitReaders();
      } else if count == 0 && writeWaiters != [] {
        woken := AdmitWriter();
      }
    }

    lemma LastHolder(t: Thread)
      requires CountOk() && t in Holders()
      ensures Holders() == multiset{t} <==> count < 0 || count == 1
    {
      if writer == None && |readers| == 1 {
        assert |readers - multiset{t}| == 0;
        assert readers == (readers - multiset{t}) + multiset{t};
      }
    }

    /** A summary of Valid, which every operation keeps: a writer is alone. */
    lemma WriterExcludesAll(t: Thread)
      requires Valid() && writer == Some(t)
      ensures Holders() == multiset{t}
    {
    }
  }

  /** A barrier of fewer than one thread behaves like one of one. */
  function Size(count: int): (n: nat)
    ensures n >= 1
  {
    if count >= 1 then count else 1
  }

  class Barrier {
    const count: int
    var waiting: int
    var waiters: seq<Thread>

    ghost predicate Valid()
      reads this
    {
      waiting == |waiters| < Size(count)
    }

    constructor (count: int)
      ensures Valid() && waiters == [] && this.count == count
    {
      this.count := count;
      waiting, waiters := 0, [];
    }

    /** barrier_wait; the thread that completes a round releases it, the others park. */
    method Wait(t: Thread) returns (released: bool, woken: seq<Thread>)
      requires Valid()
      modifies this
      ensures Valid() && released == (old(|waiters|) + 1 == Size(count))
      ensures released ==> woken == old(waiters) && waiters == [] && |woken + [t]| == Size(count)
      ensures !released ==> woken == [] && waiters == old(waiters) + [t]
    {
      waiting := waiting + 1;
      if waiting >= count {
        woken := waiters;
        waiters, waiting := [], 0;
        return true, woken;
      }
      waiters := waiters + [t];
      return false, [];
    }

    /** Over any sequence of arrivals: the k-th round is the k-th stretch of count of them, in order. */
    method Arrivals(ts: seq<Thread>) returns (rounds: seq<seq<Thread>>)
      requires Valid() && waiters == []
      modifies this
      ensures Valid() && |rounds| * Size(count) + |waiters| == |ts| && Concat(rounds) + waiters == ts
      ensures forall k :: 0 <= k < |rounds| ==> |rounds[k]| == Size(count)
    {
      rounds := [];
      for i := 0 to |ts|
        invariant Valid() && Concat(rounds) + waiters == ts[..i]
        invariant forall k :: 0 <= k < |rounds| ==> |rounds[k]| == Size(count)
      {
        var released, woken := Wait(ts[i]);
        assert ts[..i + 1] == ts[..i] + [ts[i]];
        if released {
          ConcatSnoc(rounds, woken + [ts[i]]);
          rounds := rounds + [woken + [ts[i]]];
        }
      }
      assert ts[..|ts|] == ts;
      ConcatLength(rounds, Size(count));
    }
  }

  function Concat(ss: seq<seq<Thread>>): seq<Thread> {
    if ss == [] then [] else Concat(ss[..|ss| - 1]) + ss[|ss| - 1]
  }

  lemma ConcatSnoc(ss: seq<seq<Thread>>, s: seq<Thread>)
    ensures Concat(ss + [s]) == Concat(ss) + s
  {
    assert (ss + [s])[..|ss|] == ss;
  }

  lemma {:induction false} ConcatLength(ss: seq<seq<Thread>>, n: nat)
    requires forall k :: 0 <= k < |ss| ==> |ss[k]| == n
    ensures |Concat(ss)| == |ss| * n
  {
    if ss != [] {
      ConcatLength(ss[..|ss| - 1], n);
      assert |ss| * n == (|ss| - 1) * n + n;
    }
  }

  class WaitGroup {
    var cnt: int
    var waiters: seq<Thread>

    /** Nobody waits for a group that is already done. */
    ghost predicate Valid()
      reads this
    {
      cnt >= 0 && (cnt == 0 ==> waiters == [])
    }

    constructor ()
      ensures Valid() && cnt == 0 && waiters == []
    {
      cnt, waiters := 0, [];
    }

    /** waitgroup_add; a count below zero stops the program. */
    method Add(d: int) returns (woken: seq<Thread>)
      requires Valid() && cnt + d >= 0
      modifies this
      ensures Valid() && cnt == old(cnt) + d
      ensures if cnt == 0 then woken == old(waiters) && waiters == [] else woken == [] && waiters == old(waiters)
    {
      cnt := cnt + d;
      woken := [];
      if cnt == 0 {
        woken, waiters := waiters, [];
      }
    }

    /** waitgroup_wait; the caller parks unless the group is done. */
    method Wait(t: Thread) returns (done: bool)
      requires Valid()
      modifies this`waiters
      ensures Valid() && done == (cnt == 0)
      ensures waiters == if done then old(waiters) else old(waiters) + [t]
    {
      if cnt == 0 {
        return true;
      }
      waiters := waiters + [t];
      return false;
    }
  }
}
