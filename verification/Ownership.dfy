/**
 What the two core policies share: the table of who owns each core, its counters, its
 agreement with the core scheduler, and the core scheduler as a policy sees it.
 */
module Ownership {
  import opened CoreSched
  import opened Seqs

  // ------------------------------------------------------------------ who owns what

  ghost function Owned(owner: seq<Opt>, p: nat): (s: set<nat>)
  {
    set c | 0 <= c < |owner| && owner[c] == Some(p)
  }

  lemma OwnedUpdate(owner: seq<Opt>, c: nat, o: Opt, p: nat)
    requires c < |owner|
    ensures |Owned(owner[c := o], p)|
         == |Owned(owner, p)| + (if o == Some(p) then 1 else 0) - (if owner[c] == Some(p) then 1 else 0)
  {
    if o == Some(p) {
      assert Owned(owner[c := o], p) == Owned(owner, p) + {c};
    } else {
      assert Owned(owner[c := o], p) == Owned(owner, p) - {c};
    }
  }

  /** Sum of a per-proc quantity over the first n procs. */
  ghost function Sum(f: seq<int>, n: nat): int
    requires n <= |f|
  {
    if n == 0 then 0 else Sum(f, n - 1) + f[n - 1]
  }

  lemma {:induction false} SumUpdate(f: seq<int>, n: nat, i: nat, v: int)
    requires n <= |f| && i < |f|
    ensures Sum(f[i := v], n) == Sum(f, n) + if i < n then v - f[i] else 0
  {
    if n > 0 {
      SumUpdate(f, n - 1, i, v);
    }
  }

  lemma {:induction false} SumBelow(f: seq<int>, g: seq<int>, n: nat, p: nat)
    requires n <= |f| == |g| && p < n
    requires f[p] < g[p] && forall q :: 0 <= q < n ==> f[q] <= g[q]
    ensures Sum(f, n) < Sum(g, n)
  {
    if n - 1 == p {
      SumAtMost(f, g, n - 1);
    } else {
      SumBelow(f, g, n - 1, p);
    }
  }

  lemma {:induction false} SumAtMost(f: seq<int>, g: seq<int>, n: nat)
    requires n <= |f| == |g| && forall q :: 0 <= q < n ==> f[q] <= g[q]
    ensures Sum(f, n) <= Sum(g, n)
  {
    if n > 0 {
      SumAtMost(f, g, n - 1);
    }
  }

  lemma {:induction false} ZeroSum(f: seq<int>, n: nat)
    requires n <= |f| && forall p :: 0 <= p < n ==> f[p] == 0
    ensures Sum(f, n) == 0
  {
    if n > 0 {
      ZeroSum(f, n - 1);
    }
  }

  ghost function OwnedBelow(owner: seq<Opt>, n: nat): set<nat>
  {
    set c | 0 <= c < |owner| && owner[c].Some? && owner[c].t < n
  }

  lemma {:induction false} OwnedSum(owner: seq<Opt>, f: seq<int>, n: nat)
    requires n <= |f| && forall p :: 0 <= p < n ==> f[p] == |Owned(owner, p)|
    ensures Sum(f, n) == |OwnedBelow(owner, n)|
  {
    if n == 0 {
      assert OwnedBelow(owner, 0) == {};
    } else {
      OwnedSum(owner, f, n - 1);
      assert OwnedBelow(owner, n) == OwnedBelow(owner, n - 1) + Owned(owner, n - 1);
      assert OwnedBelow(owner, n - 1) !! Owned(owner, n - 1);
    }
  }

  /** Every owned core, except the skipped ones, is meant to run a kthread of its owner. */
  ghost predicate Agrees(owner: seq<Opt>, views: seq<Opt>, procOf: seq<nat>, skip: set<nat>) {
    && |owner| == |views|
    && forall c :: 0 <= c < |owner| && c !in skip && owner[c].Some? ==> RunsFor(views[c], procOf, owner[c].t)
  }

  predicate RunsFor(view: Opt, procOf: seq<nat>, p: nat) { view.Some? && Belongs(procOf, view.t, p) }

  function Bump(active: seq<int>, o: Opt, d: int): (r: seq<int>)
    ensures |r| == |active|
    ensures forall p :: 0 <= p < |active| ==> r[p] == active[p] + if o == Some(p) then d else 0
  {
    if o.Some? && o.t < |active| then active[o.t := active[o.t] + d] else active
  }

  // ------------------------------------------------------------------ the core scheduler as a policy sees it

  /** sched_threads_avail */
  method ThreadsAvail(mech: Dataplane, p: nat) returns (n: int)
    requires mech.Valid() && p < |mech.base| && Block(mech.procOf, mech.base[p], mech.count[p], p)
    ensures n == |mech.idles[p]|
  {
    AvailIsIdle(mech, p);
    return mech.count[p] - |mech.actives[p]|;
  }

  /** The kthreads of the other procs last ran where they did. */
  predicate HomesKept(procOf: seq<nat>, coreOf: seq<nat>, coreOf': seq<nat>, p: nat) {
    |coreOf'| == |coreOf| && forall x :: 0 <= x < |coreOf| && !Belongs(procOf, x, p) ==> coreOf'[x] == coreOf[x]
  }

  /** sched_run_on_core for an attached proc with a kthread to spare. */
  method RunInMech(mech: Dataplane, p: nat, core: nat, txBusy: set<Tid>) returns (st: Status)
    requires mech.Valid() && p < |mech.base| && mech.others[p] > 0 && mech.idles[p] != []
    modifies mech`active, mech`coreOf, mech`atIdx, mech`tsIdx, mech`actives, mech`idles, mech`flows, mech`refs,
             mech`released, mech`ts, mech`cores, mech`kern, mech`slot
    ensures mech.Valid() && st == if core in mech.coreTbl then Ok else Einval
    ensures st == Einval ==> Views(mech.cores) == old(Views(mech.cores))
    ensures st == Ok ==> core < |mech.cores|
    ensures st == Ok ==>
              exists t | Belongs(mech.procOf, t, p) :: Views(mech.cores) == old(Views(mech.cores))[core := Some(t)]
    ensures HomesKept(mech.procOf, old(mech.coreOf), mech.coreOf, p)
  {
    assert mech.RefOk(p, 0);
    ghost var pool := mech.idles[p];
    assert forall t :: t in pool ==> IsIdle(mech.procOf, mech.active, t, p);
    st := mech.RunOnCore(p, core, txBusy);
    if st == Ok {
      ghost var t: Tid :| t in pool && Views(mech.cores) == old(Views(mech.cores))[core := Some(t)];
      assert Belongs(mech.procOf, t, p);
    }
  }

  datatype Ret = Done | Busy | Invalid | NoCore

  lemma ReassignAgrees(owner: seq<Opt>, views: seq<Opt>, views': seq<Opt>, procOf: seq<nat>, skip: set<nat>,
                       core: nat, p: nat)
    requires Agrees(owner, views, procOf, skip) && core < |owner|
    requires exists t :: Belongs(procOf, t, p) && views' == views[core := Some(t)]
    ensures Agrees(owner[core := Some(p)], views', procOf, skip - {core})
  {
  }

  lemma {:induction false} Injection(owned: set<nat>, views: seq<Opt>, coreOf: seq<nat>, a: set<Tid>)
    requires forall c :: c in owned ==> c < |views| && views[c].Some? && views[c].t in a
                                        && views[c].t < |coreOf| && coreOf[views[c].t] == c
    ensures |owned| <= |a|
  {
    if owned != {} {
      var c :| c in owned;
      Injection(owned - {c}, views, coreOf, a - {views[c].t});
    }
  }

  ghost function Cleared(owner: seq<Opt>, p: nat): (r: seq<Opt>)
    ensures |r| == |owner|
    ensures forall c :: 0 <= c < |owner| ==> r[c] == if owner[c] == Some(p) then None else owner[c]
  {
    seq(|owner|, c requires 0 <= c < |owner| => if owner[c] == Some(p) then None else owner[c])
  }
}
