/**
 sched_steer_flows: spreads the flow table of a proc over its active kthreads.  Each
 active kthread keeps the entry of its own index and the remaining entries go round
 robin, so the entries are shared evenly.
 */
module FlowSteering {
  import opened Seqs

  const UINT_MAX: nat := 0xFFFF_FFFF
  const NCPU: nat := 256

  /** What a flow table for the active kthreads must satisfy. */
  ghost predicate Steered(flow: seq<nat>, active: seq<nat>) {
    && (forall i :: 0 <= i < |flow| ==> flow[i] in active)
    && (forall a :: a in active ==> a < |flow| && flow[a] == a)
    && Even(flow, active)
  }

  /** Any two active kthreads have the same number of entries, give or take one. */
  ghost predicate Even(flow: seq<nat>, active: seq<nat>) {
    forall a, b :: a in active && b in active ==> multiset(flow)[a] <= multiset(flow)[b] + 1
  }

  /** The entries of kthread number k after q full rounds and r further entries. */
  function Share(q: nat, r: nat, k: nat): nat { 1 + q + (if k < r then 1 else 0) }

  lemma MulBounds(d: int, n: nat)
    ensures d >= 1 ==> d * n >= n
    ensures d <= -1 ==> d * n <= 0 - n
  {
  }

  /** The next turn of a round robin over n. */
  lemma NextTurn(j: nat, n: nat)
    requires 0 < n
    ensures j % n + 1 < n ==> (j + 1) / n == j / n && (j + 1) % n == j % n + 1
    ensures j % n + 1 == n ==> (j + 1) / n == j / n + 1 && (j + 1) % n == 0
  {
    var (q, r) := if j % n + 1 < n then (j / n, j % n + 1) else (j / n + 1, 0);
    var d := (j + 1) / n - q;
    assert j + 1 == q * n + r;
    assert d * n == r - (j + 1) % n;
    MulBounds(d, n);
  }

  /** Overwriting one entry changes only the counts of the old and the new value. */
  lemma CountUpdate(flow: seq<nat>, i: nat, x: nat, v: nat)
    requires i < |flow|
    ensures multiset(flow[i := x])[v] + (if flow[i] == v then 1 else 0)
         == multiset(flow)[v] + (if x == v then 1 else 0)
  {
    assert flow == flow[..i] + [flow[i]] + flow[i + 1..];
    assert flow[i := x] == flow[..i] + [x] + flow[i + 1..];
  }

  ghost predicate Names(active: seq<nat>, n: nat) {
    NoDup(active) && n <= NCPU && forall k :: 0 <= k < |active| ==> active[k] < n
  }

  /** First every active kthread gets the entry of its own index. */
  method OwnEntries(active: seq<nat>, n: nat) returns (flow: seq<nat>)
    requires Names(active, n)
    ensures |flow| == n
    ensures forall k :: 0 <= k < |active| ==> flow[active[k]] == active[k] && multiset(flow)[active[k]] == 1
    ensures forall m :: 0 <= m < n ==> flow[m] == UINT_MAX || flow[m] in active
  {
    flow := seq(n, _ => UINT_MAX);
    var i := 0;
    while i < |active|
      invariant 0 <= i <= |active| && |flow| == n
      invariant forall k :: 0 <= k < i ==> flow[active[k]] == active[k]
      invariant forall k :: i <= k < |active| ==> flow[active[k]] == UINT_MAX
      invariant forall m :: 0 <= m < n ==> flow[m] == UINT_MAX || flow[m] in active
      invariant forall k :: 0 <= k < |active| ==> multiset(flow)[active[k]] == if k < i then 1 else 0
    {
      forall k | 0 <= k < |active|
        ensures multiset(flow[active[i] := active[i]])[active[k]] == if k < i + 1 then 1 else 0
      {
        CountUpdate(flow, active[i], active[i], active[k]);
      }
      flow := flow[active[i] := active[i]];
      i := i + 1;
    }
  }

  /** Then the remaining entries go to the active kthreads in turn. */
  method RoundRobin(active: seq<nat>, own: seq<nat>) returns (flow: seq<nat>)
    requires active != [] && Names(active, |own|)
    requires forall k :: 0 <= k < |active| ==> own[active[k]] == active[k] && multiset(own)[active[k]] == 1
    requires forall m :: 0 <= m < |own| ==> own[m] == UINT_MAX || own[m] in active
    ensures |flow| == |own| && Steered(flow, active)
  {
    flow := own;
    var j: nat, n := 0, |active|;
    for i := 0 to |own|
      invariant |flow| == |own|
      invariant forall k :: 0 <= k < n ==> flow[active[k]] == active[k]
      invariant forall m :: 0 <= m < i ==> flow[m] in active
      invariant forall m :: i <= m < |own| ==> flow[m] == UINT_MAX || flow[m] in active
      invariant Shared(flow, active, j)
    {
      if flow[i] == UINT_MAX {
        var turn := j % n;
        NextShare(flow, active, j, i);
        flow := flow[i := active[turn]];
        j := j + 1;
      }
    }
    SharedIsEven(flow, active, j);
  }

  /** The counts after j entries were dealt. */
  ghost predicate Shared(flow: seq<nat>, active: seq<nat>, j: nat)
    requires active != []
  {
    forall k :: 0 <= k < |active| ==> multiset(flow)[active[k]] == Share(j / |active|, j % |active|, k)
  }

  lemma NextShare(flow: seq<nat>, active: seq<nat>, j: nat, i: nat)
    requires active != [] && Names(active, |flow|) && Shared(flow, active, j)
    requires i < |flow| && flow[i] == UINT_MAX
    ensures Shared(flow[i := active[j % |active|]], active, j + 1)
  {
    NextTurn(j, |active|);
    forall k | 0 <= k < |active|
      ensures multiset(flow[i := active[j % |active|]])[active[k]] == Share((j + 1) / |active|, (j + 1) % |active|, k)
    {
      CountUpdate(flow, i, active[j % |active|], active[k]);
    }
  }

  lemma SharedIsEven(flow: seq<nat>, active: seq<nat>, j: nat)
    requires active != [] && Shared(flow, active, j)
    ensures Even(flow, active)
  {
  }

  method SteerFlows(active: seq<nat>, threadCount: nat, before: seq<nat>) returns (flow: seq<nat>)
    requires Names(active, threadCount) && |before| == threadCount
    ensures |flow| == threadCount
    ensures active == [] ==> flow == before
    ensures active != [] ==> Steered(flow, active)
  {
    if active == [] {
      return before;
    }
    flow := OwnEntries(active, threadCount);
    flow := RoundRobin(active, flow);
  }
}
