/**
 The simple policy: which proc owns each core, which cores are idle, and which procs wait
 for cores, on top of the core switching of CoreSched.
 */
module SimplePolicy {
  import opened CoreSched
  import opened Ownership
  import opened Seqs

  const NHIST := 4

  /** simple_proc_is_preemptible */
  predicate Preemptible(active: seq<int>, guaranteed: seq<int>, cur: nat, next: nat)
    requires |active| == |guaranteed| && next < |active|
  {
    cur < |active| && active[cur] > guaranteed[cur] && active[next] < guaranteed[next]
  }

  /**
   The pigeonhole behind the guarantee: when the owned cores could meet every guarantee and a proc
   is below its own, some other proc is above its own.
   */
  lemma SomeCoreCanBeTaken(owner: seq<Opt>, active: seq<int>, guaranteed: seq<int>, p: nat)
    requires |active| == |guaranteed| && p < |active|
    requires forall q :: 0 <= q < |active| ==> active[q] == |Owned(owner, q)| && guaranteed[q] >= 0
    requires active[p] < guaranteed[p] && Sum(guaranteed, |guaranteed|) <= |OwnedBelow(owner, |active|)|
    ensures exists c :: 0 <= c < |owner| && owner[c].Some? && owner[c] != Some(p)
                        && Preemptible(active, guaranteed, owner[c].t, p)
  {
    if forall q :: 0 <= q < |active| ==> active[q] <= guaranteed[q] {
      OwnedSum(owner, active, |active|);
      SumBelow(active, guaranteed, |active|, p);
    } else {
      var q :| 0 <= q < |active| && active[q] > guaranteed[q];
      assert Owned(owner, q) != {};
      var c :| c in Owned(owner, q);
      assert Preemptible(active, guaranteed, owner[c].t, p);
    }
  }

  /** Idle and owned cores are the scheduler's, an idle one is unowned, and the counters count the owned ones. */
  ghost predicate Table(owner: seq<Opt>, idleBits: set<nat>, attached: seq<bool>, active: seq<int>, tbl: seq<nat>) {
    && |active| == |attached|
    && (forall c :: c in tbl ==> c < |owner|)
    && (forall c :: c in idleBits ==> c in tbl && owner[c] == None)
    && (forall c :: 0 <= c < |owner| && owner[c].Some? ==> c in tbl && owner[c].t < |attached| && attached[owner[c].t])
    && (forall p :: 0 <= p < |active| ==> active[p] == |Owned(owner, p)|)
  }

  lemma ReassignKeepsTable(owner: seq<Opt>, idleBits: set<nat>, attached: seq<bool>, active: seq<int>, tbl: seq<nat>,
                           core: nat, o: Opt)
    requires Table(owner, idleBits, attached, active, tbl) && core < |owner|
    requires o.Some? ==> core in tbl && o.t < |attached| && attached[o.t]
    ensures Table(owner[core := o], if o.Some? then idleBits - {core} else idleBits, attached,
                  Bump(Bump(active, owner[core], -1), o, 1), tbl)
  {
    forall p | 0 <= p < |active| ensures Bump(Bump(active, owner[core], -1), o, 1)[p] == |Owned(owner[core := o], p)| {
      OwnedUpdate(owner, core, o, p);
    }
  }

  /** What the slow pass tells the policy: a proc's measured delay, or that it needs a core for its I/O. */
  datatype Note = Measured(p: nat, congestedNow: bool) | CoreNeeded(p: nat)

  class Policy {
    const mech: Dataplane

    var owner: seq<Opt>              // cores[]
    var idleBits: set<nat>           // simple_idle_cores
    var hist: seq<seq<Opt>>
    var congested: seq<nat>          // congested_procs
    // struct simple_data
    var attached: seq<bool>
    var isCongested: seq<bool>
    var waking: seq<bool>
    var guaranteed: seq<int>
    var maxCores: seq<int>
    var active: seq<int>
    // nr_guaranteed of the core scheduler
    var nrGuaranteed: int

    ghost predicate Sizes()
      reads this, mech`others
    {
      && NoDup(mech.coreTbl) && |mech.others| == |mech.base| == |mech.count|
      && (forall p :: 0 <= p < |mech.base| ==> Block(mech.procOf, mech.base[p], mech.count[p], p))
      && |attached| == |isCongested| == |waking| == |guaranteed| == |maxCores| == |active| == |mech.base|
      && |owner| == |hist| == |mech.siblings|
      && forall p :: 0 <= p < |attached| && attached[p] ==> mech.others[p] > 0
    }

    /** No dangling entries: the list and the history name attached procs only. */
    ghost predicate ListsOk()
      reads this`congested, this`isCongested, this`hist, this`attached
    {
      && |isCongested| == |attached|
      && NoDup(congested)
      && (forall p :: p in congested <==> 0 <= p < |isCongested| && isCongested[p])
      && (forall p :: 0 <= p < |isCongested| && isCongested[p] ==> attached[p])
      && (forall c :: 0 <= c < |hist| ==> |hist[c]| == NHIST)
      && (forall c, i :: 0 <= c < |hist| && 0 <= i < |hist[c]| && hist[c][i].Some? ==>
            hist[c][i].t < |attached| && attached[hist[c][i].t])
    }

    ghost predicate Admitted()
      reads this`guaranteed, this`attached, this`nrGuaranteed
    {
      && |guaranteed| == |attached|
      && (forall p :: 0 <= p < |guaranteed| ==> guaranteed[p] >= 0 && (!attached[p] ==> guaranteed[p] == 0))
      && nrGuaranteed == Sum(guaranteed, |guaranteed|) <= |mech.coreTbl|
    }

    ghost predicate TableOk()
      reads this`owner, this`idleBits, this`attached, this`active
    {
      Table(owner, idleBits, attached, active, mech.coreTbl)
    }

    /** The policy's own books; and they agree with the mechanism on all cores but the skipped ones. */
    ghost predicate BooksBut(skip: set<nat>)
      reads this, mech`others, mech`cores
    {
      Sizes() && ListsOk() && Admitted() && TableOk() && Agrees(owner, Views(mech.cores), mech.procOf, skip)
    }

    ghost predicate ValidBut(skip: set<nat>)
      reads this, mech
    {
      mech.Valid() && BooksBut(skip)
    }

    ghost predicate Valid()
      reads this, mech
    {
      ValidBut({})
    }

    /** simple_init, with no proc attached yet. */
    constructor (mech: Dataplane)
      requires mech.Valid() && NoDup(mech.coreTbl)
      requires forall p :: 0 <= p < |mech.base| ==> Block(mech.procOf, mech.base[p], mech.count[p], p)
      ensures Valid() && this.mech == mech
      ensures idleBits == Elems(mech.coreTbl) && forall p :: 0 <= p < |attached| ==> !attached[p]
      ensures |attached| == |guaranteed| == |mech.base| && |owner| == |mech.siblings| && nrGuaranteed == 0
    {
      this.mech := mech;
      owner := seq(|mech.siblings|, _ => None);
      idleBits := set c | c in mech.coreTbl;
      hist := seq(|mech.siblings|, _ => [None, None, None, None]);
      congested := [];
      attached := seq(|mech.base|, _ => false);
      isCongested := seq(|mech.base|, _ => false);
      waking := seq(|mech.base|, _ => false);
      guaranteed := seq(|mech.base|, _ => 0);
      maxCores := seq(|mech.base|, _ => 0);
      active := seq(|mech.base|, _ => 0);
      nrGuaranteed := 0;
      new;
      forall p | 0 <= p < |active| ensures active[p] == |Owned(owner, p)| { assert Owned(owner, p) == {}; }
      ZeroSum(guaranteed, |guaranteed|);
    }

    // ---------------------------------------------------------------- congestion marks and core history

    method MarkCongested(p: nat)
      requires ListsOk() && p < |attached| && attached[p]
      modifies this`isCongested, this`congested
      ensures ListsOk() && isCongested == old(isCongested)[p := true]
    {
      if isCongested[p] {
        return;
      }
      isCongested := isCongested[p := true];
      congested := [p] + congested;
    }

    method UnmarkCongested(p: nat)
      requires ListsOk() && p < |attached|
      modifies this`isCongested, this`congested
      ensures ListsOk() && isCongested == old(isCongested)[p := false]
    {
      if !isCongested[p] {
        return;
      }
      isCongested := isCongested[p := false];
      congested := Without(congested, p);
    }

    /** simple_cleanup_core */
    method CleanupCore(core: nat)
      requires ListsOk() && TableOk() && core < |owner| == |hist|
      modifies this`owner, this`active, this`hist
      ensures ListsOk() && TableOk() && |hist| == old(|hist|)
      ensures owner == old(owner)[core := None] && active == Bump(old(active), old(owner[core]), -1)
      ensures hist == if old(owner[core]) == None then old(hist)
                      else old(hist)[core := [old(owner[core])] + old(hist[core])[..NHIST - 1]]
    {
      var o := owner[core];
      if o == None {
        return;
      }
      ReassignKeepsTable(owner, idleBits, attached, active, mech.coreTbl, core, None);
      active := active[o.t := active[o.t] - 1];
      owner := owner[core := None];
      assert active == Bump(Bump(old(active), o, -1), None, 1);
      var h := hist[core];
      for i := NHIST - 1 downto 0
        invariant |h| == NHIST
        invariant forall j :: 0 <= j <= i ==> h[j] == hist[core][j]
        invariant forall j :: i < j < NHIST ==> h[j] == hist[core][j - 1]
      {
        h := h[i + 1 := h[i]];
      }
      h := h[0 := o];
      assert h == [o] + hist[core][..NHIST - 1];
      hist := hist[core := h];
    }

    // ---------------------------------------------------------------- attach and detach

    /** sched_attach_proc's admission test, then simple_attach. */
    method Attach(p: nat, g: nat, max: nat) returns (ok: bool)
      requires BooksBut({}) && p < |attached| && !attached[p] && mech.others[p] > 0
      modifies this`attached, this`guaranteed, this`maxCores, this`waking, this`nrGuaranteed
      ensures BooksBut({})
      ensures ok <==> g + old(nrGuaranteed) <= |mech.coreTbl|
      ensures attached == old(attached)[p := ok]
      ensures ok ==> guaranteed == old(guaranteed)[p := g] && maxCores == old(maxCores)[p := max]
      ensures nrGuaranteed == old(nrGuaranteed) + if ok then g else 0
    {
      if g + nrGuaranteed > |mech.coreTbl| {
        return false;
      }
      SumUpdate(guaranteed, |guaranteed|, p, g);
      attached, guaranteed, maxCores := attached[p := true], guaranteed[p := g], maxCores[p := max];
      waking := waking[p := false];
      nrGuaranteed := nrGuaranteed + g;
      return true;
    }

    /** The proc's entries among the owners and in the history are erased. */
    method EraseProc(p: nat)
      requires |owner| == |hist|
      modifies this`owner, this`hist
      ensures owner == Cleared(old(owner), p)
      ensures |hist| == |old(hist)| && forall c :: 0 <= c < |hist| ==> hist[c] == Cleared(old(hist[c]), p)
    {
      var i := 0;
      while i < |owner|
        invariant 0 <= i <= |owner| == |old(owner)| == |hist|
        invariant forall c :: 0 <= c < i ==> owner[c] == Cleared(old(owner), p)[c]
        invariant forall c :: 0 <= c < i ==> hist[c] == Cleared(old(hist[c]), p)
        invariant forall c :: i <= c < |owner| ==> owner[c] == old(owner[c]) && hist[c] == old(hist[c])
      {
        if owner[i] == Some(p) {
          owner := owner[i := None];
        }
        var h := hist[i];
        for j := 0 to |h|
          invariant |h| == |hist[i]|
          invariant forall k :: 0 <= k < j ==> h[k] == Cleared(hist[i], p)[k]
          invariant forall k :: j <= k < |h| ==> h[k] == hist[i][k]
        {
          if h[j] == Some(p) {
            h := h[j := None];
          }
        }
        hist := hist[i := h];
        i := i + 1;
      }
    }

    /** simple_detach and the end of sched_detach_proc: no trace of the proc is left in the policy. */
    method Detach(p: nat)
      requires BooksBut({}) && p < |attached| && attached[p]
      modifies this`attached, this`guaranteed, this`nrGuaranteed, this`active, this`owner, this`hist,
               this`isCongested, this`congested
      ensures BooksBut({}) && attached == old(attached)[p := false]
      ensures owner == Cleared(old(owner), p) && guaranteed == old(guaranteed)[p := 0]
      ensures NoneLost() <==> old(NoneLost()) && Owned(old(owner), p) == {}
    {
      hide Table, NoneLostIn;
      UnmarkCongested(p);
      ClearKeepsTable(owner, idleBits, attached, active, mech.coreTbl, p);
      SumUpdate(guaranteed, |guaranteed|, p, 0);
      ClearLoses(owner, idleBits, attached, active, mech.coreTbl, p);
      EraseProc(p);
      nrGuaranteed := nrGuaranteed - guaranteed[p];
      attached, guaranteed, active := attached[p := false], guaranteed[p := 0], active[p := 0];
    }

    /** dp_clients_remove_client: the policy forgets the proc, then its client's reference is put. */
    method RemoveClient(p: nat)
      requires Valid() && p < |attached| && attached[p]
      modifies this`attached, this`guaranteed, this`nrGuaranteed, this`active, this`owner, this`hist,
               this`isCongested, this`congested, mech`refs, mech`others, mech`released
      ensures Valid() && attached == old(attached)[p := false]
    {
      hide ListsOk, Admitted, Dataplane.Valid, Agrees, Table;
      ListCount(mech);
      Detach(p);
      mech.PutOutside(p);
    }

    // ---------------------------------------------------------------- giving out cores

    /** The policy's side of simple_run_kthread_on_core. */
    method TakeCore(p: nat, core: nat)
      requires ListsOk() && TableOk() && core in mech.coreTbl && |owner| == |hist| && |waking| == |attached|
      requires p < |attached| && attached[p]
      modifies this`owner, this`active, this`hist, this`idleBits, this`waking
      ensures ListsOk() && TableOk() && |owner| == |hist| == old(|owner|) && |waking| == |attached|
      ensures idleBits == old(idleBits) - {core} && owner == old(owner)[core := Some(p)]
      ensures active == Bump(Bump(old(active), old(owner[core]), -1), Some(p), 1)
    {
      ReassignKeepsTable(owner, idleBits, attached, active, mech.coreTbl, core, Some(p));
      CleanupCore(core);
      owner := owner[core := Some(p)];
      idleBits := idleBits - {core};
      active := active[p := active[p] + 1];
      waking := waking[p := true];
      assert owner == old(owner)[core := Some(p)];
    }

    /** simple_run_kthread_on_core */
    method RunKthreadOnCore(p: nat, core: nat, txBusy: set<Tid>, ghost skip: set<nat>) returns (ret: Ret)
      requires ValidBut(skip) && p < |attached| && attached[p]
      modifies this`owner, this`active, this`hist, this`idleBits, this`waking,
               mech`active, mech`coreOf, mech`atIdx, mech`tsIdx, mech`actives, mech`idles, mech`flows, mech`refs,
               mech`released, mech`ts, mech`cores, mech`kern, mech`slot
      ensures ValidBut(if ret == Done then skip - {core} else skip)
      ensures ret == if old(mech.idles[p]) == [] then Busy else if core in mech.coreTbl then Done else Invalid
      ensures ret == Done ==> core < |owner| == old(|owner|) && idleBits == old(idleBits) - {core}
      ensures ret == Done ==> owner == old(owner)[core := Some(p)]
      ensures ret == Done ==> active == Bump(Bump(old(active), old(owner[core]), -1), Some(p), 1)
      ensures ret != Done ==>
                owner == old(owner) && active == old(active) && idleBits == old(idleBits) && hist == old(hist)
      ensures HomesKept(mech.procOf, old(mech.coreOf), mech.coreOf, p)
    {
      hide ListsOk, Admitted, Dataplane.Valid;
      var avail := ThreadsAvail(mech, p);
      if avail == 0 {
        return Busy;
      }
      var st := RunInMech(mech, p, core, txBusy);
      if st != Ok {
        return Invalid;
      }
      ReassignAgrees(owner, old(Views(mech.cores)), Views(mech.cores), mech.procOf, skip, core, p);
      TakeCore(p, core);
      return Done;
    }

    // ---------------------------------------------------------------- choosing a core for a proc

    /** Core c is another's or nobody's, and p may have it. */
    predicate Takeable(c: nat, p: nat)
      reads this`owner, this`active, this`guaranteed
      requires |active| == |guaranteed| && p < |active|
    {
      c < |owner| && owner[c] != Some(p) && (owner[c] == None || Preemptible(active, guaranteed, owner[c].t, p))
    }

    /** Core c is another's, which can do without it. */
    predicate Victim(c: nat, p: nat)
      reads this`owner, this`active, this`guaranteed
      requires |active| == |guaranteed| && p < |active|
    {
      c < |owner| && owner[c].Some? && Preemptible(active, guaranteed, owner[c].t, p)
    }

    /** Stage 1: the sibling of a core p already has. */
    ghost predicate BySibling(c: nat, sib: nat, p: nat)
      reads this`owner, this`active, this`guaranteed
      requires |active| == |guaranteed| && p < |active|
    {
      && c in mech.coreTbl && c < |owner| && c < |mech.siblings| && owner[c] == Some(p)
      && sib == mech.siblings[c] && sib in mech.coreTbl && Takeable(sib, p)
    }

    /** Stage 2: the core an idle kthread of p last ran on, or that core's sibling. */
    ghost predicate ByHome(t: Tid, r: nat, p: nat)
      reads this`owner, this`active, this`guaranteed, mech`idles, mech`coreOf
      requires |active| == |guaranteed| && p < |active|
    {
      && p < |mech.idles| && t in mech.idles[p] && t < |mech.coreOf| && mech.coreOf[t] < |owner|
      && mech.coreOf[t] < |mech.siblings| && Takeable(r, p) && r in mech.coreTbl
      && (r == mech.coreOf[t] || (!mech.noht && r == mech.siblings[mech.coreOf[t]]))
    }

    /** The first stage of simple_choose_core. */
    method ChooseSibling(p: nat) returns (r: Opt)
      requires BooksBut({}) && p < |attached|
      ensures r.Some? ==> exists c :: BySibling(c, r.t, p)
      ensures r == None ==> forall c, sib :: !BySibling(c, sib, p)
    {
      for i := 0 to |mech.coreTbl|
        invariant forall j, sib :: 0 <= j < i ==> !BySibling(mech.coreTbl[j], sib, p)
      {
        var c := mech.coreTbl[i];
        assert c in mech.coreTbl;
        var sib := mech.siblings[c];
        if owner[c] == Some(p) && sib in mech.coreTbl && Takeable(sib, p) {
          assert BySibling(c, sib, p);
          return Some(sib);
        }
      }
      return None;
    }

    /** The idle kthreads before the first one that never ran have nothing to offer. */
    ghost predicate NoHome(p: nat, k: nat)
      reads this`owner, this`active, this`guaranteed, mech`idles, mech`coreOf
      requires |active| == |guaranteed| && p < |active| && p < |mech.idles| && k <= |mech.idles[p]|
    {
      forall i, r :: 0 <= i < k ==> !ByHome(mech.idles[p][i], r, p)
    }

    /** The i-th idle kthread offers a core, and no kthread up to it has never run. */
    ghost predicate OffersHome(i: nat, p: nat)
      reads this`owner, this`active, this`guaranteed, mech`idles, mech`coreOf
      requires |active| == |guaranteed| && p < |active|
    {
      && p < |mech.idles| && i < |mech.idles[p]|
      && (forall j :: 0 <= j <= i ==> Home(mech.coreOf, mech.idles[p][j]) < |owner|)
      && exists r :: ByHome(mech.idles[p][i], r, p)
    }

    /** The second stage: it succeeds exactly when some kthread offers a core. */
    method ChooseHome(p: nat) returns (r: Opt)
      requires mech.Valid() && BooksBut({}) && p < |attached|
      ensures r.Some? ==> exists t :: ByHome(t, r.t, p)
      ensures r.Some? <==> exists i :: OffersHome(i, p)
    {
      var list := mech.idles[p];
      for i := 0 to |list|
        invariant NoHome(p, i) && forall j :: 0 <= j < i ==> Home(mech.coreOf, list[j]) < |owner|
      {
        var t := list[i];
        assert t in mech.idles[p] && IsIdle(mech.procOf, mech.active, t, p);
        var core := mech.coreOf[t];
        if core >= |owner| {
          return None;
        }
        if Takeable(core, p) {
          assert ByHome(t, core, p) && OffersHome(i, p);
          return Some(core);
        }
        if !mech.noht {
          core := mech.siblings[core];
          if Takeable(core, p) && core in mech.coreTbl {
            assert ByHome(t, core, p) && OffersHome(i, p);
            return Some(core);
          }
        }
      }
      return None;
    }

    /** The last two stages: the lowest idle core, else the first core that may be preempted. */
    method ChooseIdleOrPreempt(p: nat) returns (r: Opt)
      requires BooksBut({}) && p < |attached|
      ensures idleBits != {} ==> r.Some? && r.t in idleBits && forall c :: c in idleBits ==> r.t <= c
      ensures idleBits == {} && r.Some? ==> r.t in mech.coreTbl && Victim(r.t, p)
      ensures r == None <==> idleBits == {} && forall c :: c in mech.coreTbl ==> !Victim(c, p)
    {
      for c := 0 to |owner|
        invariant forall x :: x in idleBits ==> c <= x
      {
        if c in idleBits {
          return Some(c);
        }
      }
      for i := 0 to |mech.coreTbl|
        invariant forall j :: 0 <= j < i ==> !Victim(mech.coreTbl[j], p)
      {
        var c := mech.coreTbl[i];
        assert c in mech.coreTbl;
        if owner[c] != Some(p) && Victim(c, p) {
          return Some(c);
        }
      }
      return None;
    }

    /** No stage of simple_choose_core has a core for the proc. */
    ghost predicate NoOffer(p: nat)
      reads this`owner, this`active, this`guaranteed, this`idleBits, mech`idles, mech`coreOf
      requires |active| == |guaranteed| && p < |active|
    {
      && (mech.noht || forall c, sib :: !BySibling(c, sib, p))
      && (forall i :: !OffersHome(i, p))
      && idleBits == {}
      && (forall c :: c in mech.coreTbl ==> !Victim(c, p))
    }

    /** simple_choose_core; |owner| stands for NCPU. */
    method ChooseCore(p: nat) returns (r: nat)
      requires mech.Valid() && BooksBut({}) && p < |attached|
      ensures r <= |owner| && (r < |owner| ==> r in mech.coreTbl && Takeable(r, p))
      ensures !mech.noht && (exists c, sib :: BySibling(c, sib, p)) ==> exists c :: BySibling(c, r, p)
      ensures r < |owner| && owner[r].Some? ==>
                idleBits == {} || (exists c :: BySibling(c, r, p)) || (exists t :: ByHome(t, r, p))
      ensures r < |owner| ==>
                r in idleBits || Victim(r, p) || (exists c :: BySibling(c, r, p)) || (exists t :: ByHome(t, r, p))
      // none is found exactly when none of the four stages has one; with every unowned core known
      // to be idle that does not happen to a proc below its guarantee
      ensures r == |owner| <==> NoOffer(p)
      ensures NoneLost() && active[p] < guaranteed[p] ==> !NoOffer(p)
    {
      hide ListsOk, Admitted, Dataplane.Valid, Agrees;
      if !mech.noht {
        var sib := ChooseSibling(p);
        if sib.Some? {
          return sib.t;
        }
      }
      var home := ChooseHome(p);
      if home.Some? {
        return home.t;
      }
      var any := ChooseIdleOrPreempt(p);
      if any == None && NoneLost() && active[p] < guaranteed[p] {
        GuaranteeCanBeMet(p);
      }
      return if any.Some? then any.t else |owner|;
    }

    /** Every unowned core of the scheduler is known to be idle. */
    ghost predicate NoneLost()
      reads this`owner, this`idleBits
    {
      NoneLostIn(owner, idleBits, mech.coreTbl)
    }

    /** A proc below its guarantee finds an idle core or one to preempt. */
    lemma GuaranteeCanBeMet(p: nat)
      requires BooksBut({}) && NoneLost() && p < |attached| && active[p] < guaranteed[p]
      ensures idleBits != {} || exists c :: c in mech.coreTbl && Victim(c, p)
    {
      if idleBits == {} {
        ElemsCard(mech.coreTbl);
        assert OwnedBelow(owner, |active|) == Elems(mech.coreTbl);
        SomeCoreCanBeTaken(owner, active, guaranteed, p);
        var c :| 0 <= c < |owner| && owner[c].Some? && owner[c] != Some(p)
                 && Preemptible(active, guaranteed, owner[c].t, p);
        assert Victim(c, p);
      }
    }

    /** simple_add_kthread */
    method AddKthread(p: nat, txBusy: set<Tid>) returns (ret: Ret)
      requires Valid() && p < |attached| && attached[p]
      modifies this`owner, this`active, this`hist, this`idleBits, this`waking,
               mech`active, mech`coreOf, mech`atIdx, mech`tsIdx, mech`actives, mech`idles, mech`flows, mech`refs,
               mech`released, mech`ts, mech`cores, mech`kern, mech`slot
      ensures Valid() && ret != Invalid
      ensures ret == NoCore <==> old(active[p]) >= maxCores[p] || old(NoOffer(p))
      ensures old(NoneLost()) && old(active[p]) < guaranteed[p] && old(active[p]) < maxCores[p] ==>
                ret == if old(mech.idles[p]) == [] then Busy else Done
      ensures old(NoneLost()) ==> NoneLost()
      ensures |active| == old(|active|) && active[p] == old(active[p]) + if ret == Done then 1 else 0
      ensures forall q :: 0 <= q < |active| && q != p ==> active[q] <= old(active[q]) && active[q] >= old(active[q]) - 1
      ensures forall q :: 0 <= q < |active| && old(active[q]) >= guaranteed[q] ==> active[q] >= guaranteed[q]
    {
      hide ListsOk, Admitted, Dataplane.Valid, Agrees, Table, BySibling, ByHome, NoOffer;
      if active[p] >= maxCores[p] {
        return NoCore;
      }
      var core := ChooseCore(p);
      if core == |owner| {
        return NoCore;
      }
      ghost var none: set<nat> := {};
      assert none - {core} == none;
      ret := RunKthreadOnCore(p, core, txBusy, none);
    }

    /** simple_notify_congested; the delay signals are reduced to one bit. */
    method NotifyCongested(p: nat, congestedNow: bool, txBusy: set<Tid>)
      requires Valid() && p < |attached| && attached[p]
      modifies this`owner, this`active, this`hist, this`idleBits, this`waking, this`isCongested, this`congested,
               mech`active, mech`coreOf, mech`atIdx, mech`tsIdx, mech`actives, mech`idles, mech`flows, mech`refs,
               mech`released, mech`ts, mech`cores, mech`kern, mech`slot
      ensures Valid() && |active| == old(|active|)
      ensures old(NoneLost()) ==> NoneLost()
      ensures forall q :: 0 <= q < |active| && old(active[q]) >= guaranteed[q] ==> active[q] >= guaranteed[q]
      ensures old(waking[p]) || !congestedNow || old(isCongested[p]) ==> owner == old(owner)
      ensures !old(waking[p]) && congestedNow && !isCongested[p] ==> active[p] == old(active[p]) + 1
    {
      hide ListsOk, Admitted, Dataplane.Valid, Agrees;
      if waking[p] {
        waking := waking[p := false];
        return;
      }
      if !congestedNow {
        UnmarkCongested(p);
        return;
      }
      if isCongested[p] {
        return;
      }
      var ret := AddKthread(p, txBusy);
      if ret == Done {
        return;
      }
      MarkCongested(p);
    }

    /** The slow pass of sched_poll, whatever it measures; no guarantee that was met is broken. */
    method SlowPass(notes: seq<Note>, txBusy: set<Tid>)
      requires Valid()
      modifies this`owner, this`active, this`hist, this`idleBits, this`waking, this`isCongested, this`congested,
               mech`active, mech`coreOf, mech`atIdx, mech`tsIdx, mech`actives, mech`idles, mech`flows, mech`refs,
               mech`released, mech`ts, mech`cores, mech`kern, mech`slot
      ensures Valid() && |active| == old(|active|) == |guaranteed|
      ensures forall q :: 0 <= q < |active| && old(active[q]) >= guaranteed[q] ==> active[q] >= guaranteed[q]
      ensures old(NoneLost()) ==> NoneLost()
    {
      hide ListsOk, Admitted, Dataplane.Valid, Agrees, Table, NoneLostIn, NoOffer;
      for i := 0 to |notes|
        invariant Valid() && |active| == old(|active|) && (old(NoneLost()) ==> NoneLost())
        invariant forall q :: 0 <= q < |active| && old(active[q]) >= guaranteed[q] ==> active[q] >= guaranteed[q]
      {
        var p := notes[i].p;
        if p < |attached| && attached[p] {
          match notes[i] {
            case Measured(_, now) =>
              NotifyCongested(p, now, txBusy);
            case CoreNeeded(_) =>
              var ret := AddKthread(p, txBusy);
          }
        }
      }
    }

    // ---------------------------------------------------------------- choosing a proc for a core

    /** A congested proc with a kthread to spare. */
    predicate Waiting(o: Opt)
      reads this`isCongested, mech`actives
    {
      && o.Some? && o.t < |isCongested| && o.t < |mech.actives| && o.t < |mech.count|
      && isCongested[o.t] && mech.count[o.t] - |mech.actives[o.t]| != 0
    }

    /** simple_choose_kthread: a waiting proc, if there is any; the sibling's owner first. */
    method ChooseKthread(core: nat) returns (r: Opt)
      requires Sizes() && ListsOk() && TableOk() && core in mech.coreTbl && |mech.actives| == |mech.base|
      requires !mech.noht ==> mech.siblings[core] < |owner|
      ensures r.Some? ==> Waiting(r)
      ensures r == None ==> forall p :: 0 <= p < |isCongested| ==> !Waiting(Some(p))
      ensures !mech.noht && Waiting(owner[mech.siblings[core]]) ==> r == owner[mech.siblings[core]]
    {
      if !mech.noht && Waiting(owner[mech.siblings[core]]) {
        return owner[mech.siblings[core]];
      }
      for i := 0 to NHIST {
        if Waiting(hist[core][i]) {
          return hist[core][i];
        }
        if !mech.noht && Waiting(hist[mech.siblings[core]][i]) {
          return hist[mech.siblings[core]][i];
        }
      }
      for i := 0 to |congested|
        invariant forall j :: 0 <= j < i ==> !Waiting(Some(congested[j]))
      {
        if Waiting(Some(congested[i])) {
          return Some(congested[i]);
        }
      }
      forall p | 0 <= p < |isCongested| ensures !Waiting(Some(p)) {
        if isCongested[p] {
          assert p in congested;
        }
      }
      return None;
    }

    /** The owner of an idle core loses it, and is no longer congested. */
    method FreeCore(core: nat, ghost skip: set<nat>)
      requires BooksBut(skip) && core < |owner|
      modifies this`owner, this`active, this`hist, this`isCongested, this`congested
      ensures BooksBut(skip - {core}) && owner == old(owner)[core := None]
    {
      hide ListsOk, Admitted;
      if owner[core] != None {
        UnmarkCongested(owner[core].t);
      }
      CleanupCore(core);
    }

    /** One idle core of simple_sched_poll: it goes to a waiting proc, or its idle bit is set. */
    method ReuseCore(core: nat, txBusy: set<Tid>, ghost skip: set<nat>)
      requires ValidBut(skip) && core in mech.coreTbl && (!mech.noht ==> mech.siblings[core] < |owner|)
      modifies this`owner, this`active, this`hist, this`idleBits, this`waking, this`isCongested, this`congested,
               mech`active, mech`coreOf, mech`atIdx, mech`tsIdx, mech`actives, mech`idles, mech`flows, mech`refs,
               mech`released, mech`ts, mech`cores, mech`kern, mech`slot
      ensures ValidBut(skip - {core}) && |owner| == old(|owner|)
      ensures owner[core] == None <==> core in idleBits
      ensures owner[core] == None ==> forall p :: !Waiting(Some(p))
      ensures forall c :: 0 <= c < |owner| && c != core ==>
                owner[c] == old(owner[c]) && (c in idleBits <==> c in old(idleBits))
    {
      hide Admitted, Agrees, Dataplane.Valid;
      ListCount(mech);
      FreeCore(core, skip);
      var sd := ChooseKthread(core);
      if sd == None {
        idleBits := idleBits + {core};
      } else {
        AvailIsIdle(mech, sd.t);
        ghost var rest := skip - {core};
        assert rest - {core} == rest;
        var ret := RunKthreadOnCore(sd.t, core, txBusy, rest);
      }
    }

    /** simple_sched_poll: no core is lost, and a lost one that reports idle is found again. */
    method SchedPoll(idle: set<nat>, txBusy: set<Tid>)
      requires ValidBut(idle)
      requires forall c :: c in idle ==> c in mech.coreTbl
      requires mech.noht || forall c :: 0 <= c < |mech.siblings| ==> mech.siblings[c] < |mech.siblings|
      modifies this`owner, this`active, this`hist, this`idleBits, this`waking, this`isCongested, this`congested,
               mech`active, mech`coreOf, mech`atIdx, mech`tsIdx, mech`actives, mech`idles, mech`flows, mech`refs,
               mech`released, mech`ts, mech`cores, mech`kern, mech`slot
      ensures Valid() && |owner| == old(|owner|)
      ensures forall c :: c in idle ==> (owner[c] == None <==> c in idleBits)
      ensures forall c :: 0 <= c < |owner| && c !in idle ==>
                owner[c] == old(owner[c]) && (c in idleBits <==> c in old(idleBits))
    {
      hide ListsOk, Admitted, Dataplane.Valid, Agrees;
      ghost var todo := idle;
      for core := 0 to |owner|
        invariant ValidBut(todo) && |owner| == old(|owner|)
        invariant todo == set c | c in idle && c >= core
        invariant forall c :: c in idle && c < core ==> (owner[c] == None <==> c in idleBits)
        invariant forall c :: 0 <= c < |owner| && (c !in idle || c >= core) ==>
                    owner[c] == old(owner[c]) && (c in idleBits <==> c in old(idleBits))
      {
        if core in idle {
          ReuseCore(core, txBusy, todo);
        } else {
          assert todo - {core} == todo;
        }
        todo := todo - {core};
      }
      assert todo == {};
    }

    /** sched_poll: the slow pass, the fast pass, then the policy's. */
    method Poll(notes: seq<Note>, kernel: seq<seq<KernelStep>>, rewake: set<nat>, txBusy: set<Tid>)
      requires Valid()
      requires mech.noht || forall c :: 0 <= c < |mech.siblings| ==> mech.siblings[c] < |mech.siblings|
      modifies this`owner, this`active, this`hist, this`idleBits, this`waking, this`isCongested, this`congested,
               mech`active, mech`coreOf, mech`atIdx, mech`tsIdx, mech`actives, mech`idles, mech`flows, mech`refs,
               mech`released, mech`ts, mech`cores, mech`kern, mech`slot
      ensures Valid()
      ensures old(NoneLost()) ==> NoneLost()
    {
      SlowPass(notes, txBusy);
      var idle := mech.FastPass(kernel, rewake, txBusy);
      assert Agrees(owner, Views(mech.cores), mech.procOf, idle);
      SchedPoll(idle, txBusy);
    }
  }

  ghost predicate NoneLostIn(owner: seq<Opt>, idleBits: set<nat>, tbl: seq<nat>) {
    forall c :: c in tbl && c < |owner| && owner[c] == None ==> c in idleBits
  }

  lemma ClearLoses(owner: seq<Opt>, idleBits: set<nat>, attached: seq<bool>, active: seq<int>, tbl: seq<nat>, p: nat)
    requires Table(owner, idleBits, attached, active, tbl)
    ensures NoneLostIn(Cleared(owner, p), idleBits, tbl) <==> NoneLostIn(owner, idleBits, tbl) && Owned(owner, p) == {}
  {
    if Owned(owner, p) != {} {
      var c :| c in Owned(owner, p);
      assert c in tbl && Cleared(owner, p)[c] == None && c !in idleBits;
    } else {
      assert forall c :: 0 <= c < |owner| && owner[c] == Some(p) ==> c in Owned(owner, p);
      assert Cleared(owner, p) == owner;
    }
  }

  lemma ListCount(d: Dataplane)
    requires d.Valid()
    ensures |d.actives| == |d.base|
  {
  }

  /**
   The cores a proc owns are at most its active kthreads, so its threads_active is never more than it
   has kthreads.
   */
  lemma OwnedAtMostActive(pol: Policy, p: nat)
    requires pol.Valid() && p < |pol.attached|
    ensures pol.active[p] <= |pol.mech.actives[p]| <= pol.mech.count[p]
  {
    var d, owned := pol.mech, Owned(pol.owner, p);
    var views, a := Views(d.cores), d.actives[p];
    forall c | c in owned ensures RunsFor(views[c], d.procOf, p) && views[c].t in a && d.coreOf[views[c].t] == c {
      assert RunsFor(views[c], d.procOf, p);
      EffectiveIsHome(d, c, views[c].t);
    }
    forall i | 0 <= i < |a| ensures IsActive(d.procOf, d.active, d.atIdx, a[i], p, i) { }
    ElemsCard(a);
    Injection(owned, views, d.coreOf, Elems(a));
    AvailIsIdle(d, p);
  }

  lemma ClearKeepsTable(owner: seq<Opt>, idleBits: set<nat>, attached: seq<bool>, active: seq<int>, tbl: seq<nat>,
                        p: nat)
    requires Table(owner, idleBits, attached, active, tbl) && p < |attached|
    ensures Table(Cleared(owner, p), idleBits, attached[p := false], active[p := 0], tbl)
  {
    forall q | 0 <= q < |active| ensures active[p := 0][q] == |Owned(Cleared(owner, p), q)| {
      assert Owned(Cleared(owner, p), q) == if q == p then {} else Owned(owner, q);
    }
  }

  // ------------------------------------------------------------------ a core lost by detaching

  /** One core without a sibling, and two procs of one kthread each. */
  method OneCoreTwoProcs() returns (d: Dataplane)
    ensures fresh(d) && d.Valid() && |d.base| == 2 && d.others == [1, 1] && |d.idles| == 2 && d.idles[0] != []
    ensures d.procOf == [0, 1] && NoDup(d.coreTbl) && d.coreTbl == [0] && |d.siblings| == 1 && d.noht
    ensures forall p :: 0 <= p < |d.base| ==> Block(d.procOf, d.base[p], d.count[p], p)
    ensures |d.coreOf| == 2 && d.coreOf[1] == UINT_MAX
  {
    hide Dataplane.Valid;
    assert Block([0, 1], 0, 1, 0) && Block([0, 1], 1, 1, 1);
    d := new Dataplane([0, 1], [0, 1], [1, 1], [false, false], [0], [0], true);
    assert |d.idles[0]| == d.count[0];
  }

  /** The first proc bursts onto the core that the second is guaranteed. */
  method BurstOnGuaranteed() returns (pol: Policy)
    ensures fresh(pol) && fresh(pol.mech) && pol.Valid() && pol.attached == [true, true] && pol.guaranteed == [0, 1]
    ensures pol.mech.procOf == [0, 1] && pol.mech.noht && pol.mech.coreTbl == [0]
    ensures pol.owner == [Some(0)] && pol.idleBits == {} && |pol.mech.coreOf| == 2 && pol.mech.coreOf[1] == UINT_MAX
  {
    hide Policy.BooksBut, Dataplane.Valid, NoDup, Block;
    var d := OneCoreTwoProcs();
    pol := new Policy(d);
    var ok := pol.Attach(0, 0, 1);
    ok := pol.Attach(1, 1, 1);
    ghost var none: set<nat> := {};
    assert none - {0} == none;
    var ret := pol.RunKthreadOnCore(0, 0, {}, none);
    assert !Belongs([0, 1], 1, 0);
  }

  /**
   A run that starves a proc: after the burst is detached its core is nobody's but not known to be idle,
   and the proc that is guaranteed a core is offered none.
   */
  method LostCoreStarves() returns (pol: Policy, r: nat)
    ensures pol.Valid() && |pol.attached| == 2 && pol.attached[1] && pol.active[1] < pol.guaranteed[1]
    ensures pol.owner == [None] && r == |pol.owner| && pol.NoOffer(1)
  {
    hide Policy.BooksBut, Dataplane.Valid;
    pol := BurstOnGuaranteed();
    pol.Detach(0);
    NothingForSecond(pol);
    r := pol.ChooseCore(1);
  }

  lemma NothingForSecond(pol: Policy)
    requires pol.Valid() && pol.mech.procOf == [0, 1] && pol.mech.noht && pol.mech.coreTbl == [0]
    requires pol.owner == [None] && pol.idleBits == {} && |pol.mech.coreOf| == 2 && pol.mech.coreOf[1] == UINT_MAX
    requires |pol.attached| == 2
    ensures |pol.active| == |pol.guaranteed| == 2 && pol.active[1] == 0 && pol.NoOffer(1)
  {
    forall t | t in pol.mech.idles[1] ensures t == 1 {
      assert IsIdle(pol.mech.procOf, pol.mech.active, t, 1);
    }
  }
}
