/**
 The iokernel's core switching: the per-core state machine (current, last and pending
 kthread), the lists of active and idle kthreads of each proc, the polling array, and
 the reference counts these take.

 The kernel module's side of each core is carried along as a simplified kernel: the
 requested kthread, whether the request was taken up, the kthread it runs and the busy
 flag.  The module Machine proves that the kernel module of CoreLink provides this view
 while no request is missed and fewer than 2^31 requests are issued on a core, and gives the
 runs on which it does not otherwise.
 */
module CoreSched {
  import FlowSteering
  import opened Seqs

  type Tid = nat

  /** struct core_state */
  datatype Core = Core(last: Opt, pendingTh: Opt, cur: Opt, idle: bool, pending: bool, wait: bool)

  /** What the kernel module does on a core. */
  datatype Kernel = Kernel(requested: Opt, taken: bool, running: Opt, busy: bool)

  /**
   What the kernel module may do: start the requested kthread, acknowledge, park, drop its task, set
   the busy flag.
   */
  datatype Act = Start | Ack | Park | Drop | Flag(b: bool)

  predicate CanAct(k: Kernel, a: Act) {
    match a
    case Start => !k.taken && k.running == None
    case Ack => !k.taken && (k.running == None || (k.running == k.requested && k.busy))
    case Park => true
    case Drop => true
    case Flag(_) => !k.taken
  }

  function DoAct(k: Kernel, a: Act): Kernel {
    match a
    case Start => k.(running := k.requested)
    case Ack => k.(taken := true)
    case Park => k.(running := None, busy := false)
    case Drop => k.(running := None)
    case Flag(b) => k.(busy := b)
  }

  /** The core_state field that holds a kthread. */
  datatype Slot = NoSlot | Last(c: nat) | Pending(c: nat) | Cur(c: nat)

  datatype Status = Ok | Einval | Enoent

  /** The active arrays and at_idx are inverse; the idle lists hold exactly the other kthreads. */
  ghost predicate Lists(procOf: seq<nat>, n: nat, active: seq<bool>, atIdx: seq<nat>,
                        actives: seq<seq<Tid>>, idles: seq<seq<Tid>>)
  {
    && |active| == |atIdx| == |procOf| && |actives| == |idles| == n
    && (forall t :: 0 <= t < |procOf| ==> procOf[t] < n)
    && (forall p, i :: 0 <= p < n && 0 <= i < |actives[p]| ==> IsActive(procOf, active, atIdx, actives[p][i], p, i))
    && (forall t :: 0 <= t < |procOf| && active[t] ==>
          atIdx[t] < |actives[procOf[t]]| && actives[procOf[t]][atIdx[t]] == t)
    && (forall p :: 0 <= p < n ==> NoDup(idles[p]))
    && (forall p, t :: 0 <= p < n && t in idles[p] ==> IsIdle(procOf, active, t, p))
    && (forall t :: 0 <= t < |procOf| && !active[t] ==> t in idles[procOf[t]])
  }

  predicate IsIdle(procOf: seq<nat>, active: seq<bool>, t: Tid, p: nat)
    requires |active| == |procOf|
  {
    t < |procOf| && procOf[t] == p && !active[t]
  }

  predicate IsActive(procOf: seq<nat>, active: seq<bool>, atIdx: seq<nat>, t: Tid, p: nat, i: nat)
    requires |active| == |atIdx| == |procOf|
  {
    t < |procOf| && procOf[t] == p && active[t] && atIdx[t] == i
  }

  lemma LinkKeepsLists(procOf: seq<nat>, n: nat, active: seq<bool>, atIdx: seq<nat>,
                       actives: seq<seq<Tid>>, idles: seq<seq<Tid>>, t: Tid)
    requires Lists(procOf, n, active, atIdx, actives, idles) && t < |procOf| && !active[t]
    ensures var p := procOf[t];
            Lists(procOf, n, active[t := true], atIdx[t := |actives[p]|],
                  actives[p := actives[p] + [t]], idles[p := Without(idles[p], t)])
  {
    var p := procOf[t];
    var actives', atIdx', active' := actives[p := actives[p] + [t]], atIdx[t := |actives[p]|], active[t := true];
    forall q, i | 0 <= q < n && 0 <= i < |actives'[q]| ensures IsActive(procOf, active', atIdx', actives'[q][i], q, i) {
      if i < |actives[q]| {
        assert IsActive(procOf, active, atIdx, actives[q][i], q, i);
      }
    }
    var idles' := idles[p := Without(idles[p], t)];
    assert NoDup(idles[p]);
    forall x | 0 <= x < |procOf| && !active'[x] ensures x in idles'[procOf[x]] {
      assert !active[x] && x in idles[procOf[x]];
    }
    forall q, x | 0 <= q < n && x in idles'[q] ensures IsIdle(procOf, active', x, q) {
      assert IsIdle(procOf, active, x, q);
    }
    assert forall q :: 0 <= q < n ==> NoDup(idles'[q]);
    forall x | 0 <= x < |procOf| && active'[x]
      ensures atIdx'[x] < |actives'[procOf[x]]| && actives'[procOf[x]][atIdx'[x]] == x
    { }
  }

  lemma UnlinkKeepsLists(procOf: seq<nat>, n: nat, active: seq<bool>, atIdx: seq<nat>,
                         actives: seq<seq<Tid>>, idles: seq<seq<Tid>>, t: Tid)
    requires Lists(procOf, n, active, atIdx, actives, idles) && t < |procOf| && active[t]
    ensures var p, i := procOf[t], atIdx[t];
            var last := |actives[p]| - 1;
            && i <= last
            && Lists(procOf, n, active[t := false], atIdx[actives[p][last] := i],
                     actives[p := actives[p][i := actives[p][last]][..last]], idles[p := [t] + idles[p]])
  {
    var p, at := procOf[t], atIdx[t];
    var last := |actives[p]| - 1;
    var moved := actives[p][last];
    var actives', atIdx' := actives[p := actives[p][at := moved][..last]], atIdx[moved := at];
    var active' := active[t := false];
    assert IsActive(procOf, active, atIdx, moved, p, last);
    forall q, i | 0 <= q < n && 0 <= i < |actives'[q]| ensures IsActive(procOf, active', atIdx', actives'[q][i], q, i) {
      assert IsActive(procOf, active, atIdx, actives[q][i], q, i);
    }
    var idles' := idles[p := [t] + idles[p]];
    forall x | 0 <= x < |procOf| && active'[x]
      ensures atIdx'[x] < |actives'[procOf[x]]| && actives'[procOf[x]][atIdx'[x]] == x
    {
      assert IsActive(procOf, active, atIdx, actives[procOf[x]][atIdx[x]], procOf[x], atIdx[x]);
    }
    forall x | 0 <= x < |procOf| && !active'[x] ensures x in idles'[procOf[x]] {
      assert x != t ==> x in idles[procOf[x]];
    }
    assert NoDup(idles[p]) && t !in idles[p];
    forall q, x | 0 <= q < n && x in idles'[q] ensures IsIdle(procOf, active', x, q) {
      assert (q == p && x == t) || IsIdle(procOf, active, x, q);
    }
    assert forall q :: 0 <= q < n ==> NoDup(idles'[q]);
  }

  const UINT_MAX: nat := FlowSteering.UINT_MAX

  /** The kthreads of a proc are numbered consecutively. */
  ghost predicate Block(procOf: seq<nat>, base: nat, count: nat, p: nat) {
    forall t :: base <= t < base + count ==> Belongs(procOf, t, p)
  }

  predicate Belongs(procOf: seq<nat>, t: Tid, p: nat) { t < |procOf| && procOf[t] == p }

  /** The idle list after list_add of each kthread in turn. */
  function Reversed(base: nat, count: nat): (r: seq<Tid>)
    ensures |r| == count
    ensures forall t :: t in r <==> base <= t < base + count
    ensures NoDup(r)
  {
    if count == 0 then [] else
    var rest := Reversed(base, count - 1);
    assert base + count - 1 !in rest;
    assert forall j :: 0 <= j < |rest| ==> rest[j] in rest;
    [base + count - 1] + rest
  }

  lemma InitialLists(procOf: seq<nat>, base: seq<nat>, count: seq<nat>, active: seq<bool>, atIdx: seq<nat>,
                     actives: seq<seq<Tid>>, idles: seq<seq<Tid>>)
    requires |base| == |count| == |actives| == |idles| && |active| == |atIdx| == |procOf|
    requires forall t :: 0 <= t < |procOf| ==>
              procOf[t] < |base| && base[procOf[t]] <= t < base[procOf[t]] + count[procOf[t]]
    requires forall p :: 0 <= p < |base| ==> Block(procOf, base[p], count[p], p)
    requires forall t :: 0 <= t < |procOf| ==> !active[t]
    requires forall p :: 0 <= p < |base| ==> actives[p] == [] && idles[p] == Reversed(base[p], count[p])
    ensures Lists(procOf, |base|, active, atIdx, actives, idles)
  {
    forall p, t | 0 <= p < |base| && t in idles[p] ensures IsIdle(procOf, active, t, p) {
      assert Block(procOf, base[p], count[p], p) && t in Reversed(base[p], count[p]);
      assert Belongs(procOf, t, p);
    }
  }

  // ------------------------------------------------------------------ slots

  /** The slot of kthread t says which field of which core holds it. */
  predicate At(core: Core, c: nat, t: Tid, s: Slot) {
    && (core.cur == Some(t) <==> s == Cur(c))
    && (core.last == Some(t) <==> s == Last(c))
    && (core.pendingTh == Some(t) <==> s == Pending(c))
  }

  predicate Bounded(core: Core, n: nat) {
    && (core.cur.Some? ==> core.cur.t < n)
    && (core.last.Some? ==> core.last.t < n)
    && (core.pendingTh.Some? ==> core.pendingTh.t < n)
  }

  predicate Homed(s: Slot, active: bool, core: nat, n: nat, t: Tid, limbo: Opt) {
    && (s != NoSlot <==> active && limbo != Some(t))
    && (s != NoSlot ==> s.c < n && core == s.c)
  }

  /** The slots of all cores hold exactly the active kthreads, each once, except for one in limbo. */
  ghost predicate Placed(cores: seq<Core>, slot: seq<Slot>, active: seq<bool>, coreOf: seq<nat>, limbo: Opt) {
    && |slot| == |active| == |coreOf|
    && (forall c :: 0 <= c < |cores| ==> Bounded(cores[c], |slot|))
    && (forall t {:trigger Homed(slot[t], active[t], coreOf[t], |cores|, t, limbo)} :: 0 <= t < |slot| ==>
          Homed(slot[t], active[t], coreOf[t], |cores|, t, limbo))
    && (forall c, t {:trigger At(cores[c], c, t, slot[t])} :: 0 <= c < |cores| && 0 <= t < |slot| ==>
          At(cores[c], c, t, slot[t]))
  }

  lemma InitialPlaces(cores: seq<Core>, slot: seq<Slot>, active: seq<bool>, coreOf: seq<nat>)
    requires |slot| == |active| == |coreOf| && forall t :: 0 <= t < |slot| ==> slot[t] == NoSlot && !active[t]
    requires forall c :: 0 <= c < |cores| ==> cores[c].cur == cores[c].last == cores[c].pendingTh == None
    ensures Placed(cores, slot, active, coreOf, None)
  {
  }

  lemma InSlot(cores: seq<Core>, slot: seq<Slot>, active: seq<bool>, coreOf: seq<nat>, limbo: Opt, c: nat, o: Opt)
    requires Placed(cores, slot, active, coreOf, limbo) && c < |cores|
    requires o == cores[c].cur || o == cores[c].last || o == cores[c].pendingTh
    ensures o.Some? ==> o.t < |slot| == |active| == |coreOf| && active[o.t] && coreOf[o.t] == c && limbo != o
  {
    if o.Some? {
      assert Bounded(cores[c], |slot|) && At(cores[c], c, o.t, slot[o.t]);
      assert Homed(slot[o.t], active[o.t], coreOf[o.t], |cores|, o.t, limbo);
    }
  }

  /** The core's own flags. */
  predicate CoreOk(core: Core) {
    && (!core.wait ==> core.last == None && core.pendingTh == None && !core.pending)
    && (!core.pending ==> core.pendingTh == None)
    && (core.idle ==> core.cur == None && !core.wait)
  }

  /** An unanswered request is for cur, while last may still run or cur already; afterwards only cur may. */
  predicate KernOk(core: Core, k: Kernel) {
    && (!core.wait ==> k.taken)
    && (!k.taken ==> k.requested == core.cur && (k.running == None || k.running == core.last || k.running == core.cur))
    && (k.taken ==> k.running == None || (k.running == core.cur && k.busy))
  }

  function SetSlot(slot: seq<Slot>, o: Opt, s: Slot): (r: seq<Slot>)
    ensures |r| == |slot|
    ensures forall t :: 0 <= t < |slot| ==> r[t] == if o == Some(t) then s else slot[t]
  {
    if o.Some? && o.t < |slot| then slot[o.t := s] else slot
  }

  function Retire(active: seq<bool>, o: Opt): (r: seq<bool>)
    ensures |r| == |active|
    ensures forall t :: 0 <= t < |active| ==> r[t] == (active[t] && o != Some(t))
  {
    if o.Some? && o.t < |active| then active[o.t := false] else active
  }

  lemma QueueKeepsPlaces(cores: seq<Core>, slot: seq<Slot>, active: seq<bool>, coreOf: seq<nat>, core: nat, th: Opt)
    requires core < |cores| && Placed(cores, slot, active, coreOf, th)
    requires th.Some? ==> th.t < |slot| && active[th.t] && coreOf[th.t] == core
    ensures Placed(cores[core := cores[core].(pendingTh := th, pending := true)],
                   SetSlot(SetSlot(slot, cores[core].pendingTh, NoSlot), th, Pending(core)),
                   Retire(active, cores[core].pendingTh), coreOf, None)
  {
    var s := cores[core];
    var cores' := cores[core := s.(pendingTh := th, pending := true)];
    var slot' := SetSlot(SetSlot(slot, s.pendingTh, NoSlot), th, Pending(core));
    var active' := Retire(active, s.pendingTh);
    forall c, t | 0 <= c < |cores| && 0 <= t < |slot| ensures At(cores'[c], c, t, slot'[t]) {
      assert At(cores[c], c, t, slot[t]) && At(cores[core], core, t, slot[t]);
      assert Homed(slot[t], active[t], coreOf[t], |cores|, t, th);
    }
    forall t | 0 <= t < |slot| ensures Homed(slot'[t], active'[t], coreOf[t], |cores'|, t, None) {
      assert Homed(slot[t], active[t], coreOf[t], |cores|, t, th) && At(cores[core], core, t, slot[t]);
    }
  }

  lemma IssueKeepsPlaces(cores: seq<Core>, slot: seq<Slot>, active: seq<bool>, coreOf: seq<nat>, core: nat, th: Opt)
    requires core < |cores| && cores[core].last == None && Placed(cores, slot, active, coreOf, th)
    requires th.Some? ==> th.t < |slot| && active[th.t] && coreOf[th.t] == core
    ensures Placed(cores[core := cores[core].(last := cores[core].cur, cur := th, wait := true, idle := false)],
                   SetSlot(SetSlot(slot, cores[core].cur, Last(core)), th, Cur(core)), active, coreOf, None)
  {
    var s := cores[core];
    var cores' := cores[core := s.(last := s.cur, cur := th, wait := true, idle := false)];
    var slot' := SetSlot(SetSlot(slot, s.cur, Last(core)), th, Cur(core));
    var active' := active;
    forall c, t | 0 <= c < |cores| && 0 <= t < |slot| ensures At(cores'[c], c, t, slot'[t]) {
      assert At(cores[c], c, t, slot[t]) && At(cores[core], core, t, slot[t]);
      assert Homed(slot[t], active[t], coreOf[t], |cores|, t, th);
    }
    forall t | 0 <= t < |slot| ensures Homed(slot'[t], active'[t], coreOf[t], |cores'|, t, None) {
      assert Homed(slot[t], active[t], coreOf[t], |cores|, t, th) && At(cores[core], core, t, slot[t]);
    }
  }

  lemma PromoteKeepsPlaces(cores: seq<Core>, slot: seq<Slot>, active: seq<bool>, coreOf: seq<nat>, core: nat)
    requires core < |cores| && cores[core].last == None && Placed(cores, slot, active, coreOf, None)
    ensures Placed(cores[core := cores[core].(last := cores[core].cur, cur := cores[core].pendingTh,
                                              pendingTh := None, pending := false)],
                   SetSlot(SetSlot(slot, cores[core].cur, Last(core)), cores[core].pendingTh, Cur(core)),
                   active, coreOf, None)
  {
    var s := cores[core];
    var cores' := cores[core := s.(last := s.cur, cur := s.pendingTh, pendingTh := None, pending := false)];
    var slot' := SetSlot(SetSlot(slot, s.cur, Last(core)), s.pendingTh, Cur(core));
    var active' := active;
    forall c, t | 0 <= c < |cores| && 0 <= t < |slot| ensures At(cores'[c], c, t, slot'[t]) {
      assert At(cores[c], c, t, slot[t]) && At(cores[core], core, t, slot[t]);
      assert Homed(slot[t], active[t], coreOf[t], |cores|, t, None);
    }
    forall t | 0 <= t < |slot| ensures Homed(slot'[t], active'[t], coreOf[t], |cores'|, t, None) {
      assert Homed(slot[t], active[t], coreOf[t], |cores|, t, None) && At(cores[core], core, t, slot[t]);
    }
  }

  lemma ReleaseKeepsPlaces(cores: seq<Core>, slot: seq<Slot>, active: seq<bool>, coreOf: seq<nat>, core: nat, cur: bool)
    requires core < |cores| && Placed(cores, slot, active, coreOf, None)
    ensures var o := if cur then cores[core].cur else cores[core].last;
            Placed(cores[core := if cur then cores[core].(cur := None, idle := true) else cores[core].(last := None)],
                   SetSlot(slot, o, NoSlot), Retire(active, o), coreOf, None)
  {
    var s := cores[core];
    var o := if cur then s.cur else s.last;
    var cores' := cores[core := if cur then s.(cur := None, idle := true) else s.(last := None)];
    var slot', active' := SetSlot(slot, o, NoSlot), Retire(active, o);
    forall c, t | 0 <= c < |cores| && 0 <= t < |slot| ensures At(cores'[c], c, t, slot'[t]) {
      assert At(cores[c], c, t, slot[t]) && At(cores[core], core, t, slot[t]);
      assert Homed(slot[t], active[t], coreOf[t], |cores|, t, None);
    }
    forall t | 0 <= t < |slot| ensures Homed(slot'[t], active'[t], coreOf[t], |cores'|, t, None) {
      assert Homed(slot[t], active[t], coreOf[t], |cores|, t, None) && At(cores[core], core, t, slot[t]);
    }
  }

  lemma WaitKeepsPlaces(cores: seq<Core>, slot: seq<Slot>, active: seq<bool>, coreOf: seq<nat>, core: nat, wait: bool)
    requires core < |cores| && Placed(cores, slot, active, coreOf, None)
    ensures Placed(cores[core := cores[core].(wait := wait)], slot, active, coreOf, None)
  {
    var cores', slot', active' := cores[core := cores[core].(wait := wait)], slot, active;
    forall c, t | 0 <= c < |cores| && 0 <= t < |slot| ensures At(cores'[c], c, t, slot'[t]) {
      assert At(cores[c], c, t, slot[t]) && At(cores[core], core, t, slot[t]);
      assert Homed(slot[t], active[t], coreOf[t], |cores|, t, None);
    }
    forall t | 0 <= t < |slot| ensures Homed(slot'[t], active'[t], coreOf[t], |cores'|, t, None) {
      assert Homed(slot[t], active[t], coreOf[t], |cores|, t, None) && At(cores[core], core, t, slot[t]);
    }
  }

  class Dataplane {
    // the threads of proc p are base[p] .. base[p] + count[p]
    const procOf: seq<nat>
    const base: seq<nat>
    const count: seq<nat>
    const directpath: seq<bool>
    const coreTbl: seq<nat>    // sched_cores_tbl: the cores the scheduler may use
    const siblings: seq<nat>
    const noht: bool

    // struct thread
    var active: seq<bool>
    var coreOf: seq<nat>
    var atIdx: seq<nat>
    var tsIdx: seq<int>        // -1 for UINT_MAX
    // struct proc
    var actives: seq<seq<Tid>>
    var idles: seq<seq<Tid>>
    var flows: seq<seq<nat>>
    var refs: seq<int>
    var released: seq<bool>
    // the polling array
    var ts: seq<Tid>
    // state[NCPU]
    var cores: seq<Core>

    // the page shared with the kernel module, and what the kernel runs
    var kern: seq<Kernel>

    ghost var slot: seq<Slot>
    ghost var others: seq<nat> // references held outside the scheduler

    // ---------------------------------------------------------------- invariants

    ghost predicate Config() {
      && |base| == |count| == |directpath|
      && 0 < |siblings| <= UINT_MAX
      && (forall t :: 0 <= t < |procOf| ==>
            procOf[t] < |base| && base[procOf[t]] <= t < base[procOf[t]] + count[procOf[t]])
      && (forall p :: 0 <= p < |count| ==> count[p] <= FlowSteering.NCPU)
      && (forall c :: c in coreTbl ==> c < |siblings|)
    }

    ghost predicate Sizes()
      reads this`active, this`coreOf, this`atIdx, this`tsIdx, this`actives, this`idles, this`flows, this`refs,
            this`released, this`ts, this`others
    {
      && Config()
      && |active| == |coreOf| == |atIdx| == |tsIdx| == |procOf|
      && |actives| == |idles| == |flows| == |refs| == |released| == |others| == |base|
    }

    ghost predicate ListsOk()
      reads this`active, this`atIdx, this`actives, this`idles
    {
      Lists(procOf, |base|, active, atIdx, actives, idles)
    }

    /** The polling array and ts_idx are inverse. */
    ghost predicate PollOk()
      reads this`ts, this`tsIdx
    {
      && |tsIdx| == |procOf|
      && (forall i :: 0 <= i < |ts| ==> ts[i] < |procOf| && tsIdx[ts[i]] == i)
      && (forall t :: 0 <= t < |procOf| ==> -1 <= tsIdx[t] && (tsIdx[t] >= 0 ==> tsIdx[t] < |ts| && ts[tsIdx[t]] == t))
    }

    ghost function Polled(p: nat): set<Tid>
      reads this`ts
    {
      set t | t in ts && t < |procOf| && procOf[t] == p
    }

    /** A proc's references: one for each active kthread, each polled one, and those outside. */
    ghost predicate RefsOk()
      reads this`refs, this`released, this`others, this`actives, this`ts
    {
      forall p :: 0 <= p < |base| ==> RefOk(p, 0)
    }

    ghost predicate RefOk(p: nat, extra: nat)
      reads this`refs, this`released, this`others, this`actives, this`ts
    {
      && p < |refs| && p < |released| && p < |others| && p < |actives|
      && refs[p] == others[p] + |actives[p]| + |Polled(p)| + extra
      && (released[p] <==> refs[p] == 0)
    }

    /** As RefsOk, while proc p still holds a reference for a kthread that is no longer active. */
    ghost predicate RefsOkBut(p: nat, extra: nat)
      reads this`refs, this`released, this`others, this`actives, this`ts
    {
      RefOk(p, extra) && forall q :: 0 <= q < |base| && q != p ==> RefOk(q, 0)
    }

    /** All procs attached (sched_attach_proc), each with the reference its client holds; nothing runs. */
    constructor (procOf: seq<nat>, base: seq<nat>, count: seq<nat>, directpath: seq<bool>,
                 coreTbl: seq<nat>, siblings: seq<nat>, noht: bool)
      requires |base| == |count| == |directpath| && 0 < |siblings| <= UINT_MAX
      requires forall t :: 0 <= t < |procOf| ==>
                procOf[t] < |base| && base[procOf[t]] <= t < base[procOf[t]] + count[procOf[t]]
      requires forall p :: 0 <= p < |base| ==> Block(procOf, base[p], count[p], p) && count[p] <= FlowSteering.NCPU
      requires forall c :: c in coreTbl ==> c < |siblings|
      ensures Valid()
      ensures this.procOf == procOf && this.base == base && this.count == count && this.coreTbl == coreTbl
      ensures this.siblings == siblings && this.noht == noht
      ensures others == seq(|base|, _ => 1) && |idles| == |base|
      ensures forall p :: 0 <= p < |base| ==> |idles[p]| == count[p]
      ensures |coreOf| == |procOf| && forall t :: 0 <= t < |procOf| ==> coreOf[t] == UINT_MAX
      ensures Views(cores) == seq(|siblings|, _ => None)
      ensures |kern| == |cores|
      ensures forall c :: 0 <= c < |cores| ==> !cores[c].wait && kern[c] == Kernel(None, true, None, false)
    {
      this.procOf, this.base, this.count, this.directpath := procOf, base, count, directpath;
      this.coreTbl, this.siblings, this.noht := coreTbl, siblings, noht;
      active := seq(|procOf|, _ => false);
      coreOf := seq(|procOf|, _ => UINT_MAX);
      atIdx := seq(|procOf|, _ => 0);
      tsIdx := seq(|procOf|, _ => -1);
      slot := seq(|procOf|, _ => NoSlot);
      actives := seq(|base|, _ => []);
      idles := seq(|base|, p requires 0 <= p < |base| => Reversed(base[p], count[p]));
      flows := seq(|base|, p requires 0 <= p < |base| => seq(count[p], _ => 0));
      refs := seq(|base|, _ => 1);
      released := seq(|base|, _ => false);
      others := seq(|base|, _ => 1);
      ts := [];
      cores := seq(|siblings|, _ => Core(None, None, None, false, false, false));
      kern := seq(|siblings|, _ => Kernel(None, true, None, false));
      new;
      hide Lists, Placed;
      InitialPlaces(cores, slot, active, coreOf);
      InitialLists(procOf, base, count, active, atIdx, actives, idles);
      forall p | 0 <= p < |base| ensures RefOk(p, 0) { assert Polled(p) == {}; }
    }

    // ---------------------------------------------------------------- the polling array

    /** poll_thread */
    method PollThread(t: Tid)
      requires Sizes() && PollOk() && RefsOk() && t < |procOf| && refs[procOf[t]] > 0
      modifies this`ts, this`tsIdx, this`refs
      ensures Sizes() && PollOk() && RefsOk()
      ensures forall x :: x in ts <==> x in old(ts) || x == t
    {
      if tsIdx[t] >= 0 {
        return;
      }
      var p := procOf[t];
      ghost var before := Polled(p);
      assert t !in ts;
      refs := refs[p := refs[p] + 1];
      tsIdx := tsIdx[t := |ts|];
      ts := ts + [t];
      assert Polled(p) == before + {t};
      forall q | 0 <= q < |base| ensures RefOk(q, 0) {
        assert old(RefOk(q, 0)) && (q != p ==> Polled(q) == old(Polled(q)));
      }
    }

    /** proc_put */
    method ProcPut(p: nat)
      requires Sizes() && p < |base| && refs[p] > 0
      modifies this`refs, this`released
      ensures Sizes() && refs == old(refs)[p := old(refs[p]) - 1]
      ensures released == old(released)[p := refs[p] == 0 || old(released[p])]
    {
      refs := refs[p := refs[p] - 1];
      if refs[p] == 0 {
        released := released[p := true];
      }
    }

    /** The last entry of the polling array moves into the gap. */
    method RemoveEntry(t: Tid)
      requires PollOk() && t < |procOf| && tsIdx[t] >= 0
      modifies this`ts, this`tsIdx
      ensures PollOk() && forall x :: x in ts <==> x in old(ts) && x != t
    {
      var i, moved := tsIdx[t], ts[|ts| - 1];
      ts := ts[i := moved][..|ts| - 1];
      tsIdx := tsIdx[moved := i];
      tsIdx := tsIdx[t := -1];
      forall x ensures x in ts <==> x in old(ts) && x != t {
        if x in old(ts) && x != t {
          var j :| 0 <= j < |old(ts)| && old(ts)[j] == x;
          assert ts[if j == |ts| then i else j] == x;
        }
      }
    }

    /** unpoll_thread */
    method UnpollThread(t: Tid, ghost extra: nat)
      requires Sizes() && PollOk() && t < |procOf| && RefsOkBut(procOf[t], extra)
      modifies this`ts, this`tsIdx, this`refs, this`released
      ensures Sizes() && PollOk() && RefsOkBut(procOf[t], extra)
      ensures forall x :: x in ts <==> x in old(ts) && x != t
    {
      if tsIdx[t] < 0 {
        return;
      }
      var p := procOf[t];
      assert t in Polled(p);
      RemoveEntry(t);
      assert Polled(p) == old(Polled(p)) - {t};
      ProcPut(p);
      forall q | 0 <= q < |base| && q != p ensures RefOk(q, 0) {
        assert old(RefOk(q, 0)) && Polled(q) == old(Polled(q));
      }
    }

    // ---------------------------------------------------------------- active and idle kthreads

    /** Outside directpath, the flow table of a proc with active kthreads is spread evenly over them. */
    ghost predicate FlowOk(p: nat)
      reads this`flows, this`actives
      requires p < |base|
    {
      && Config() && p < |flows| && p < |actives| && |flows[p]| == count[p]
      && (!directpath[p] && actives[p] != [] ==> FlowSteering.Steered(flows[p], Locals(actives[p], base[p])))
    }

    ghost predicate FlowsOk()
      reads this`flows, this`actives
    {
      forall p :: 0 <= p < |base| ==> FlowOk(p)
    }

    method SteerProc(p: nat)
      requires Sizes() && ListsOk() && p < |base| && |flows[p]| == count[p]
      requires forall q :: 0 <= q < |base| && q != p ==> FlowOk(q)
      modifies this`flows
      ensures Sizes() && FlowsOk()
    {
      if !directpath[p] {
        var a := Locals(actives[p], base[p]);
        forall i, j | 0 <= i < j < |a| ensures a[i] != a[j] {
          assert atIdx[actives[p][i]] == i && atIdx[actives[p][j]] == j;
        }
        var f := FlowSteering.SteerFlows(a, count[p], flows[p]);
        flows := flows[p := f];
        forall q | 0 <= q < |base| && q != p ensures FlowOk(q) { assert old(FlowOk(q)); }
      }
    }

    ghost predicate Books()
      reads this`active, this`coreOf, this`atIdx, this`tsIdx, this`actives, this`idles, this`flows, this`refs,
            this`released, this`ts, this`others
    {
      Sizes() && ListsOk() && PollOk() && RefsOk() && FlowsOk() && HomesOk()
    }

    /** A kthread has never run, or last ran on one of the scheduler's cores. */
    ghost predicate HomesOk()
      reads this`coreOf
    {
      forall t :: 0 <= t < |coreOf| ==> coreOf[t] in coreTbl || coreOf[t] == UINT_MAX
    }

    /** Moves an idle kthread to the end of its proc's active array. */
    method LinkActive(t: Tid, core: nat)
      requires Sizes() && ListsOk() && t < |procOf| && !active[t]
      modifies this`active, this`coreOf, this`atIdx, this`actives, this`idles
      ensures Sizes() && ListsOk()
      ensures active == old(active)[t := true] && coreOf == old(coreOf)[t := core]
      ensures actives == old(actives)[procOf[t] := old(actives[procOf[t]]) + [t]]
    {
      var p := procOf[t];
      LinkKeepsLists(procOf, |base|, active, atIdx, actives, idles, t);
      active, coreOf := active[t := true], coreOf[t := core];
      idles := idles[p := Without(idles[p], t)];
      atIdx := atIdx[t := |actives[p]|];
      actives := actives[p := actives[p] + [t]];
    }

    /** Moves an active kthread to the idle list; the last active one takes its place. */
    method UnlinkActive(t: Tid)
      requires Sizes() && ListsOk() && t < |procOf| && active[t]
      modifies this`active, this`atIdx, this`actives, this`idles
      ensures Sizes() && ListsOk()
      ensures active == old(active)[t := false]
      ensures |actives| == |old(actives)| && |actives[procOf[t]]| == |old(actives[procOf[t]])| - 1
      ensures forall q :: 0 <= q < |base| && q != procOf[t] ==> actives[q] == old(actives[q])
    {
      UnlinkKeepsLists(procOf, |base|, active, atIdx, actives, idles, t);
      var p, i := procOf[t], atIdx[t];
      var moved := actives[p][|actives[p]| - 1];
      active := active[t := false];
      actives := actives[p := actives[p][i := moved][..|actives[p]| - 1]];
      atIdx := atIdx[moved := i];
      idles := idles[p := [t] + idles[p]];
    }

    /** The new active kthread's reference, and the flows spread over it as well. */
    method LinkWithRef(t: Tid, core: nat)
      requires Books() && t < |procOf| && !active[t] && refs[procOf[t]] > 0 && core in coreTbl
      modifies this`active, this`coreOf, this`atIdx, this`actives, this`idles, this`flows, this`refs
      ensures Books() && refs[procOf[t]] > 0
      ensures active == old(active)[t := true] && coreOf == old(coreOf)[t := core]
    {
      hide Lists, PollOk, FlowSteering.Steered;
      var p := procOf[t];
      LinkActive(t, core);
      refs := refs[p := refs[p] + 1];
      assert RefsOk() by {
        forall q | 0 <= q < |base| ensures RefOk(q, 0) {
          assert old(RefOk(q, 0)) && Polled(q) == old(Polled(q));
        }
      }
      forall q | 0 <= q < |base| && q != p ensures FlowOk(q) { assert old(FlowOk(q)); }
      assert old(FlowOk(p));
      label counted:
      SteerProc(p);
      forall q | 0 <= q < |base| ensures RefOk(q, 0) {
        assert old@counted(RefOk(q, 0));
      }
    }

    /** proc_get followed by sched_enable_kthread */
    method GrabKthread(t: Tid, core: nat)
      requires Books() && t < |procOf| && !active[t] && refs[procOf[t]] > 0 && core in coreTbl
      modifies this`active, this`coreOf, this`atIdx, this`tsIdx, this`actives, this`idles, this`flows, this`refs,
               this`ts
      ensures Books()
      ensures active == old(active)[t := true] && coreOf == old(coreOf)[t := core]
      ensures forall x :: x in ts <==> x in old(ts) || x == t
    {
      LinkWithRef(t, core);
      PollThread(t);
    }

    /** sched_disable_kthread followed by proc_put */
    method DropKthread(t: Tid, txqEmpty: bool)
      requires Books() && t < |procOf| && active[t]
      modifies this`active, this`atIdx, this`tsIdx, this`actives, this`idles, this`flows, this`refs, this`released,
               this`ts
      ensures Books()
      ensures active == old(active)[t := false]
      ensures forall x :: x in ts <==> x in old(ts) && !(x == t && txqEmpty)
    {
      hide Lists, PollOk, HomesOk, FlowSteering.Steered;
      var p := procOf[t];
      UnlinkActive(t);
      assert RefsOkBut(p, 1) by {
        assert old(RefOk(p, 0)) && Polled(p) == old(Polled(p));
        forall q | 0 <= q < |base| && q != p ensures RefOk(q, 0) {
          assert old(RefOk(q, 0)) && Polled(q) == old(Polled(q));
        }
      }
      forall q | 0 <= q < |base| && q != p ensures FlowOk(q) { assert old(FlowOk(q)); }
      assert old(FlowOk(p));
      SteerProc(p);
      if txqEmpty {
        UnpollThread(t, 1);
      }
      PutLast(p);
    }

    /** The proc_put that ends a kthread's stay in a slot. */
    method PutLast(p: nat)
      requires Sizes() && p < |base| && RefsOkBut(p, 1)
      modifies this`refs, this`released
      ensures Sizes() && RefsOk()
    {
      ProcPut(p);
      forall q | 0 <= q < |base| ensures RefOk(q, 0) {
        assert (q != p ==> old(RefOk(q, 0))) && Polled(q) == old(Polled(q));
      }
    }

    // ---------------------------------------------------------------- the core state machine

    /** The cores' slots, flags and kernel state fit together, but for a kthread on its way into a slot. */
    ghost predicate CoresBut(limbo: Opt)
      reads this`cores, this`kern, this`slot, this`active, this`coreOf
    {
      |cores| == |siblings| && |slot| == |procOf| && Placed(cores, slot, active, coreOf, limbo) && FlagsOk()
    }

    ghost predicate Valid()
      reads this
    {
      Books() && CoresBut(None)
    }

    ghost predicate FlagsOk()
      reads this`cores, this`kern
    {
      |kern| == |cores| && forall c :: 0 <= c < |cores| ==> CoreOk(cores[c]) && KernOk(cores[c], kern[c])
    }

    /** sched_pick_kthread: the list's first kthread that last ran here, else on the sibling, else the list's last. */
    method PickKthread(p: nat, core: nat) returns (t: Tid)
      requires Sizes() && ListsOk() && p < |base| && core < |siblings| && idles[p] != []
      ensures t in idles[p]
      ensures exists i :: 0 <= i < |idles[p]| && t == idles[p][i]
                          && Picked(idles[p], coreOf, core, siblings[core], noht, i)
    {
      var list := idles[p];
      assert forall i :: 0 <= i < |list| ==> list[i] in idles[p];
      for i := 0 to |list|
        invariant forall j :: 0 <= j < i ==> Home(coreOf, list[j]) != core
      {
        if Home(coreOf, list[i]) == core {
          return list[i];
        }
      }
      if !noht {
        for i := 0 to |list|
          invariant forall j :: 0 <= j < i ==> Home(coreOf, list[j]) != siblings[core]
        {
          if Home(coreOf, list[i]) == siblings[core] {
            assert Picked(list, coreOf, core, siblings[core], noht, i);
            return list[i];
          }
        }
      }
      assert Picked(list, coreOf, core, siblings[core], noht, |list| - 1);
      return list[|list| - 1];
    }

    /** The kthread, if any, becomes inactive and its reference is put. */
    method Release(o: Opt, txBusy: set<Tid>)
      requires Books() && (o.Some? ==> o.t < |procOf| && active[o.t])
      modifies this`active, this`atIdx, this`tsIdx, this`actives, this`idles, this`flows, this`refs, this`released,
               this`ts
      ensures Books() && active == Retire(old(active), o)
    {
      if o.Some? {
        DropKthread(o.t, o.t !in txBusy);
      }
    }

    method QueueRun(th: Opt, core: nat, txBusy: set<Tid>)
      requires Books() && CoresBut(th) && core < |cores| && cores[core].wait
      requires th.Some? ==> th.t < |procOf| && active[th.t] && coreOf[th.t] == core
      modifies this`active, this`atIdx, this`tsIdx, this`actives, this`idles, this`flows, this`refs, this`released,
               this`ts, this`cores, this`slot
      ensures Books() && CoresBut(None)
      ensures cores == old(cores)[core := old(cores[core]).(pendingTh := th, pending := true)]
      ensures active == Retire(old(active), old(cores[core]).pendingTh)
    {
      hide Books, Placed;
      var s := cores[core];
      QueueKeepsPlaces(cores, slot, active, coreOf, core, th);
      InSlot(cores, slot, active, coreOf, th, core, s.pendingTh);
      Release(s.pendingTh, txBusy);
      cores := cores[core := s.(pendingTh := th, pending := true)];
      slot := SetSlot(SetSlot(slot, s.pendingTh, NoSlot), th, Pending(core));
    }

    method IssueRun(th: Opt, core: nat)
      requires CoresBut(th) && core < |cores| && !cores[core].wait
      requires th.Some? ==> th.t < |slot| && active[th.t] && coreOf[th.t] == core
      modifies this`cores, this`kern, this`slot
      ensures CoresBut(None)
      ensures cores == old(cores)[core := old(cores[core]).(
                         last := old(cores[core]).cur, cur := th, wait := true, idle := false)]
      ensures kern == old(kern)[core := old(kern[core]).(requested := th, taken := false)]
    {
      hide Placed;
      var s := cores[core];
      IssueKeepsPlaces(cores, slot, active, coreOf, core, th);
      kern := kern[core := kern[core].(requested := th, taken := false)];
      cores := cores[core := s.(last := s.cur, cur := th, wait := true, idle := false)];
      slot := SetSlot(SetSlot(slot, s.cur, Last(core)), th, Cur(core));
    }

    /** __sched_run */
    method SchedRun(th: Opt, core: nat, txBusy: set<Tid>)
      requires Books() && CoresBut(th) && core < |cores|
      requires th.Some? ==> th.t < |procOf| && active[th.t] && coreOf[th.t] == core
      modifies this`active, this`atIdx, this`tsIdx, this`actives, this`idles, this`flows, this`refs, this`released,
               this`ts, this`cores, this`kern, this`slot
      ensures Valid() && Views(cores) == old(Views(cores))[core := th]
      ensures cores == old(cores)[core := AfterRun(old(cores[core]), th)]
      // a queued kthread that never ran goes back to the pool; an issued one does not
      ensures active == if old(cores[core]).wait then Retire(old(active), old(cores[core]).pendingTh) else old(active)
      ensures kern == if old(cores[core]).wait then old(kern)
                      else old(kern)[core := old(kern[core]).(requested := th, taken := false)]
    {
      hide Books, Placed;
      if cores[core].wait {
        QueueRun(th, core, txBusy);
      } else {
        IssueRun(th, core);
      }
    }

    /** sched_run_on_core */
    method RunOnCore(p: nat, core: nat, txBusy: set<Tid>) returns (st: Status)
      requires Valid() && p < |base| && refs[p] > 0
      modifies this`active, this`coreOf, this`atIdx, this`tsIdx, this`actives, this`idles, this`flows, this`refs,
               this`released, this`ts, this`cores, this`kern, this`slot
      ensures Valid()
      ensures st == if old(idles[p]) == [] || core !in coreTbl then Einval else Ok
      ensures st == Einval ==> Views(cores) == old(Views(cores))
      ensures st == Einval ==> cores == old(cores) && kern == old(kern)
      ensures st == Ok ==> core < |cores|
      ensures st == Ok ==> exists t: Tid | t in old(idles[p]) :: Views(cores) == old(Views(cores))[core := Some(t)]
                             && Requested(old(cores), old(kern), cores, kern, core, Some(t))
      // only a kthread from the proc's idle pool is given a new home
      ensures |coreOf| == old(|coreOf|)
      ensures forall x :: 0 <= x < |coreOf| && x !in old(idles[p]) ==> coreOf[x] == old(coreOf)[x]
    {
      if idles[p] == [] || core !in coreTbl {
        return Einval;
      }
      var t := PickKthread(p, core);
      assert IsIdle(procOf, active, t, p);
      GrabKthread(t, core);
      GrabKeepsPlaces(old(cores), old(slot), old(active), old(coreOf), t, core);
      SchedRun(Some(t), core, txBusy);
      return Ok;
    }

    /** sched_idle_on_core */
    method IdleOnCore(core: nat, txBusy: set<Tid>) returns (st: Status)
      requires Valid()
      modifies this`active, this`atIdx, this`tsIdx, this`actives, this`idles, this`flows, this`refs, this`released,
               this`ts, this`cores, this`kern, this`slot
      ensures Valid()
      ensures st == if core !in coreTbl then Einval else Ok
      ensures st == Einval ==> Views(cores) == old(Views(cores))
      ensures st == Einval ==> cores == old(cores) && kern == old(kern)
      ensures st == Ok ==> core < |cores| && Views(cores) == old(Views(cores))[core := None]
      ensures st == Ok ==> Requested(old(cores), old(kern), cores, kern, core, None)
    {
      if core !in coreTbl {
        return Einval;
      }
      SchedRun(None, core, txBusy);
      return Ok;
    }

    /** The last request of a core was taken up: a queued one is issued in turn. */
    method FinishSwitch(core: nat, txBusy: set<Tid>)
      requires Valid() && core < |cores|
      modifies this`active, this`atIdx, this`tsIdx, this`actives, this`idles, this`flows, this`refs, this`released,
               this`ts, this`cores, this`kern, this`slot
      ensures Valid() && Views(cores) == old(Views(cores))
      ensures cores == old(cores)[core := AfterTaken(old(cores[core]), old(kern[core]))]
      // only the kthread whose successor the kernel has taken up goes back to the pool
      ensures active == if old(cores[core]).wait && old(kern[core]).taken
                        then Retire(old(active), old(cores[core]).last)
                        else old(active)
      ensures kern == if old(cores[core]).wait && old(kern[core]).taken && old(cores[core]).pending
                      then old(kern)[core := old(kern[core]).(requested := old(cores[core]).pendingTh, taken := false)]
                      else old(kern)
    {
      hide Books, Placed;
      if cores[core].wait && kern[core].taken {
        ReleaseLast(core, txBusy);
        if cores[core].pending {
          PromotePending(core);
        } else {
          WaitKeepsPlaces(cores, slot, active, coreOf, core, false);
          cores := cores[core := cores[core].(wait := false)];
        }
      }
    }

    method ReleaseLast(core: nat, txBusy: set<Tid>)
      requires Valid() && core < |cores| && kern[core].taken
      modifies this`active, this`atIdx, this`tsIdx, this`actives, this`idles, this`flows, this`refs, this`released,
               this`ts, this`cores, this`slot
      ensures Valid() && cores == old(cores)[core := old(cores[core]).(last := None)]
      ensures active == Retire(old(active), old(cores[core]).last)
    {
      hide Books, Placed;
      var s := cores[core];
      ReleaseKeepsPlaces(cores, slot, active, coreOf, core, false);
      InSlot(cores, slot, active, coreOf, None, core, s.last);
      Release(s.last, txBusy);
      cores := cores[core := s.(last := None)];
      slot := SetSlot(slot, s.last, NoSlot);
    }

    method PromotePending(core: nat)
      requires CoresBut(None) && core < |cores| && kern[core].taken && cores[core].wait && cores[core].last == None
      modifies this`cores, this`kern, this`slot
      ensures CoresBut(None)
      ensures cores == old(cores)[core := old(cores[core]).(
                         last := old(cores[core]).cur, cur := old(cores[core]).pendingTh,
                         pendingTh := None, pending := false)]
      ensures kern == old(kern)[core := old(kern[core]).(requested := old(cores[core]).pendingTh, taken := false)]
    {
      hide Placed;
      var s := cores[core];
      PromoteKeepsPlaces(cores, slot, active, coreOf, core);
      kern := kern[core := kern[core].(requested := s.pendingTh, taken := false)];
      cores := cores[core := s.(last := s.cur, cur := s.pendingTh, pendingTh := None, pending := false)];
      slot := SetSlot(SetSlot(slot, s.cur, Last(core)), s.pendingTh, Cur(core));
    }

    /** A core that reports idle loses its kthread, unless the kthread already has work again. */
    method NoteIdle(core: nat, rewake: bool, txBusy: set<Tid>) returns (wentIdle: bool)
      requires Valid() && core < |cores|
      modifies this`active, this`atIdx, this`tsIdx, this`actives, this`idles, this`flows, this`refs, this`released,
               this`ts, this`cores, this`kern, this`slot
      ensures Valid() && cores == old(cores)[core := AfterIdle(old(cores[core]), old(kern[core]), rewake)]
      ensures wentIdle <==> cores[core].idle && !old(cores[core].idle)
      ensures Views(cores) == if wentIdle then old(Views(cores))[core := None] else old(Views(cores))
      // only the kthread of a core that reported idle goes back to the pool
      ensures active == if wentIdle then Retire(old(active), old(cores[core]).cur) else old(active)
      ensures kern == if cores[core].wait && !old(cores[core]).wait
                      then old(kern)[core := old(kern[core]).(requested := cores[core].cur, taken := false)]
                      else old(kern)
    {
      hide Books, Placed;
      wentIdle := false;
      var s := cores[core];
      if !s.wait && !s.idle && !kern[core].busy {
        if s.cur.Some? && rewake {
          Rewake(core, s.cur.t);
          return;
        }
        ReleaseCur(core, txBusy);
        wentIdle := true;
      }
    }

    /** The requeue in sched_try_fast_rewake; it addresses the kthread's own core. */
    method Rewake(ghost core: nat, t: Tid)
      requires CoresBut(None) && core < |cores| && !cores[core].wait && !kern[core].busy && cores[core].cur == Some(t)
      modifies this`cores, this`kern
      ensures CoresBut(None) && cores == old(cores)[core := old(cores[core]).(wait := true)]
      ensures kern == old(kern)[core := old(kern[core]).(requested := Some(t), taken := false)]
    {
      hide Placed;
      InSlot(cores, slot, active, coreOf, None, core, Some(t));
      var home := coreOf[t];
      kern := kern[home := kern[home].(requested := Some(t), taken := false)];
      WaitKeepsPlaces(cores, slot, active, coreOf, home, true);
      cores := cores[home := cores[home].(wait := true)];
    }

    method ReleaseCur(core: nat, txBusy: set<Tid>)
      requires Valid() && core < |cores| && !cores[core].wait && !kern[core].busy
      modifies this`active, this`atIdx, this`tsIdx, this`actives, this`idles, this`flows, this`refs, this`released,
               this`ts, this`cores, this`slot
      ensures Valid() && cores == old(cores)[core := old(cores[core]).(cur := None, idle := true)]
      ensures active == Retire(old(active), old(cores[core]).cur)
    {
      hide Books, Placed;
      var s := cores[core];
      ReleaseKeepsPlaces(cores, slot, active, coreOf, core, true);
      InSlot(cores, slot, active, coreOf, None, core, s.cur);
      Release(s.cur, txBusy);
      cores := cores[core := s.(cur := None, idle := true)];
      slot := SetSlot(slot, s.cur, NoSlot);
    }

    // ---------------------------------------------------------------- the kernel module's steps

    /** One step of the kernel module on a core. */
    method KernelAct(c: nat, a: Act)
      requires Valid() && c < |cores| && CanAct(kern[c], a)
      modifies this`kern
      ensures Valid() && kern == old(kern)[c := DoAct(old(kern[c]), a)]
    {
      hide Books, Placed;
      kern := kern[c := DoAct(kern[c], a)];
    }

    method KernelSteps(steps: seq<KernelStep>)
      requires Valid()
      modifies this`kern
      ensures Valid()
    {
      for i := 0 to |steps|
        invariant Valid()
      {
        var c, a := steps[i].c, steps[i].act;
        if c < |cores| && CanAct(kern[c], a) {
          KernelAct(c, a);
        }
      }
    }

    // ---------------------------------------------------------------- sched_poll and the other callers

    lemma CoreOfTable(core: nat)
      requires Valid() && core in coreTbl
      ensures core < |cores|
    {
    }

    /** One core of the fast pass, with kernel steps between its two polls. */
    method PollCore(core: nat, between: seq<KernelStep>, rewake: bool, txBusy: set<Tid>) returns (wentIdle: bool)
      requires Valid() && core < |cores|
      modifies this`active, this`atIdx, this`tsIdx, this`actives, this`idles, this`flows, this`refs, this`released,
               this`ts, this`cores, this`kern, this`slot
      ensures Valid() && |cores| == old(|cores|)
      ensures forall c :: 0 <= c < |cores| ==> (cores[c].idle <==> old(cores[c].idle) || (wentIdle && c == core))
      ensures Views(cores) == if wentIdle then old(Views(cores))[core := None] else old(Views(cores))
    {
      hide Dataplane.Valid;
      FinishSwitch(core, txBusy);
      KernelSteps(between);
      wentIdle := NoteIdle(core, rewake, txBusy);
    }

    /**
     The fast pass of sched_poll.  The kernel makes the steps kernel[2 * i] before the pass visits the i-th
     core and kernel[2 * i + 1] between its two polls of that core.
     No core changes the kthread it is meant to run, except that a reported one loses it.
     */
    method FastPass(kernel: seq<seq<KernelStep>>, rewake: set<nat>, txBusy: set<Tid>) returns (idle: set<nat>)
      requires Valid()
      modifies this`active, this`atIdx, this`tsIdx, this`actives, this`idles, this`flows, this`refs, this`released,
               this`ts, this`cores, this`kern, this`slot
      ensures Valid() && |cores| == old(|cores|)
      ensures forall c :: c in idle ==> c in coreTbl && c < |cores| && cores[c].idle
      ensures forall c :: 0 <= c < |cores| ==> Views(cores)[c] == if c in idle then None else old(Views(cores))[c]
    {
      hide Dataplane.Valid;
      idle := {};
      for i := 0 to |coreTbl|
        invariant Valid() && |cores| == old(|cores|)
        invariant forall c :: c in idle ==> c in coreTbl && c < |cores| && cores[c].idle
        invariant forall c :: 0 <= c < |cores| ==> Views(cores)[c] == if c in idle then None else old(Views(cores))[c]
      {
        if 2 * i < |kernel| {
          KernelSteps(kernel[2 * i]);
        }
        var core := coreTbl[i];
        CoreOfTable(core);
        var went := PollCore(core, if 2 * i + 1 < |kernel| then kernel[2 * i + 1] else [], core in rewake, txBusy);
        if went {
          idle := idle + {core};
        }
      }
    }

    /** tx_drain_queue, when the packet queue of a polled kthread turns out empty. */
    method TxQueueEmpty(t: Tid)
      requires Valid() && t < |procOf|
      modifies this`ts, this`tsIdx, this`refs, this`released
      ensures Valid()
      ensures forall x :: x in ts <==> x in old(ts) && (x == t ==> active[t])
    {
      if !active[t] {
        assert RefsOkBut(procOf[t], 0);
        UnpollThread(t, 0);
        assert RefsOk();
      }
    }

    /** proc_get outside the scheduler: a packet handed to the device. */
    method GetOutside(p: nat)
      requires Valid() && p < |base| && refs[p] > 0
      modifies this`refs, this`others
      ensures Valid() && others == old(others)[p := old(others[p]) + 1]
    {
      refs := refs[p := refs[p] + 1];
      others := others[p := others[p] + 1];
      forall q | 0 <= q < |base| ensures RefOk(q, 0) {
        assert old(RefOk(q, 0)) && Polled(q) == old(Polled(q));
      }
    }

    /** proc_put outside the scheduler: the packet's completion, or the client's removal. */
    method PutOutside(p: nat)
      requires Valid() && p < |base| && others[p] > 0
      modifies this`refs, this`others, this`released
      ensures Valid() && others == old(others)[p := old(others[p]) - 1]
    {
      assert RefOk(p, 0);
      ProcPut(p);
      others := others[p := others[p] - 1];
      forall q | 0 <= q < |base| ensures RefOk(q, 0) {
        assert old(RefOk(q, 0)) && Polled(q) == old(Polled(q));
      }
    }
  }

  datatype KernelStep = KernelStep(c: nat, act: Act)

  // ------------------------------------------------------------------ what every reachable state gives

  /** A running kthread is active, and runs on no second core. */
  lemma RunsOnOneCore(d: Dataplane, c: nat, t: Tid)
    requires d.Valid() && c < |d.kern| && d.kern[c].running == Some(t)
    ensures t < |d.procOf| && d.active[t] && d.coreOf[t] == c && t !in d.idles[d.procOf[t]]
    ensures forall c' :: 0 <= c' < |d.kern| && c' != c ==> d.kern[c'].running != Some(t)
  {
    assert KernOk(d.cores[c], d.kern[c]);
    InSlot(d.cores, d.slot, d.active, d.coreOf, None, c, Some(t));
    forall c' | 0 <= c' < |d.kern| && c' != c ensures d.kern[c'].running != Some(t) {
      assert KernOk(d.cores[c'], d.kern[c']);
      if d.kern[c'].running == Some(t) {
        InSlot(d.cores, d.slot, d.active, d.coreOf, None, c', Some(t));
      }
    }
  }

  /** A kthread in the idle pool runs nowhere and no outstanding request names it. */
  lemma IdlePoolIsFree(d: Dataplane, p: nat, t: Tid, c: nat)
    requires d.Valid() && p < |d.base| && t in d.idles[p] && c < |d.kern|
    ensures d.kern[c].running != Some(t) && (!d.kern[c].taken ==> d.kern[c].requested != Some(t))
    ensures d.cores[c].cur != Some(t) && d.cores[c].last != Some(t) && d.cores[c].pendingTh != Some(t)
  {
    assert IsIdle(d.procOf, d.active, t, p) && KernOk(d.cores[c], d.kern[c]);
    assert At(d.cores[c], c, t, d.slot[t]) && Homed(d.slot[t], d.active[t], d.coreOf[t], |d.cores|, t, None);
  }

  /** The kthread meant to run on a core is an active one placed there. */
  lemma EffectiveIsHome(d: Dataplane, c: nat, t: Tid)
    requires d.Valid() && c < |d.cores| && Views(d.cores)[c] == Some(t)
    ensures t < |d.procOf| && d.active[t] && d.coreOf[t] == c
  {
    InSlot(d.cores, d.slot, d.active, d.coreOf, None, c, Some(t));
  }

  ghost function Slotted(slot: seq<Slot>, procOf: seq<nat>, p: nat): set<Tid>
  {
    set t | 0 <= t < |slot| && t < |procOf| && slot[t] != NoSlot && procOf[t] == p
  }

  /** A proc's reference count is its filled slots, its polled kthreads and the references outside. */
  lemma RefsCountSlots(d: Dataplane, p: nat)
    requires d.Valid() && p < |d.base|
    ensures d.refs[p] == d.others[p] + |Slotted(d.slot, d.procOf, p)| + |d.Polled(p)|
    ensures d.released[p] ==> Slotted(d.slot, d.procOf, p) == {} && d.Polled(p) == {} && d.actives[p] == []
  {
    assert d.RefOk(p, 0);
    var a := d.actives[p];
    forall i | 0 <= i < |a| ensures IsActive(d.procOf, d.active, d.atIdx, a[i], p, i) { }
    ElemsCard(a);
    forall t | 0 <= t < |d.slot| ensures Homed(d.slot[t], d.active[t], d.coreOf[t], |d.cores|, t, None) { }
    assert Slotted(d.slot, d.procOf, p) == Elems(a);
  }

  /** sched_threads_avail counts the idle list. */
  lemma AvailIsIdle(d: Dataplane, p: nat)
    requires d.Valid() && p < |d.base| && Block(d.procOf, d.base[p], d.count[p], p)
    ensures |d.idles[p]| == d.count[p] - |d.actives[p]|
  {
    var a, i, all := d.actives[p], d.idles[p], Reversed(d.base[p], d.count[p]);
    assert Lists(d.procOf, |d.base|, d.active, d.atIdx, d.actives, d.idles);
    forall k | 0 <= k < |a| ensures IsActive(d.procOf, d.active, d.atIdx, a[k], p, k) { }
    ElemsCard(a);
    ElemsCard(i);
    ElemsCard(all);
    forall t | t in all ensures t in a || t in i { assert Belongs(d.procOf, t, p); }
    forall t | t in a || t in i ensures t in all { assert t in i ==> IsIdle(d.procOf, d.active, t, p); }
    assert Elems(a) + Elems(i) == Elems(all);
    assert Elems(a) !! Elems(i);
  }

  lemma GrabKeepsPlaces(cores: seq<Core>, slot: seq<Slot>, active: seq<bool>, coreOf: seq<nat>, t: Tid, core: nat)
    requires Placed(cores, slot, active, coreOf, None) && t < |slot| && !active[t]
    ensures Placed(cores, slot, active[t := true], coreOf[t := core], Some(t))
  {
    forall x | 0 <= x < |slot|
      ensures Homed(slot[x], active[t := true][x], coreOf[t := core][x], |cores|, x, Some(t))
    {
      assert Homed(slot[x], active[x], coreOf[x], |cores|, x, None);
    }
  }

  /** The kthread that a core is meant to run: sched_get_thread_on_core. */
  function Effective(core: Core): Opt {
    if core.pending then core.pendingTh else core.cur
  }

  /** A core after __sched_run: the request is queued behind an outstanding one, else issued. */
  function AfterRun(s: Core, th: Opt): Core {
    if s.wait then s.(pendingTh := th, pending := true)
    else s.(last := s.cur, cur := th, wait := true, idle := false)
  }

  /** The request of __sched_run is queued, or issued to the kernel; no other core is concerned. */
  ghost predicate Requested(cores: seq<Core>, kern: seq<Kernel>, cores': seq<Core>, kern': seq<Kernel>, core: nat,
                            th: Opt) {
    && core < |cores| == |kern|
    && cores' == cores[core := AfterRun(cores[core], th)]
    && kern' == if cores[core].wait then kern else kern[core := kern[core].(requested := th, taken := false)]
  }

  /** A core after sched_poll asked whether its request was taken up. */
  function AfterTaken(s: Core, k: Kernel): Core {
    if !s.wait || !k.taken then s
    else if s.pending then s.(last := s.cur, cur := s.pendingTh, pendingTh := None, pending := false)
    else s.(last := None, wait := false)
  }

  /** A core after sched_poll asked whether it went idle. */
  function AfterIdle(s: Core, k: Kernel, rewake: bool): Core {
    if s.wait || s.idle || k.busy then s
    else if s.cur.Some? && rewake then s.(wait := true)
    else s.(cur := None, idle := true)
  }

  function Views(cores: seq<Core>): (v: seq<Opt>)
    ensures |v| == |cores|
  {
    seq(|cores|, c requires 0 <= c < |cores| => Effective(cores[c]))
  }

  function Home(coreOf: seq<nat>, t: Tid): nat { if t < |coreOf| then coreOf[t] else 0 }

  ghost predicate Picked(list: seq<Tid>, coreOf: seq<nat>, core: nat, sibling: nat, noht: bool, i: nat)
    requires i < |list|
  {
    || (Home(coreOf, list[i]) == core && forall j :: 0 <= j < i ==> Home(coreOf, list[j]) != core)
    || ((forall j :: 0 <= j < |list| ==> Home(coreOf, list[j]) != core)
        && if !noht && exists j :: 0 <= j < |list| && Home(coreOf, list[j]) == sibling
           then Home(coreOf, list[i]) == sibling && forall j :: 0 <= j < i ==> Home(coreOf, list[j]) != sibling
           else i == |list| - 1)
  }

  /** Kthread numbers within a proc: th - p->threads. */
  function Locals(a: seq<Tid>, base: nat): (r: seq<nat>)
    ensures |r| == |a|
  {
    seq(|a|, i requires 0 <= i < |a| => if a[i] >= base then a[i] - base else 0)
  }
}
