/**
 The core scheduler of CoreSched running on the kernel module of CoreLink, one link for each
 core: every step of the module is a step of the simplified kernel that CoreSched works with,
 as long as no request is missed and fewer than 2^31 requests are issued on a core.
 */
module Machine {
  import opened Seqs
  import opened CoreSched
  import L = CoreLink

  /** Kthread t has tid t + 1; tid zero is no kthread. */
  function Name(tid: nat): Opt { if tid == 0 then None else Some(tid - 1) }

  function TidOf(o: Opt): nat { if o == None then 0 else o.t + 1 }

  /** The kthread the module runs; one that has cleared the busy flag on its way out counts no longer. */
  function Runs(k: L.Kern): Opt { if k.running.NoTask? || k.pc.Park3? then None else Name(k.running.tid) }

  function View(s: L.State): Kernel {
    Kernel(if s.issued == [] then None else Name(s.issued[|s.issued| - 1]),
           s.page.lastGen == s.dp.gens, Runs(s.k), s.page.busy)
  }

  datatype OptAct = Stutter | Acts(a: Act)

  /** The step of the simplified kernel that a step of the module performs. */
  function ActOf(s: L.State, step: L.Step): OptAct {
    match step
    case Idle(DropExiting) => Acts(Drop)
    case Idle(ClearBusy) => Acts(Act.Park)
    case Idle(IdleStart(ok)) => if ok then Acts(Start) else Stutter
    case Idle(IdleWriteBusy) => Acts(Flag(s.k.running.Task?))
    case Park(ParkClearBusy) => Acts(Act.Park)
    case Take(ParkChoose) => if s.k.pc.ParkNext? && s.k.pc.t == s.k.pc.cur then Acts(Flag(true)) else Acts(Drop)
    case Take(ParkStart(ok)) => if ok then Acts(Start) else Stutter
    case Take(ParkWriteBusy) => Acts(Flag(s.k.running.Task?))
    case Take(StoreLast) => Acts(Ack)
    case _ => Stutter
  }

  predicate Performs(k: Kernel, a: OptAct, k': Kernel) {
    if a == Stutter then k' == k else CanAct(k, a.a) && k' == DoAct(k, a.a)
  }

  lemma IdleActs(s: L.State, i: L.IdleStep)
    requires L.Below31(s) && s.irq.ipi.NoIpi? && L.IdleEnabled(s, i) && s.k.misses == 0
    ensures Performs(View(s), ActOf(s, L.Idle(i)), View(L.DoIdle(s, i)))
  {
  }

  lemma ParkActs(s: L.State, p: L.ParkStep)
    requires L.Below31(s) && s.irq.ipi.NoIpi? && L.ParkEnabled(s, p) && L.DoPark(s, p).k.misses == 0
    ensures Performs(View(s), ActOf(s, L.Park(p)), View(L.DoPark(s, p)))
  {
  }

  lemma TakeActs(s: L.State, k: L.TakeStep)
    requires L.Below31(s) && s.irq.ipi.NoIpi? && L.TakeEnabled(s, k) && s.k.misses == 0
    ensures Performs(View(s), ActOf(s, L.Take(k)), View(L.DoTake(s, k)))
  {
  }

  /** Every step of the module, and of the interrupt handler, is one step of the simplified kernel or none. */
  lemma StepIsAct(s: L.State, step: L.Step)
    requires L.Below31(s) && L.Enabled(s, step) && !step.Dataplane? && L.Do(s, step).k.misses == 0
    ensures Performs(View(s), ActOf(s, step), View(L.Do(s, step)))
  {
    hide L.Below31;
    match step
    case Idle(i) => IdleActs(s, i);
    case Park(p) => ParkActs(s, p);
    case Take(k) => TakeActs(s, k);
    case Interrupt(_) =>
  }

  /** A request changes the view the way the core scheduler records it; its other stores do not show. */
  lemma DataplaneShows(s: L.State, d: L.DataplaneStep)
    requires L.Below31(s) && L.DataplaneEnabled(s, d)
    ensures View(L.DoDataplane(s, d)) == if d.RunTid? then View(s).(requested := Name(d.t), taken := false) else View(s)
    ensures d.PollDone? ==> View(s).taken
  {
    L.Eq32Near(s.page.lastGen, s.dp.gens);
  }

  // ------------------------------------------------------------------ the machine

  /** A core's link, below the bound and without misses, shows the kernel state the core scheduler has recorded. */
  ghost predicate Linked(l: L.State, core: Core, k: Kernel) {
    L.Below31(l) && l.k.misses == 0 && View(l) == k && l.dp.wait == core.wait
  }

  /** The link after the dataplane has polled it and, maybe, issued a request. */
  function Relink(l: L.State, was: Core, now: Core, k: Kernel, k': Kernel): L.State {
    var polled := if was.wait && (!now.wait || k' != k) then L.DoDataplane(l, L.PollDone) else l;
    if k' != k then L.DoDataplane(polled, L.RunTid(TidOf(k'.requested))) else polled
  }

  /** What a dataplane operation does to a core, as far as the kernel can see. */
  ghost predicate PlaneStep(was: Core, now: Core, k: Kernel, k': Kernel) {
    if k' != k
    then now.wait && k'.taken == false && k' == k.(requested := k'.requested, taken := false) && (was.wait ==> k.taken)
    else (now.wait ==> was.wait) && (was.wait && !now.wait ==> k.taken)
  }

  lemma RelinkKeeps(l: L.State, was: Core, now: Core, k: Kernel, k': Kernel)
    requires Linked(l, was, k) && PlaneStep(was, now, k, k') && KernOk(was, k) && l.dp.pc.DReady?
    requires l.dp.gens + 1 < L.I31
    ensures Linked(Relink(l, was, now, k, k'), now, k')
  {
    hide L.Below31;
    var polled := l;
    if was.wait && (!now.wait || k' != k) {
      L.TidKeptDataplane(l, L.PollDone);
      DataplaneShows(l, L.PollDone);
      polled := L.DoDataplane(l, L.PollDone);
    }
    if k' != k {
      L.TidKeptDataplane(polled, L.RunTid(TidOf(k'.requested)));
      DataplaneShows(polled, L.RunTid(TidOf(k'.requested)));
    }
  }

  class System {
    const d: Dataplane
    var links: seq<L.State>

    ghost predicate Coupled()
      reads this`links, d`cores, d`kern
    {
      && |links| == |d.cores| == |d.kern|
      && forall c :: 0 <= c < |links| ==> Linked(links[c], d.cores[c], d.kern[c])
    }

    ghost predicate Valid()
      reads this, d
    {
      d.Valid() && Coupled()
    }

    /** Nothing has been requested yet. */
    constructor (d: Dataplane)
      requires d.Valid() && |d.kern| == |d.cores|
      requires forall c :: 0 <= c < |d.cores| ==> !d.cores[c].wait && d.kern[c] == Kernel(None, true, None, false)
      ensures Valid() && this.d == d && forall c :: 0 <= c < |links| ==> links[c] == L.Initial
    {
      this.d := d;
      links := seq(|d.cores|, _ => L.Initial);
    }

    /** Any step of the kernel module on a core, at any time between two dataplane operations. */
    method ModuleStep(c: nat, step: L.Step)
      requires Valid() && c < |links| && L.Enabled(links[c], step) && !step.Dataplane?
      requires L.Do(links[c], step).k.misses == 0
      modifies this`links, d`kern
      ensures Valid() && links == old(links)[c := L.Do(old(links[c]), step)]
    {
      hide L.Below31, Dataplane.Valid;
      ghost var l := links[c];
      assert Linked(l, d.cores[c], d.kern[c]);
      StepIsAct(l, step);
      Bounded31(l);
      L.Below31Kept(l, step);
      var a := ActOf(links[c], step);
      if a.Acts? {
        KernSize(d);
        d.KernelAct(c, a.a);
      }
      links := links[c := L.Do(links[c], step)];
    }

    /** The rest of ksched_run and ksched_enqueue_intr: stores the kernel side can be interleaved with. */
    method PlaneStore(c: nat, step: L.DataplaneStep)
      requires Valid() && c < |links| && L.DataplaneEnabled(links[c], step)
      requires step.RunGen? || step.IntrSignum? || step.IntrSig?
      modifies this`links
      ensures Valid() && links == old(links)[c := L.DoDataplane(old(links[c]), step)]
    {
      hide L.Below31, Dataplane.Valid;
      assert Linked(links[c], d.cores[c], d.kern[c]);
      Bounded31(links[c]);
      L.TidKeptDataplane(links[c], step);
      DataplaneShows(links[c], step);
      links := links[c := L.DoDataplane(links[c], step)];
    }

    /** Room for one more request on a core that has no store of the dataplane pending. */
    ghost predicate MayIssue(core: nat)
      reads this`links
    {
      core < |links| ==> links[core].dp.pc.DReady? && links[core].dp.gens + 1 < L.I31
    }

    /** The links follow an operation of the core scheduler on one core. */
    method Follow(core: nat, ghost cores: seq<Core>, ghost kern: seq<Kernel>, was: Core, k: Kernel)
      requires d.Valid() && core < |links| == |cores| == |kern| == |d.cores| && cores[core] == was && kern[core] == k
      requires forall c :: 0 <= c < |links| ==> Linked(links[c], cores[c], kern[c])
      requires KernOk(was, k) && MayIssue(core) && PlaneStep(was, d.cores[core], k, d.kern[core])
      requires d.cores == cores[core := d.cores[core]] && d.kern == kern[core := d.kern[core]]
      modifies this`links
      ensures Valid() && links == old(links)[core := Relink(old(links[core]), was, d.cores[core], k, d.kern[core])]
    {
      hide L.Below31, Dataplane.Valid, PlaneStep;
      KernSize(d);
      RelinkKeeps(links[core], was, d.cores[core], k, d.kern[core]);
      links := links[core := Relink(links[core], was, d.cores[core], k, d.kern[core])];
    }

    method RunOnCore(p: nat, core: nat, txBusy: set<Tid>) returns (st: Status)
      requires Valid() && p < |d.base| && d.others[p] > 0 && MayIssue(core)
      modifies this`links, d`coreOf, d`active, d`atIdx, d`tsIdx, d`actives, d`idles, d`flows, d`refs, d`released, d`ts,
               d`cores, d`kern, d`slot
      ensures Valid() && (core in d.coreTbl && old(d.idles[p]) != [] <==> st == Ok)
    {
      hide L.Below31;
      KernSize(d);
      assert d.RefOk(p, 0);
      ghost var cores, kern := d.cores, d.kern;
      var was, k := CoreAt(d.cores, core), KernAt(d.kern, core);
      st := d.RunOnCore(p, core, txBusy);
      if st == Ok {
        Follow(core, cores, kern, was, k);
      }
    }

    method IdleOnCore(core: nat, txBusy: set<Tid>) returns (st: Status)
      requires Valid() && MayIssue(core)
      modifies this`links, d`active, d`atIdx, d`tsIdx, d`actives, d`idles, d`flows, d`refs, d`released, d`ts,
               d`cores, d`kern, d`slot
      ensures Valid() && (core in d.coreTbl <==> st == Ok)
    {
      hide L.Below31;
      KernSize(d);
      ghost var cores, kern := d.cores, d.kern;
      var was, k := CoreAt(d.cores, core), KernAt(d.kern, core);
      st := d.IdleOnCore(core, txBusy);
      if st == Ok {
        Follow(core, cores, kern, was, k);
      }
    }

    /** The first half of a core's part of the fast pass: an acknowledgement is looked for. */
    method PollDone(core: nat, txBusy: set<Tid>)
      requires Valid() && core < |links| && MayIssue(core)
      modifies this`links, d`active, d`atIdx, d`tsIdx, d`actives, d`idles, d`flows, d`refs, d`released, d`ts,
               d`cores, d`kern, d`slot
      ensures Valid()
      ensures d.cores != old(d.cores) ==> old(links[core]).page.lastGen == old(links[core]).dp.gens
    {
      hide L.Below31, Dataplane.Valid;
      KernSize(d);
      ghost var cores, kern := d.cores, d.kern;
      var was, k := d.cores[core], d.kern[core];
      assert Linked(links[core], was, k);
      d.FinishSwitch(core, txBusy);
      KernSize(d);
      Follow(core, cores, kern, was, k);
    }

    /** The second half: an idle report is looked for; the module may have moved on in between. */
    method PollIdle(core: nat, rewake: bool, txBusy: set<Tid>) returns (wentIdle: bool)
      requires Valid() && core < |links| && MayIssue(core)
      modifies this`links, d`active, d`atIdx, d`tsIdx, d`actives, d`idles, d`flows, d`refs, d`released, d`ts,
               d`cores, d`kern, d`slot
      ensures Valid()
      ensures wentIdle ==> old(links[core]).page.lastGen == old(links[core]).dp.gens && !old(links[core]).page.busy
    {
      hide L.Below31, Dataplane.Valid;
      KernSize(d);
      ghost var cores, kern := d.cores, d.kern;
      var was, k := d.cores[core], d.kern[core];
      assert Linked(links[core], was, k);
      wentIdle := d.NoteIdle(core, rewake, txBusy);
      KernSize(d);
      Follow(core, cores, kern, was, k);
    }
  }

  function CoreAt(cores: seq<Core>, c: nat): Core {
    if c < |cores| then cores[c] else Core(None, None, None, false, false, false)
  }

  function KernAt(kern: seq<Kernel>, c: nat): Kernel {
    if c < |kern| then kern[c] else Kernel(None, true, None, false)
  }

  lemma Bounded31(l: L.State)
    requires L.Below31(l)
    ensures l.dp.gens < L.I31
  {
  }

  lemma KernSize(d: Dataplane)
    requires d.Valid()
    ensures |d.kern| == |d.cores| == |d.siblings|
    ensures forall c :: 0 <= c < |d.cores| ==> KernOk(d.cores[c], d.kern[c])
  {
  }

  // ------------------------------------------------------------------ where the view ends

  /** After a miss the module runs a kthread that no core state allows. */
  lemma StrayBreaksView() returns (steps: seq<L.Step>)
    ensures L.Exec(steps).Reached? && L.Exec(steps).s.dp.gens == 2 && L.Exec(steps).s.k.misses == 1
    ensures var k := View(L.Exec(steps).s);
            k.taken && k.busy && k.running == Some(4) && k.requested == Some(6)
            && forall core: Core :: core.cur == k.requested ==> !KernOk(core, k)
  {
    steps := L.StrayKeepsOldTask();
    L.OneOutstanding(steps);
  }

  /** At 2^31 requests a kthread that has reported idle, and so went back to the pool, runs again. */
  lemma RestartBreaksView() returns (steps: seq<L.Step>)
    ensures L.Exec(steps).Reached? && L.Exec(steps).s.dp.gens == L.I31 && L.Exec(steps).s.k.misses == 0
    ensures var k := View(L.Exec(steps).s);
            k.taken && !k.busy && k.running == Some(0) && !L.Exec(steps).s.dp.wait
            && forall core: Core :: !KernOk(core, k)
  {
    steps := L.RestartedTask();
    L.OneOutstanding(steps);
  }

  // ------------------------------------------------------------------ what the module really runs

  /** No task is run by the modules of two cores, and the one a core runs is an active kthread placed there. */
  lemma NoTaskOnTwoCores(m: System, c: nat, t: Tid)
    requires m.Valid() && c < |m.links| && Runs(m.links[c].k) == Some(t)
    ensures t < |m.d.procOf| && m.d.active[t] && m.d.coreOf[t] == c && t !in m.d.idles[m.d.procOf[t]]
    ensures forall c' :: 0 <= c' < |m.links| && c' != c ==> Runs(m.links[c'].k) != Some(t)
  {
    assert Linked(m.links[c], m.d.cores[c], m.d.kern[c]);
    RunsOnOneCore(m.d, c, t);
    forall c' | 0 <= c' < |m.links| && c' != c ensures Runs(m.links[c'].k) != Some(t) {
      assert Linked(m.links[c'], m.d.cores[c'], m.d.kern[c']);
    }
  }

  /** A kthread in the idle pool is run by no module, and no unacknowledged request names it. */
  lemma PooledTaskIsStopped(m: System, p: nat, t: Tid, c: nat)
    requires m.Valid() && p < |m.d.base| && t in m.d.idles[p] && c < |m.links|
    ensures Runs(m.links[c].k) != Some(t)
    ensures var l := m.links[c];
            l.page.lastGen != l.dp.gens ==> l.issued == [] || Name(l.issued[|l.issued| - 1]) != Some(t)
  {
    assert Linked(m.links[c], m.d.cores[c], m.d.kern[c]);
    IdlePoolIsFree(m.d, p, t, c);
  }
}
