/**
 The run/acknowledge handshake between the iokernel's dataplane and the ksched kernel
 module, for one core.  Every access to the shared page is a step of its own, or one with a
 private access beside it, and an inter-processor interrupt may land between any two kernel
 steps.

 Generation numbers are kept unbounded here and compared the way the code compares
 them: as 32-bit words, except that the idle loop passes one through a signed int.
 */
module CoreLink {

  const U32: nat := 0x1_0000_0000
  const I31: nat := 0x8000_0000

  /** Equality of two generations as unsigned int. */
  predicate Eq32(a: nat, b: nat) { a % U32 == b % U32 }

  /**
   The idle loop's test for a new request: the generation comes back from
   ksched_mwait_on_addr as an int and is sign-extended to unsigned long, while
   last_gen is zero-extended.
   */
  predicate IdleSeesNew(gen: nat, lastGen: nat) {
    gen % U32 >= I31 || !Eq32(gen, lastGen)
  }

  // ------------------------------------------------ state

  /** The sig word: zero once handled, else a generation. */
  datatype Sig = Cleared | For(g: nat) {
    function Word(): nat { if Cleared? then 0 else g }
  }

  /** The task the module granted the core to, and the generation that granted it. */
  datatype Task = NoTask | Task(tid: nat, start: nat)

  datatype Dpc =
    | DReady
    | DTid              // ksched_run stored tid, not yet gen
    | DSignum           // ksched_enqueue_intr stored signum, not yet sig

  datatype Kpc =
    | User                                    // no ksched code active
    | Idle1                                   // ksched_idle cleared the local busy flag
    | IdleSaw                                 // saw the shared busy flag set
    | Idle2                                   // saw busy and no new request: clears the shared busy flag
    | Idle3                                   // reads gen (mwait)
    | IdleTook(g: nat)                        // decided that g is new
    | IdleNext(g: nat, t: nat)                // read tid, set last_gen
    | IdleRan(g: nat)                         // ksched_next_tid returned
    | IdleBusy(g: nat)                        // wrote the shared busy flag
    | Park1(cur: nat)                         // ksched_park by task cur cleared the local busy flag
    | Park2                                   // no new request: clears the shared busy flag
    | Park3                                   // releases the running task
    | ParkTook(cur: nat, g: nat)              // g is new
    | ParkTid(cur: nat, g: nat, t: nat)       // read tid
    | ParkNext(cur: nat, g: nat, t: nat)      // set last_gen
    | ParkSelf(g: nat)                        // wakes itself: wrote the shared busy flag
    | ParkDrop(g: nat, t: nat)                // released the running task
    | ParkRan(g: nat)                         // ksched_next_tid returned
    | ParkBusy(g: nat)                        // wrote the shared busy flag
    | Ack(g: nat)                             // wrote the local busy flag: stores the shared last_gen

  /** The words of the shared page that carry run requests. */
  datatype Page = Page(gen: nat, tid: nat, busy: bool, lastGen: nat)

  /** ksched_gens, core_state.wait, and where the dataplane is. */
  datatype Plane = Plane(gens: nat, wait: bool, pc: Dpc)

  /**
   The module's per-cpu data, and history: missed while the request last taken up was one for the task
   that was parking, with another task as the running one; and how often that has happened.
   */
  datatype Kern = Kern(last: nat, busy: bool, running: Task, pc: Kpc, missed: bool, misses: nat)

  /** The interrupt handler: after its load of sig, and before it clears sig. */
  datatype Ipi = NoIpi | Saw(sig: Sig) | Handled

  datatype Delivery = Delivery(sig: Sig, signumFor: nat, task: Task, lastGen: nat, missed: bool)

  /** The sig and signum words, the handler, and the signals sent so far. */
  datatype Irq = Irq(sig: Sig, signumFor: nat, ipi: Ipi, delivered: seq<Delivery>)

  datatype Taken = Taken(gen: nat, tid: nat)

  datatype State = State(page: Page, dp: Plane, k: Kern, irq: Irq, issued: seq<nat>, taken: seq<Taken>)

  const Initial := State(
    Page(0, 0, false, 0), Plane(0, false, DReady), Kern(0, false, NoTask, User, false, 0),
    Irq(Cleared, 0, NoIpi, []), [], [])

  // ------------------------------------------------ steps

  datatype DataplaneStep = RunTid(t: nat) | RunGen | PollDone | IntrSignum | IntrSig

  datatype IdleStep =
    | EnterIdle | DropExiting | CheckBusy | CheckIdle | ClearBusy | Mwait
    | IdleReadTid | IdleStart(ok: bool) | IdleWriteBusy | IdleLocalBusy

  /** ksched_park until it finds a new request, or none. */
  datatype ParkStep = EnterPark(t: nat) | ParkSignal | ParkLoad | ParkClearBusy | ParkRelease

  /** ksched_park with a new request in hand; StoreLast also ends the idle path. */
  datatype TakeStep =
    | ParkReadTid | ParkSetLast | ParkChoose | ParkSelfBusy | ParkStart(ok: bool) | ParkWriteBusy | ParkLocalBusy
    | StoreLast

  datatype IpiStep = IpiLoad | IpiDeliver | IpiClear

  datatype Step =
    | Dataplane(d: DataplaneStep)
    | Idle(i: IdleStep)
    | Park(p: ParkStep)
    | Take(k: TakeStep)
    | Interrupt(x: IpiStep)

  predicate DataplaneEnabled(s: State, d: DataplaneStep) {
    match d
    case RunTid(_) => s.dp.pc.DReady? && !s.dp.wait  // a request is issued only when none is outstanding
    case RunGen => s.dp.pc.DTid?
    case PollDone => s.dp.pc.DReady? && s.dp.wait && Eq32(s.page.lastGen, s.dp.gens)
    case IntrSignum => s.dp.pc.DReady?
    case IntrSig => s.dp.pc.DSignum?
  }

  function DoDataplane(s: State, d: DataplaneStep): State {
    match d
    case RunTid(t) =>
      s.(dp := Plane(s.dp.gens + 1, true, DTid), page := s.page.(tid := t), issued := s.issued + [t])
    case RunGen => s.(page := s.page.(gen := s.dp.gens), dp := s.dp.(pc := DReady))
    case PollDone => s.(dp := s.dp.(wait := false))
    case IntrSignum => s.(irq := s.irq.(signumFor := s.dp.gens), dp := s.dp.(pc := DSignum))
    case IntrSig => s.(irq := s.irq.(sig := For(s.dp.gens)), dp := s.dp.(pc := DReady))
  }

  predicate IdleEnabled(s: State, i: IdleStep) {
    var pc := s.k.pc;
    match i
    case EnterIdle => pc.User? && s.k.running.NoTask?
    case DropExiting => pc.User? && s.k.running.Task?  // the running task is exiting
    case CheckBusy => pc.Idle1?
    case CheckIdle => pc.IdleSaw?
    case ClearBusy => pc.Idle2?
    case Mwait => pc.Idle3?
    case IdleReadTid => pc.IdleTook?
    case IdleStart(ok) => pc.IdleNext? && (pc.t == 0 ==> !ok)
    case IdleWriteBusy => pc.IdleRan?
    case IdleLocalBusy => pc.IdleBusy?
  }

  function DoIdle(s: State, i: IdleStep): State
    requires IdleEnabled(s, i)
  {
    var k := s.k;
    match i
    case EnterIdle => s.(k := k.(busy := false, pc := Idle1))
    case DropExiting => s.(k := k.(busy := false, running := NoTask, missed := false, pc := Idle1))
    case CheckBusy => s.(k := k.(pc := if s.page.busy then IdleSaw else Idle3))
    case CheckIdle => s.(k := k.(pc := if Eq32(s.page.gen, k.last) then Idle2 else Idle3))
    case ClearBusy => s.(page := s.page.(busy := false), k := k.(pc := Idle3))
    case Mwait => s.(k := k.(pc := if IdleSeesNew(s.page.gen, k.last) then IdleTook(s.page.gen) else User))
    case IdleReadTid =>
      s.(k := k.(last := k.pc.g, pc := IdleNext(k.pc.g, s.page.tid)), taken := s.taken + [Taken(k.pc.g, s.page.tid)])
    case IdleStart(ok) => s.(k := k.(running := Started(ok, k.pc.t, k.pc.g), missed := false, pc := IdleRan(k.pc.g)))
    case IdleWriteBusy => s.(page := s.page.(busy := k.running.Task?), k := k.(pc := IdleBusy(k.pc.g)))
    case IdleLocalBusy => s.(k := k.(busy := true, pc := Ack(k.pc.g)))
  }

  /** ksched_next_tid: the task may be gone or already running. */
  function Started(ok: bool, t: nat, g: nat): Task { if ok then Task(t, g) else NoTask }

  predicate ParkEnabled(s: State, p: ParkStep) {
    match p
    case EnterPark(_) => s.k.pc.User?
    case ParkSignal => s.k.pc.Park1?
    case ParkLoad => s.k.pc.Park1?
    case ParkClearBusy => s.k.pc.Park2?
    case ParkRelease => s.k.pc.Park3?
  }

  function DoPark(s: State, p: ParkStep): State
    requires ParkEnabled(s, p)
  {
    var k := s.k;
    match p
    case EnterPark(t) => s.(k := k.(busy := false, pc := Park1(t)))  // not only by the running task
    case ParkSignal => s.(k := k.(busy := true, pc := User))
    case ParkLoad => s.(k := k.(pc := if Eq32(s.page.gen, k.last) then Park2 else ParkTook(k.pc.cur, s.page.gen)))
    case ParkClearBusy => s.(page := s.page.(busy := false), k := k.(pc := Park3))
    case ParkRelease => s.(k := k.(running := NoTask, missed := false, pc := User))
  }

  predicate Granted(r: Task, t: nat) { r.Task? && r.tid == t }

  predicate TakeEnabled(s: State, step: TakeStep) {
    var pc := s.k.pc;
    match step
    case ParkReadTid => pc.ParkTook?
    case ParkSetLast => pc.ParkTid?
    case ParkChoose => pc.ParkNext?
    case ParkSelfBusy => pc.ParkSelf?
    case ParkStart(ok) => pc.ParkDrop? && (pc.t == 0 ==> !ok)
    case ParkWriteBusy => pc.ParkRan?
    case ParkLocalBusy => pc.ParkBusy?
    case StoreLast => pc.Ack?
  }

  function DoTake(s: State, step: TakeStep): State
    requires TakeEnabled(s, step)
  {
    var k := s.k;
    match step
    case ParkReadTid =>
      s.(k := k.(pc := ParkTid(k.pc.cur, k.pc.g, s.page.tid)), taken := s.taken + [Taken(k.pc.g, s.page.tid)])
    case ParkSetLast => s.(k := k.(last := k.pc.g, pc := ParkNext(k.pc.cur, k.pc.g, k.pc.t)))
    case ParkChoose =>
      if k.pc.t == k.pc.cur
      then var miss := Misses(k.running, k.pc.cur);
           s.(page := s.page.(busy := true),
              k := k.(running := Regrant(k.running, k.pc.cur, k.pc.g), pc := ParkSelf(k.pc.g),
                      missed := miss, misses := k.misses + if miss then 1 else 0))
      else s.(k := k.(running := NoTask, missed := false, pc := ParkDrop(k.pc.g, k.pc.t)))
    case ParkSelfBusy => s.(k := k.(busy := true, pc := Ack(k.pc.g)))
    case ParkStart(ok) => s.(k := k.(running := Started(ok, k.pc.t, k.pc.g), pc := ParkRan(k.pc.g)))
    case ParkWriteBusy => s.(page := s.page.(busy := k.running.Task?), k := k.(pc := ParkBusy(k.pc.g)))
    case ParkLocalBusy => s.(k := k.(busy := k.running.Task?, pc := Ack(k.pc.g)))
    case StoreLast => s.(page := s.page.(lastGen := k.pc.g), k := k.(pc := User))
  }

  /** A task takes up a request for itself while the running task is another one. */
  predicate Misses(r: Task, cur: nat) { r.Task? && r.tid != cur }

  /** A task that wakes itself keeps the core under the new generation. */
  function Regrant(r: Task, cur: nat, g: nat): Task { if Granted(r, cur) then Task(cur, g) else r }

  predicate IpiEnabled(s: State, x: IpiStep) {
    match x
    case IpiLoad => s.irq.ipi.NoIpi?
    case IpiDeliver => s.irq.ipi.Saw?
    case IpiClear => s.irq.ipi.Handled?
  }

  function DoIpi(s: State, x: IpiStep): State
    requires IpiEnabled(s, x)
  {
    match x
    case IpiLoad => if Eq32(s.irq.sig.Word(), s.k.last) then s.(irq := s.irq.(ipi := Saw(s.irq.sig))) else s
    case IpiDeliver =>
      var signal := Delivery(s.irq.ipi.sig, s.irq.signumFor, s.k.running, s.k.last, s.k.missed);
      s.(irq := Irq(s.irq.sig, s.irq.signumFor, Handled,
                    if s.k.busy && s.k.running.Task? then s.irq.delivered + [signal] else s.irq.delivered))
    case IpiClear => s.(irq := s.irq.(sig := Cleared, ipi := NoIpi))
  }

  /** The interrupt handler holds up the kernel path it interrupted, not the dataplane. */
  predicate Enabled(s: State, step: Step) {
    match step
    case Dataplane(d) => DataplaneEnabled(s, d)
    case Idle(i) => s.irq.ipi.NoIpi? && IdleEnabled(s, i)
    case Park(p) => s.irq.ipi.NoIpi? && ParkEnabled(s, p)
    case Take(k) => s.irq.ipi.NoIpi? && TakeEnabled(s, k)
    case Interrupt(x) => IpiEnabled(s, x)
  }

  function Do(s: State, step: Step): State
    requires Enabled(s, step)
  {
    match step
    case Dataplane(d) => DoDataplane(s, d)
    case Idle(i) => DoIdle(s, i)
    case Park(p) => DoPark(s, p)
    case Take(k) => DoTake(s, k)
    case Interrupt(x) => DoIpi(s, x)
  }

  // ------------------------------------------------ at most one request outstanding

  /** The kernel has adopted a generation that it has yet to acknowledge. */
  predicate MidTake(pc: Kpc) {
    pc.IdleNext? || pc.IdleRan? || pc.IdleBusy? || pc.ParkNext? || pc.ParkSelf? || pc.ParkDrop?
    || pc.ParkRan? || pc.ParkBusy? || pc.Ack?
  }

  /** The kernel has seen a generation and not yet adopted it. */
  predicate Took(pc: Kpc) { pc.IdleTook? || pc.ParkTook? || pc.ParkTid? }

  ghost predicate LinkInv(s: State) {
    var pc := s.k.pc;
    && s.page.lastGen <= s.k.last <= s.dp.gens <= s.page.lastGen + 1
    && (!s.dp.wait ==> s.dp.gens == s.page.lastGen)
    && |s.issued| == s.dp.gens
    && (s.dp.gens > 0 ==> s.page.tid == s.issued[s.dp.gens - 1])
    && s.page.gen == (if s.dp.pc.DTid? then s.dp.gens - 1 else s.dp.gens)
    && (s.dp.pc.DTid? ==> s.dp.wait && s.k.last < s.dp.gens)
    && (MidTake(pc) ==> 1 <= pc.g == s.k.last)
    && (s.page.lastGen < s.k.last ==> MidTake(pc))
    && (Took(pc) ==> (pc.g == s.dp.gens == s.k.last + 1 && !s.dp.pc.DTid?) || (pc.IdleTook? && 1 <= pc.g == s.k.last))
  }

  lemma Eq32Near(a: nat, b: nat)
    requires a <= b <= a + 1
    ensures Eq32(a, b) <==> a == b
  {
  }

  lemma LinkKept(s: State, step: Step)
    requires LinkInv(s) && Enabled(s, step)
    ensures LinkInv(Do(s, step))
  {
    match step
    case Dataplane(d) => LinkKeptDataplane(s, d);
    case Idle(i) => LinkKeptIdle(s, i);
    case Park(p) => LinkKeptPark(s, p);
    case Take(k) => LinkKeptTake(s, k);
    case Interrupt(_) =>
  }

  lemma LinkKeptDataplane(s: State, d: DataplaneStep)
    requires LinkInv(s) && DataplaneEnabled(s, d)
    ensures LinkInv(DoDataplane(s, d))
  {
    Eq32Near(s.page.lastGen, s.dp.gens);
  }

  lemma LinkKeptIdle(s: State, i: IdleStep)
    requires LinkInv(s) && IdleEnabled(s, i)
    ensures LinkInv(DoIdle(s, i))
  {
    Eq32Near(s.k.last, s.page.gen);
  }

  lemma LinkKeptPark(s: State, p: ParkStep)
    requires LinkInv(s) && ParkEnabled(s, p)
    ensures LinkInv(DoPark(s, p))
  {
    Eq32Near(s.k.last, s.page.gen);
  }

  lemma LinkKeptTake(s: State, k: TakeStep)
    requires LinkInv(s) && TakeEnabled(s, k)
    ensures LinkInv(DoTake(s, k))
  {
  }

  // ------------------------------------------------ the kernel takes up what was issued

  /** Request number i carries generation i + 1 and was read with the tid it was issued with. */
  ghost predicate TakenInv(s: State)
    requires LinkInv(s)
  {
    && |s.taken| == s.k.last + (if s.k.pc.ParkTid? then 1 else 0)
    && (forall i :: 0 <= i < |s.taken| ==> s.taken[i] == Taken(i + 1, s.issued[i]))
    && (s.k.pc.IdleTook? ==> s.k.pc.g == s.k.last + 1)
    && (MidTake(s.k.pc) ==> s.page.lastGen < s.k.last)
  }

  lemma TakenKeptDataplane(s: State, d: DataplaneStep)
    requires LinkInv(s) && TakenInv(s) && DataplaneEnabled(s, d) && s.dp.gens < I31
    ensures LinkInv(DoDataplane(s, d)) && TakenInv(DoDataplane(s, d))
  {
    LinkKeptDataplane(s, d);
  }

  lemma TakenKeptIdle(s: State, i: IdleStep)
    requires LinkInv(s) && TakenInv(s) && IdleEnabled(s, i) && s.dp.gens < I31
    ensures LinkInv(DoIdle(s, i)) && TakenInv(DoIdle(s, i))
  {
    LinkKeptIdle(s, i);
    Eq32Near(s.k.last, s.page.gen);
  }

  lemma TakenKeptPark(s: State, p: ParkStep)
    requires LinkInv(s) && TakenInv(s) && ParkEnabled(s, p) && s.dp.gens < I31
    ensures LinkInv(DoPark(s, p)) && TakenInv(DoPark(s, p))
  {
    LinkKeptPark(s, p);
    Eq32Near(s.k.last, s.page.gen);
  }

  lemma TakenKeptTake(s: State, k: TakeStep)
    requires LinkInv(s) && TakenInv(s) && TakeEnabled(s, k) && s.dp.gens < I31
    ensures LinkInv(DoTake(s, k)) && TakenInv(DoTake(s, k))
  {
    LinkKeptTake(s, k);
  }

  // ------------------------------------------------ interrupts and idle reports

  predicate MidPark(pc: Kpc) { pc.Park1? || pc.ParkTook? || pc.ParkTid? || pc.ParkNext? }
  predicate MidIdle(pc: Kpc) { pc.Idle1? || pc.IdleSaw? || pc.Idle2? || pc.Idle3? || pc.IdleTook? || pc.IdleNext? }

  ghost predicate TaskInv(s: State) {
    var k := s.k;
    && (k.running.Task? ==> 1 <= k.running.start <= k.last)
    && (k.running.Task? && !k.pc.ParkNext? ==> (k.running.start == k.last <==> !k.missed))
    && (k.running.Task? && k.pc.ParkNext? ==> k.running.start < k.last)
    && (MidIdle(k.pc) || k.pc.ParkDrop? ==> k.running.NoTask?)
    && (MidPark(k.pc) ==> !k.busy)
    && (k.running.Task? ==> s.page.busy || k.pc.IdleRan? || k.pc.ParkRan? || k.pc.Park3?)
    && (k.missed ==> k.running.Task? && k.misses > 0)
  }

  /** What was true when a signal was sent. */
  ghost predicate Sound(d: Delivery, gens: nat, misses: nat) {
    && d.task.Task? && 1 <= d.task.start <= d.lastGen <= gens
    && Eq32(d.sig.Word(), d.lastGen)
    && (d.sig.For? ==> d.sig.g <= d.signumFor <= gens)
    && (d.task.start == d.lastGen <==> !d.missed)
    && (d.missed ==> misses > 0)
  }

  ghost predicate IrqInv(s: State) {
    && s.irq.signumFor <= s.dp.gens
    && (s.dp.pc.DSignum? ==> s.irq.signumFor == s.dp.gens)
    && (s.irq.sig.For? ==> s.irq.sig.g <= s.irq.signumFor)
    && (s.irq.ipi.Saw? ==> Eq32(s.irq.ipi.sig.Word(), s.k.last))
    && (s.irq.ipi.Saw? && s.irq.ipi.sig.For? ==> s.irq.ipi.sig.g <= s.irq.signumFor)
    && (forall i :: 0 <= i < |s.irq.delivered| ==> Sound(s.irq.delivered[i], s.dp.gens, s.k.misses))
  }

  lemma TaskKeptDataplane(s: State, d: DataplaneStep)
    requires LinkInv(s) && TaskInv(s) && DataplaneEnabled(s, d)
    ensures TaskInv(DoDataplane(s, d))
  {
  }

  lemma TaskKeptIdle(s: State, i: IdleStep)
    requires LinkInv(s) && TaskInv(s) && s.irq.ipi.NoIpi? && IdleEnabled(s, i)
    ensures TaskInv(DoIdle(s, i))
  {
  }

  lemma TaskKeptPark(s: State, p: ParkStep)
    requires LinkInv(s) && TaskInv(s) && s.irq.ipi.NoIpi? && ParkEnabled(s, p)
    ensures TaskInv(DoPark(s, p))
  {
  }

  lemma TaskKeptTake(s: State, k: TakeStep)
    requires LinkInv(s) && TaskInv(s) && s.irq.ipi.NoIpi? && TakeEnabled(s, k)
    ensures TaskInv(DoTake(s, k))
  {
  }

  lemma TaskKeptIpi(s: State, x: IpiStep)
    requires LinkInv(s) && TaskInv(s) && IpiEnabled(s, x)
    ensures TaskInv(DoIpi(s, x))
  {
  }

  lemma IrqKeptDataplane(s: State, d: DataplaneStep)
    requires LinkInv(s) && TaskInv(s) && IrqInv(s) && DataplaneEnabled(s, d)
    ensures IrqInv(DoDataplane(s, d))
  {
  }

  lemma IrqKeptIdle(s: State, i: IdleStep)
    requires LinkInv(s) && TaskInv(s) && IrqInv(s) && s.irq.ipi.NoIpi? && IdleEnabled(s, i)
    ensures IrqInv(DoIdle(s, i))
  {
  }

  lemma IrqKeptPark(s: State, p: ParkStep)
    requires LinkInv(s) && TaskInv(s) && IrqInv(s) && s.irq.ipi.NoIpi? && ParkEnabled(s, p)
    ensures IrqInv(DoPark(s, p))
  {
  }

  lemma IrqKeptTake(s: State, k: TakeStep)
    requires LinkInv(s) && TaskInv(s) && IrqInv(s) && s.irq.ipi.NoIpi? && TakeEnabled(s, k)
    ensures IrqInv(DoTake(s, k))
  {
  }

  lemma IrqKeptIpi(s: State, x: IpiStep)
    requires LinkInv(s) && TaskInv(s) && IrqInv(s) && IpiEnabled(s, x)
    ensures IrqInv(DoIpi(s, x))
  {
  }

  // ------------------------------------------------ the running task is the requested one

  /** The kernel has read the tid of a request and not yet acted on it. */
  predicate HasTid(pc: Kpc) { pc.IdleNext? || pc.ParkTid? || pc.ParkNext? || pc.ParkDrop? }

  /** Tids in hand, and the running task's, belong to their generation; a miss leaves another task running. */
  ghost predicate TidInv(s: State)
    requires LinkInv(s) && TaskInv(s)
  {
    && (HasTid(s.k.pc) ==> 1 <= s.k.pc.g <= |s.issued| && s.k.pc.t == s.issued[s.k.pc.g - 1])
    && (s.k.running.Task? ==> s.k.running.tid == s.issued[s.k.running.start - 1] != 0)
    && (s.k.running.Task? && s.k.missed && !s.k.pc.ParkNext? ==> s.k.running.tid != s.issued[s.k.last - 1])
  }

  ghost predicate Below31(s: State) {
    LinkInv(s) && TaskInv(s) && TakenInv(s) && TidInv(s) && s.dp.gens < I31
  }

  lemma TidKeptDataplane(s: State, d: DataplaneStep)
    requires Below31(s) && DataplaneEnabled(s, d) && DoDataplane(s, d).dp.gens < I31
    ensures Below31(DoDataplane(s, d))
  {
    TakenKeptDataplane(s, d);
    TaskKeptDataplane(s, d);
  }

  lemma TidKeptIdle(s: State, i: IdleStep)
    requires Below31(s) && s.irq.ipi.NoIpi? && IdleEnabled(s, i)
    ensures Below31(DoIdle(s, i))
  {
    TakenKeptIdle(s, i);
    TaskKeptIdle(s, i);
  }

  lemma TidKeptPark(s: State, p: ParkStep)
    requires Below31(s) && s.irq.ipi.NoIpi? && ParkEnabled(s, p)
    ensures Below31(DoPark(s, p))
  {
    TakenKeptPark(s, p);
    TaskKeptPark(s, p);
  }

  lemma TidKeptTake(s: State, k: TakeStep)
    requires Below31(s) && s.irq.ipi.NoIpi? && TakeEnabled(s, k)
    ensures Below31(DoTake(s, k))
  {
    TakenKeptTake(s, k);
    TaskKeptTake(s, k);
  }

  lemma TidKeptIpi(s: State, x: IpiStep)
    requires Below31(s) && IpiEnabled(s, x)
    ensures Below31(DoIpi(s, x))
  {
    TaskKeptIpi(s, x);
  }

  // ------------------------------------------------ whole runs

  ghost predicate Inv(s: State) { LinkInv(s) && TaskInv(s) && IrqInv(s) }

  lemma StepKeeps(s: State, step: Step)
    requires Inv(s) && Enabled(s, step)
    ensures Inv(Do(s, step)) && s.dp.gens <= Do(s, step).dp.gens
  {
    LinkKept(s, step);
    match step
    case Dataplane(d) => TaskKeptDataplane(s, d); IrqKeptDataplane(s, d);
    case Idle(i) => TaskKeptIdle(s, i); IrqKeptIdle(s, i);
    case Park(p) => TaskKeptPark(s, p); IrqKeptPark(s, p);
    case Take(k) => TaskKeptTake(s, k); IrqKeptTake(s, k);
    case Interrupt(x) => TaskKeptIpi(s, x); IrqKeptIpi(s, x);
  }

  datatype Outcome = Stuck | Reached(s: State)

  /** The state after a sequence of steps from the initial state. */
  function Exec(steps: seq<Step>): Outcome
    decreases |steps|
  {
    if steps == [] then Reached(Initial) else
    match Exec(steps[..|steps| - 1])
    case Stuck => Stuck
    case Reached(s) =>
      var step := steps[|steps| - 1];
      if Enabled(s, step) then Reached(Do(s, step)) else Stuck
  }

  lemma {:induction false} RunInv(steps: seq<Step>)
    requires Exec(steps).Reached?
    ensures Inv(Exec(steps).s)
    ensures Exec(steps).s.dp.gens < I31 ==> Below31(Exec(steps).s)
    decreases |steps|
  {
    if steps != [] {
      var before, step := steps[..|steps| - 1], steps[|steps| - 1];
      RunInv(before);
      StepKeeps(Exec(before).s, step);
      if Exec(steps).s.dp.gens < I31 {
        Below31Kept(Exec(before).s, step);
      }
    }
  }

  lemma Below31Kept(s: State, step: Step)
    requires Below31(s) && Enabled(s, step) && Do(s, step).dp.gens < I31
    ensures Below31(Do(s, step))
  {
    hide Below31;
    match step
    case Dataplane(d) => TidKeptDataplane(s, d);
    case Idle(i) => TidKeptIdle(s, i);
    case Park(p) => TidKeptPark(s, p);
    case Take(k) => TidKeptTake(s, k);
    case Interrupt(x) => TidKeptIpi(s, x);
  }

  /** The kernel has taken up exactly the requests issued, in order, but for one at most. */
  ghost predicate TakesIssued(s: State) {
    && |s.taken| <= |s.issued| <= |s.taken| + 1
    && forall i :: 0 <= i < |s.taken| ==> s.taken[i] == Taken(i + 1, s.issued[i])
  }

  /**
   A signal went to a task of no later generation than the one it was requested for; and to the task of
   that very generation if and only if the request for it was not missed.
   */
  ghost predicate InTime(d: Delivery) {
    && d.sig.For? && d.task.Task?
    && d.task.start <= d.sig.g == d.lastGen <= d.signumFor
    && (d.task.start == d.sig.g <==> !d.missed)
  }

  ghost predicate SignalsInTime(s: State) {
    forall i :: 0 <= i < |s.irq.delivered| ==> InTime(s.irq.delivered[i])
  }

  /** Every signal reached the very task of the generation it was requested for. */
  ghost predicate SignalsExact(s: State) {
    forall i :: 0 <= i < |s.irq.delivered| ==>
      var d := s.irq.delivered[i]; d.sig.For? && d.task.Task? && d.task.start == d.sig.g
  }

  lemma SoundInTime(d: Delivery, gens: nat, misses: nat)
    requires Sound(d, gens, misses) && gens < U32
    ensures InTime(d) && (misses == 0 ==> !d.missed)
  {
    assert d.lastGen % U32 == d.lastGen;
    assert d.sig.For? ==> d.sig.g % U32 == d.sig.g;
  }

  /** At most one request is unacknowledged, in every run of any length. */
  lemma OneOutstanding(steps: seq<Step>)
    requires Exec(steps).Reached?
    ensures var s := Exec(steps).s;
            && s.page.lastGen <= s.dp.gens <= s.page.lastGen + 1
            && (!s.dp.wait ==> s.page.lastGen == s.dp.gens == |s.issued|)
  {
    RunInv(steps);
  }

  lemma KernelTakesIssued(steps: seq<Step>)
    requires Exec(steps).Reached? && Exec(steps).s.dp.gens < I31
    ensures TakesIssued(Exec(steps).s)
  {
    RunInv(steps);
  }

  lemma SignalsAreInTime(steps: seq<Step>)
    requires Exec(steps).Reached? && Exec(steps).s.dp.gens < U32
    ensures SignalsInTime(Exec(steps).s)
    ensures Exec(steps).s.k.misses == 0 ==> SignalsExact(Exec(steps).s)
  {
    RunInv(steps);
    var s := Exec(steps).s;
    forall i | 0 <= i < |s.irq.delivered|
      ensures InTime(s.irq.delivered[i]) && (s.k.misses == 0 ==> !s.irq.delivered[i].missed)
    {
      SoundInTime(s.irq.delivered[i], s.dp.gens, s.k.misses);
    }
  }

  /**
   When the dataplane, with no request outstanding, sees the busy flag clear, the
   module has no running task, or is about to release the one that parked.
   */
  lemma IdleReportIsTrue(steps: seq<Step>)
    requires Exec(steps).Reached? && Exec(steps).s.dp.gens < I31
    ensures IdleReport(Exec(steps).s)
  {
    RunInv(steps);
  }

  predicate IdleReport(s: State) {
    !s.dp.wait && !s.page.busy ==> s.k.running.NoTask? || s.k.pc.Park3?
  }

  /** No request is outstanding, and the module runs a task that it is not about to release. */
  predicate Settled(s: State) { !s.dp.wait && s.k.running.Task? && !s.k.pc.Park3? }

  /** With no request outstanding, the task the module runs is the one last requested. */
  predicate CurrentTask(s: State) {
    Settled(s) ==> s.issued != [] && s.k.running.tid == s.issued[|s.issued| - 1]
  }

  lemma RunsTheCurrentTask(steps: seq<Step>)
    requires Exec(steps).Reached? && Exec(steps).s.dp.gens < I31 && Exec(steps).s.k.misses == 0
    ensures CurrentTask(Exec(steps).s)
  {
    RunInv(steps);
  }

  // ------------------------------------------------ how far the guarantees reach

  /** The state after n requests to idle the core, each taken up and acknowledged. */
  function Quiet(n: nat): State {
    State(Page(n, 0, false, n), Plane(n, false, DReady), Kern(n, n > 0, NoTask, User, false, 0),
          Irq(Cleared, 0, NoIpi, []), Zeros(n), Idles(n))
  }

  function Zeros(n: nat): seq<nat> { seq(n, (i: nat) => 0) }
  function Idles(n: nat): seq<Taken> { seq(n, (i: nat) => Taken(i + 1, 0)) }

  lemma Extend(steps: seq<Step>, s: State, step: Step) returns (steps': seq<Step>)
    requires Exec(steps) == Reached(s) && Enabled(s, step)
    ensures Exec(steps') == Reached(Do(s, step))
  {
    steps' := steps + [step];
    assert steps'[..|steps|] == steps;
  }

  /** After Quiet(n), one more request for task t, or to idle the core: issued. */
  function Issued(n: nat, t: nat): State {
    State(Page(n + 1, t, false, n), Plane(n + 1, true, DReady), Kern(n, false, NoTask, Idle3, false, 0),
          Irq(Cleared, 0, NoIpi, []), Zeros(n) + [t], Idles(n))
  }

  /** Then taken up. */
  function TakenUp(n: nat, t: nat): State {
    Issued(n, t).(k := Kern(n + 1, false, Started(t != 0, t, n + 1), IdleRan(n + 1), false, 0),
                  taken := Idles(n) + [Taken(n + 1, t)])
  }

  /** Then acknowledged. */
  function Acked(n: nat, t: nat): State {
    TakenUp(n, t).(page := Page(n + 1, t, t != 0, n + 1), dp := Plane(n + 1, false, DReady),
                   k := Kern(n + 1, true, Started(t != 0, t, n + 1), User, false, 0))
  }

  lemma Issue(steps: seq<Step>, n: nat, t: nat) returns (steps': seq<Step>)
    requires Exec(steps) == Reached(Quiet(n))
    ensures Exec(steps') == Reached(Issued(n, t))
  {
    var s := Quiet(n);
    steps' := Extend(steps, s, Dataplane(RunTid(t)));  s := Do(s, Dataplane(RunTid(t)));
    steps' := Extend(steps', s, Dataplane(RunGen));    s := Do(s, Dataplane(RunGen));
    steps' := Extend(steps', s, Idle(EnterIdle));      s := Do(s, Idle(EnterIdle));
    steps' := Extend(steps', s, Idle(CheckBusy));
  }

  lemma TakeUp(steps: seq<Step>, n: nat, t: nat) returns (steps': seq<Step>)
    requires Exec(steps) == Reached(Issued(n, t))
    ensures Exec(steps') == Reached(TakenUp(n, t))
  {
    var s := Issued(n, t);
    Eq32Near(n, n + 1);
    steps' := Extend(steps, s, Idle(Mwait));           s := Do(s, Idle(Mwait));
    steps' := Extend(steps', s, Idle(IdleReadTid));    s := Do(s, Idle(IdleReadTid));
    steps' := Extend(steps', s, Idle(IdleStart(t != 0)));
  }

  lemma Acknowledge(steps: seq<Step>, n: nat, t: nat) returns (steps': seq<Step>)
    requires Exec(steps) == Reached(TakenUp(n, t))
    ensures Exec(steps') == Reached(Acked(n, t))
  {
    var s := TakenUp(n, t);
    steps' := Extend(steps, s, Idle(IdleWriteBusy));   s := Do(s, Idle(IdleWriteBusy));
    steps' := Extend(steps', s, Idle(IdleLocalBusy));  s := Do(s, Idle(IdleLocalBusy));
    steps' := Extend(steps', s, Take(StoreLast));      s := Do(s, Take(StoreLast));
    steps' := Extend(steps', s, Dataplane(PollDone));
  }

  lemma IssueAndAck(steps: seq<Step>, n: nat, t: nat) returns (steps': seq<Step>)
    requires Exec(steps) == Reached(Quiet(n))
    ensures Exec(steps') == Reached(Acked(n, t))
    ensures t == 0 ==> Acked(n, t) == Quiet(n + 1)
  {
    steps' := Issue(steps, n, t);
    steps' := TakeUp(steps', n, t);
    steps' := Acknowledge(steps', n, t);
    assert Zeros(n) + [0] == Zeros(n + 1) && Idles(n) + [Taken(n + 1, 0)] == Idles(n + 1);
  }

  lemma {:induction false} QuietReachable(n: nat) returns (steps: seq<Step>)
    ensures Exec(steps) == Reached(Quiet(n))
  {
    steps := [];
    var i := 0;
    while i < n
      invariant i <= n && Exec(steps) == Reached(Quiet(i))
    {
      steps := IssueAndAck(steps, i, 0);
      i := i + 1;
    }
  }

  /** Once a generation has bit 31 set, the idle loop takes an old request for a new one. */
  lemma RetakenRequest() returns (steps: seq<Step>)
    ensures Exec(steps).Reached? && Exec(steps).s.dp.gens == I31
    ensures !TakesIssued(Exec(steps).s)
  {
    var s := Quiet(I31);
    steps := QuietReachable(I31);
    steps := Extend(steps, s, Idle(EnterIdle));   s := Do(s, Idle(EnterIdle));
    steps := Extend(steps, s, Idle(CheckBusy));   s := Do(s, Idle(CheckBusy));
    steps := Extend(steps, s, Idle(Mwait));       s := Do(s, Idle(Mwait));
    steps := Extend(steps, s, Idle(IdleReadTid)); s := Do(s, Idle(IdleReadTid));
    assert |s.taken| == I31 + 1;
  }

  /** The requests are taken up as issued exactly as long as fewer than 2^31 are issued. */
  lemma TakesIssuedExactly(bound: nat)
    ensures (forall steps :: Exec(steps).Reached? && Exec(steps).s.dp.gens <= bound ==> TakesIssued(Exec(steps).s))
       <==> bound < I31
  {
    if bound < I31 {
      forall steps | Exec(steps).Reached? && Exec(steps).s.dp.gens <= bound ensures TakesIssued(Exec(steps).s) {
        KernelTakesIssued(steps);
      }
    } else {
      var steps := RetakenRequest();
    }
  }

  /** A run of n requests, the last one for task 1, which has then parked, been released and reported idle. */
  lemma ParkedAndReleased(n: nat) returns (steps: seq<Step>)
    requires n > 0
    ensures Exec(steps) == Reached(Released(n))
  {
    var s := Acked(n - 1, 1);
    steps := QuietReachable(n - 1);
    steps := IssueAndAck(steps, n - 1, 1);
    steps := Extend(steps, s, Park(EnterPark(1)));  s := Do(s, Park(EnterPark(1)));
    steps := Extend(steps, s, Park(ParkLoad));      s := Do(s, Park(ParkLoad));
    steps := Extend(steps, s, Park(ParkClearBusy)); s := Do(s, Park(ParkClearBusy));
    steps := Extend(steps, s, Park(ParkRelease));   s := Do(s, Park(ParkRelease));
  }

  function Released(n: nat): State
    requires n > 0
  {
    Acked(n - 1, 1).(page := Page(n, 1, false, n), k := Kern(n, false, NoTask, User, false, 0))
  }

  /**
   At 2^31 requests the idle loop starts the last task again, with no request missed, none
   outstanding and after the core has reported idle.
   */
  lemma RestartedTask() returns (steps: seq<Step>)
    ensures Exec(steps).Reached? && Exec(steps).s.dp.gens == I31 && Exec(steps).s.k.misses == 0
    ensures var s := Exec(steps).s; !s.dp.wait && !s.page.busy && s.k.running == Task(1, I31) && !s.k.pc.Park3?
  {
    var s := Released(I31);
    steps := ParkedAndReleased(I31);
    steps := Extend(steps, s, Idle(EnterIdle));       s := Do(s, Idle(EnterIdle));
    steps := Extend(steps, s, Idle(CheckBusy));       s := Do(s, Idle(CheckBusy));
    steps := Extend(steps, s, Idle(Mwait));           s := Do(s, Idle(Mwait));
    steps := Extend(steps, s, Idle(IdleReadTid));     s := Do(s, Idle(IdleReadTid));
    steps := Extend(steps, s, Idle(IdleStart(true))); s := Do(s, Idle(IdleStart(true)));
  }

  /** Idle reports are true exactly as long as fewer than 2^31 requests are issued. */
  lemma IdleReportExactly(bound: nat)
    ensures (forall steps :: Exec(steps).Reached? && Exec(steps).s.dp.gens <= bound ==> IdleReport(Exec(steps).s))
       <==> bound < I31
  {
    if bound < I31 {
      forall steps | Exec(steps).Reached? && Exec(steps).s.dp.gens <= bound ensures IdleReport(Exec(steps).s) {
        IdleReportIsTrue(steps);
      }
    } else {
      var steps := RestartedTask();
    }
  }

  /**
   Requests for tasks 5 and 7, both acknowledged: task 7, awake without having been granted the
   core, parks, takes the request for itself as its own, and leaves task 5 as the running one.
   */
  lemma StrayKeepsOldTask() returns (steps: seq<Step>)
    ensures Exec(steps).Reached? && Exec(steps).s.dp.gens == 2 && Exec(steps).s.k.misses == 1
    ensures var s := Exec(steps).s;
            !s.dp.wait && s.page.busy && s.issued == [5, 7] && Granted(s.k.running, 5) && s.k.pc.User?
    ensures Exec(steps) == Reached(StrayRuns())
  {
    var s := StrayParks();
    steps := StrayTakesRequest();
    steps := Extend(steps, s, Take(ParkReadTid));    s := Do(s, Take(ParkReadTid));
    steps := Extend(steps, s, Take(ParkSetLast));    s := Do(s, Take(ParkSetLast));
    steps := Extend(steps, s, Take(ParkChoose));     s := Do(s, Take(ParkChoose));
    steps := Extend(steps, s, Take(ParkSelfBusy));   s := Do(s, Take(ParkSelfBusy));
    steps := Extend(steps, s, Take(StoreLast));      s := Do(s, Take(StoreLast));
    steps := Extend(steps, s, Dataplane(PollDone));  s := Do(s, Dataplane(PollDone));
  }

  /** Task 5 runs under generation 1, and task 7 has seen the request of generation 2 while parking. */
  function StrayParks(): State {
    State(Page(2, 7, true, 1), Plane(2, true, DReady), Kern(1, false, Task(5, 1), ParkTook(7, 2), false, 0),
          Irq(Cleared, 0, NoIpi, []), [5, 7], [Taken(1, 5)])
  }

  /** Both requests are acknowledged, and task 5 still runs. */
  function StrayRuns(): State {
    State(Page(2, 7, true, 2), Plane(2, false, DReady), Kern(2, true, Task(5, 1), User, true, 1),
          Irq(Cleared, 0, NoIpi, []), [5, 7], [Taken(1, 5), Taken(2, 7)])
  }

  lemma StrayTakesRequest() returns (steps: seq<Step>)
    ensures Exec(steps) == Reached(StrayParks())
  {
    var s := Acked(0, 5);
    steps := QuietReachable(0);
    steps := IssueAndAck(steps, 0, 5);
    steps := Extend(steps, s, Dataplane(RunTid(7))); s := Do(s, Dataplane(RunTid(7)));
    steps := Extend(steps, s, Dataplane(RunGen));    s := Do(s, Dataplane(RunGen));
    steps := Extend(steps, s, Park(EnterPark(7)));   s := Do(s, Park(EnterPark(7)));
    steps := Extend(steps, s, Park(ParkLoad));       s := Do(s, Park(ParkLoad));
    assert Zeros(0) + [5] + [7] == [5, 7] && Idles(0) + [Taken(1, 5)] == [Taken(1, 5)];
  }

  /**
   Below 2^31 requests the module runs the task last requested, unless and only unless the last request
   taken up was one for the task that was parking, with another task as the running one.
   */
  lemma CurrentTaskExactly(steps: seq<Step>)
    requires Exec(steps).Reached? && Exec(steps).s.dp.gens < I31
    ensures var s := Exec(steps).s; CurrentTask(s) <==> !(Settled(s) && s.k.missed)
  {
    RunInv(steps);
  }

  /** At generation 2^32 the cleared sig word equals last_gen, and any interrupt sends a signal. */
  lemma SpuriousSignal() returns (steps: seq<Step>)
    ensures Exec(steps).Reached? && Exec(steps).s.dp.gens == U32
    ensures !SignalsInTime(Exec(steps).s)
  {
    var s := Acked(U32 - 1, 1);
    steps := QuietReachable(U32 - 1);
    steps := IssueAndAck(steps, U32 - 1, 1);
    steps := Extend(steps, s, Interrupt(IpiLoad));    s := Do(s, Interrupt(IpiLoad));
    steps := Extend(steps, s, Interrupt(IpiDeliver)); s := Do(s, Interrupt(IpiDeliver));
    assert |s.irq.delivered| == 1 && s.irq.delivered[0].sig.Cleared?;
  }

  /** Signals reach the task they were meant for exactly as long as fewer than 2^32 requests are issued. */
  lemma SignalsInTimeExactly(bound: nat)
    ensures (forall steps :: Exec(steps).Reached? && Exec(steps).s.dp.gens <= bound ==> SignalsInTime(Exec(steps).s))
       <==> bound < U32
  {
    if bound < U32 {
      forall steps | Exec(steps).Reached? && Exec(steps).s.dp.gens <= bound ensures SignalsInTime(Exec(steps).s) {
        SignalsAreInTime(steps);
      }
    } else {
      var steps := SpuriousSignal();
    }
  }

  /** After a miss a signal for the task of generation 2 goes to the task of generation 1. */
  lemma StraySignal() returns (steps: seq<Step>)
    ensures Exec(steps).Reached? && Exec(steps).s.dp.gens == 2 && Exec(steps).s.k.misses == 1
    ensures !SignalsExact(Exec(steps).s)
  {
    var s := StrayRuns();
    steps := StrayKeepsOldTask();
    steps := Extend(steps, s, Dataplane(IntrSignum)); s := Do(s, Dataplane(IntrSignum));
    steps := Extend(steps, s, Dataplane(IntrSig));    s := Do(s, Dataplane(IntrSig));
    steps := Extend(steps, s, Interrupt(IpiLoad));    s := Do(s, Interrupt(IpiLoad));
    steps := Extend(steps, s, Interrupt(IpiDeliver)); s := Do(s, Interrupt(IpiDeliver));
    assert |s.irq.delivered| == 1 && s.irq.delivered[0].task.start == 1 && s.irq.delivered[0].sig == For(2);
  }

  /** Below 2^32 requests exactly the signals of missed requests go to another task than their own. */
  lemma SignalsExactly(steps: seq<Step>)
    requires Exec(steps).Reached? && Exec(steps).s.dp.gens < U32
    ensures var s := Exec(steps).s;
            SignalsExact(s) <==> forall i :: 0 <= i < |s.irq.delivered| ==> !s.irq.delivered[i].missed
  {
    SignalsAreInTime(steps);
    var s := Exec(steps).s;
    assert forall i :: 0 <= i < |s.irq.delivered| ==> InTime(s.irq.delivered[i]);
  }
}
