/**
 The interference-aware policy: reserved cores, who owns each core, congested and starved
 procs, and the hyperthread controller's punished cores, on top of the core switching of
 CoreSched.  Scores and budgets, floating point in the program, are parameters.
 */
module IasPolicy {
  import opened CoreSched
  import opened Seqs
  import opened Ownership

  // ------------------------------------------------------------------ reservations

  /** Hyperthreads come in pairs, and the scheduler has both or neither of a pair. */
  ghost predicate Paired(siblings: seq<nat>, tbl: seq<nat>) {
    forall c :: 0 <= c < |siblings| ==> Pair(siblings, c) && (c in tbl <==> siblings[c] in tbl)
  }

  predicate Pair(siblings: seq<nat>, c: nat)
    requires c < |siblings|
  {
    siblings[c] < |siblings| && siblings[c] != c && siblings[siblings[c]] == c
  }

  /** resv[c] is the proc that reserved core c; the bitmaps say the same. */
  ghost predicate Reservations(resv: seq<Opt>, reserved: seq<set<nat>>, all: set<nat>, tbl: seq<nat>) {
    && (forall c :: c in all ==> c < |resv|)
    && (forall c :: 0 <= c < |resv| ==> (c in all <==> c !in tbl || resv[c].Some?))
    && (forall c :: 0 <= c < |resv| && resv[c].Some? ==> c in tbl && resv[c].t < |reserved|)
    && (forall p :: 0 <= p < |reserved| ==> reserved[p] == Owned(resv, p))
  }

  /** Both cores of a pair are reserved by the same proc, or neither. */
  ghost predicate WholePairs(resv: seq<Opt>, siblings: seq<nat>) {
    |resv| == |siblings| && forall c :: 0 <= c < |resv| ==> SameAsSibling(resv, siblings, c)
  }

  predicate SameAsSibling(resv: seq<Opt>, siblings: seq<nat>, c: nat)
    requires c < |resv| == |siblings|
  {
    siblings[c] < |resv| && resv[siblings[c]] == resv[c]
  }

  ghost function Free(resv: seq<Opt>, tbl: seq<nat>): set<nat> {
    set c | c in tbl && c < |resv| && resv[c] == None
  }

  /** bitmap_xor */
  function Xor(a: set<nat>, b: set<nat>): set<nat> { (a - b) + (b - a) }

  lemma SetsGrow(before: set<nat>, had: set<nat>, all: set<nat>, picked: set<nat>)
    requires all == before + had && had !! before && picked !! all
    ensures all + picked == before + (had + picked) && (had + picked) !! before
  {
  }

  lemma XorUndo(before: set<nat>, added: set<nat>, all: set<nat>)
    requires all == before + added && added !! before
    ensures Xor(all, added) == before
  {
  }

  lemma ReserveOne(resv: seq<Opt>, reserved: seq<set<nat>>, all: set<nat>, tbl: seq<nat>, p: nat, c: nat)
    requires Reservations(resv, reserved, all, tbl) && p < |reserved| && c < |resv| && c !in all
    ensures Reservations(resv[c := Some(p)], reserved[p := reserved[p] + {c}], all + {c}, tbl)
    ensures |reserved[p] + {c}| == |reserved[p]| + 1
    ensures c in tbl && |Free(resv[c := Some(p)], tbl)| == |Free(resv, tbl)| - 1
  {
    var resv' := resv[c := Some(p)];
    assert Free(resv, tbl) == Free(resv', tbl) + {c};
    forall q | 0 <= q < |reserved| ensures reserved[p := reserved[p] + {c}][q] == Owned(resv', q) {
      assert Owned(resv', q) == if q == p then Owned(resv, q) + {c} else Owned(resv, q);
    }
  }

  lemma ReservePair(resv: seq<Opt>, reserved: seq<set<nat>>, all: set<nat>, tbl: seq<nat>, siblings: seq<nat>, p: nat,
                    c: nat)
    requires Reservations(resv, reserved, all, tbl) && p < |reserved| && c < |resv| && c !in all
    requires Paired(siblings, tbl) && WholePairs(resv, siblings)
    ensures siblings[c] < |resv|
    ensures var resv' := resv[c := Some(p)][siblings[c] := Some(p)];
            var both := reserved[p] + {c, siblings[c]};
            && Reservations(resv', reserved[p := both], all + {c, siblings[c]}, tbl) && WholePairs(resv', siblings)
            && |both| == |reserved[p]| + 2 && |Free(resv', tbl)| == |Free(resv, tbl)| - 2
            && {c, siblings[c]} !! all
  {
    hide Reservations, Free;
    assert Pair(siblings, c) && SameAsSibling(resv, siblings, c);
    var sib := siblings[c];
    SiblingIsFree(resv, reserved, all, tbl, siblings, c);
    ReserveOne(resv, reserved, all, tbl, p, c);
    var r, rs := resv[c := Some(p)], reserved[p := reserved[p] + {c}];
    ReserveOne(r, rs, all + {c}, tbl, p, sib);
    assert rs[p] + {sib} == reserved[p] + {c, sib};
    assert rs[p := rs[p] + {sib}] == reserved[p := reserved[p] + {c, sib}];
    assert all + {c} + {sib} == all + {c, sib};
    var r2 := r[sib := Some(p)];
    forall x | 0 <= x < |resv| ensures SameAsSibling(r2, siblings, x) {
      assert Pair(siblings, x) && SameAsSibling(resv, siblings, x);
    }
  }

  lemma SiblingIsFree(resv: seq<Opt>, reserved: seq<set<nat>>, all: set<nat>, tbl: seq<nat>, siblings: seq<nat>, c: nat)
    requires Reservations(resv, reserved, all, tbl) && c < |resv| && c !in all
    requires Paired(siblings, tbl) && WholePairs(resv, siblings)
    ensures siblings[c] < |resv| && siblings[c] !in all
  {
    assert Pair(siblings, c) && SameAsSibling(resv, siblings, c);
  }

  lemma AllTaken(resv: seq<Opt>, reserved: seq<set<nat>>, all: set<nat>, tbl: seq<nat>)
    requires Reservations(resv, reserved, all, tbl) && forall c :: 0 <= c < |resv| ==> c in all
    ensures Free(resv, tbl) == {}
  {
  }

  /** Dropping all of one proc's reservations with xor. */
  lemma Unreserve(resv: seq<Opt>, reserved: seq<set<nat>>, all: set<nat>, tbl: seq<nat>, p: nat)
    requires Reservations(resv, reserved, all, tbl) && p < |reserved|
    ensures Reservations(Cleared(resv, p), reserved[p := {}], Xor(all, reserved[p]), tbl)
    ensures forall siblings :: WholePairs(resv, siblings) ==> WholePairs(Cleared(resv, p), siblings)
  {
    forall siblings | WholePairs(resv, siblings) ensures WholePairs(Cleared(resv, p), siblings) {
      forall c | 0 <= c < |resv| ensures SameAsSibling(Cleared(resv, p), siblings, c) {
        assert SameAsSibling(resv, siblings, c);
      }
    }
    var resv' := Cleared(resv, p);
    assert reserved[p] <= all;
    forall c | 0 <= c < |resv| ensures c in Xor(all, reserved[p]) <==> c !in tbl || resv'[c].Some? { }
    forall q | 0 <= q < |reserved| ensures reserved[p := {}][q] == Owned(resv', q) {
      assert Owned(resv', q) == if q == p then {} else Owned(resv, q);
    }
  }

  /** What admission buys: the cores not yet reserved are as many as the guarantees leave. */
  lemma FreeCount(resv: seq<Opt>, reserved: seq<set<nat>>, all: set<nat>, tbl: seq<nat>, guaranteed: seq<int>)
    requires Reservations(resv, reserved, all, tbl) && NoDup(tbl) && |guaranteed| == |reserved|
    requires forall c :: c in tbl ==> c < |resv|
    requires forall p :: 0 <= p < |reserved| ==> |reserved[p]| == guaranteed[p]
    ensures |Free(resv, tbl)| == |tbl| - Sum(guaranteed, |guaranteed|)
  {
    OwnedSum(resv, guaranteed, |guaranteed|);
    ElemsCard(tbl);
    var taken := OwnedBelow(resv, |guaranteed|);
    assert Elems(tbl) == taken + Free(resv, tbl);
    assert taken !! Free(resv, tbl);
  }

  // ------------------------------------------------------------------ owners and marks

  ghost predicate Owners(owner: seq<Opt>, attached: seq<bool>, active: seq<int>, tbl: seq<nat>) {
    && |active| == |attached|
    && (forall c :: 0 <= c < |owner| && owner[c].Some? ==> c in tbl && owner[c].t < |attached| && attached[owner[c].t])
    && (forall p :: 0 <= p < |active| ==> active[p] == |Owned(owner, p)|)
  }

  /** A flag per proc and the list of the procs that have it. */
  ghost predicate Flagged(list: seq<nat>, flag: seq<bool>) {
    NoDup(list) && forall p :: p in list <==> 0 <= p < |flag| && flag[p]
  }

  /** Both lists are exact, and only attached procs are congested. */
  ghost predicate Marks(starved: seq<nat>, isStarved: seq<bool>, congested: seq<nat>, isCongested: seq<bool>,
                        attached: seq<bool>) {
    && Flagged(starved, isStarved) && Flagged(congested, isCongested) && |isCongested| == |attached|
    && forall p :: 0 <= p < |isCongested| && isCongested[p] ==> attached[p]
  }

  lemma MarksUpdate(starved: seq<nat>, isStarved: seq<bool>, congested: seq<nat>, isCongested: seq<bool>,
                    attached: seq<bool>, p: nat, a: bool)
    requires Marks(starved, isStarved, congested, isCongested, attached) && p < |attached| && (a || !isCongested[p])
    ensures Marks(starved, isStarved, congested, isCongested, attached[p := a])
    ensures !attached[p] ==> !isCongested[p]
  {
  }

  /** A starved proc is latency-critical, congested and without a core. */
  ghost predicate Starving(isStarved: seq<bool>, isCongested: seq<bool>, isLc: seq<bool>, active: seq<int>) {
    && |isStarved| == |isCongested| == |isLc| == |active|
    && forall p :: 0 <= p < |isStarved| && isStarved[p] ==> isCongested[p] && isLc[p] && active[p] == 0
  }

  lemma ReassignKeepsOwners(owner: seq<Opt>, attached: seq<bool>, active: seq<int>, tbl: seq<nat>, core: nat, o: Opt)
    requires Owners(owner, attached, active, tbl) && core < |owner|
    requires o.Some? ==> core in tbl && o.t < |attached| && attached[o.t]
    ensures Owners(owner[core := o], attached, Bump(Bump(active, owner[core], -1), o, 1), tbl)
  {
    forall p | 0 <= p < |active| ensures Bump(Bump(active, owner[core], -1), o, 1)[p] == |Owned(owner[core := o], p)| {
      OwnedUpdate(owner, core, o, p);
    }
  }

  /** A proc that owns a core is not starved, so it may lose the core. */
  lemma OwnerIsNotStarved(owner: seq<Opt>, attached: seq<bool>, active: seq<int>, tbl: seq<nat>, core: nat)
    requires Owners(owner, attached, active, tbl) && core < |owner| && owner[core].Some?
    ensures active[owner[core].t] >= 1
  {
    assert core in Owned(owner, owner[core].t);
  }

  /** Every owned core that is not marked idle is meant to run its owner; one marked idle runs nothing. */
  ghost predicate Tracks(owner: seq<Opt>, views: seq<Opt>, procOf: seq<nat>, idleBits: set<nat>, skip: set<nat>) {
    && Agrees(owner, views, procOf, idleBits + skip)
    && forall c :: c in idleBits ==> c < |owner| && views[c] == None
  }

  lemma RunTracks(owner: seq<Opt>, views: seq<Opt>, views': seq<Opt>, procOf: seq<nat>, idleBits: set<nat>,
                  skip: set<nat>, core: nat, p: nat)
    requires Tracks(owner, views, procOf, idleBits, skip) && core < |owner|
    requires exists t | Belongs(procOf, t, p) :: views' == views[core := Some(t)]
    ensures Tracks(owner[core := Some(p)], views', procOf, idleBits - {core}, skip - {core})
  {
  }

  lemma IdleTracks(owner: seq<Opt>, views: seq<Opt>, procOf: seq<nat>, idleBits: set<nat>, skip: set<nat>, core: nat,
                   o: Opt)
    requires Tracks(owner, views, procOf, idleBits, skip) && core < |owner|
    ensures Tracks(owner[core := o], views[core := None], procOf, idleBits + {core}, skip)
  {
  }

  lemma ClearTracks(owner: seq<Opt>, views: seq<Opt>, procOf: seq<nat>, idleBits: set<nat>, skip: set<nat>, p: nat)
    requires Tracks(owner, views, procOf, idleBits, skip)
    ensures Tracks(Cleared(owner, p), views, procOf, idleBits, skip)
  {
  }

  /** A proc given a core is no longer starved; one that loses a core was not. */
  lemma ReassignStarving(isStarved: seq<bool>, isCongested: seq<bool>, isLc: seq<bool>, active: seq<int>,
                         owner: seq<Opt>, attached: seq<bool>, tbl: seq<nat>, core: nat, o: Opt)
    requires Starving(isStarved, isCongested, isLc, active) && Owners(owner, attached, active, tbl)
    requires core < |owner| && (o.Some? ==> o.t < |active|)
    ensures Starving(if o.Some? then isStarved[o.t := false] else isStarved, isCongested, isLc,
                     Bump(Bump(active, owner[core], -1), o, 1))
  {
    if owner[core].Some? {
      OwnerIsNotStarved(owner, attached, active, tbl, core);
    }
  }

  /** An attached proc's client holds a reference. */
  ghost predicate Held(attached: seq<bool>, others: seq<nat>) {
    |attached| == |others| && forall p :: 0 <= p < |attached| && attached[p] ==> others[p] > 0
  }

  lemma HeldUpdate(attached: seq<bool>, others: seq<nat>, p: nat, a: bool)
    requires Held(attached, others) && p < |attached| && (a ==> others[p] > 0)
    ensures Held(attached[p := a], others)
  {
  }

  lemma NothingOwned(owner: seq<Opt>, attached: seq<bool>, active: seq<int>, tbl: seq<nat>)
    requires |active| == |attached| && (forall c :: 0 <= c < |owner| ==> owner[c] == None)
    requires forall p :: 0 <= p < |active| ==> active[p] == 0
    ensures Owners(owner, attached, active, tbl)
  {
    forall p | 0 <= p < |active| ensures Owned(owner, p) == {} { }
  }

  lemma NothingReserved(resv: seq<Opt>, reserved: seq<set<nat>>, all: set<nat>, tbl: seq<nat>)
    requires forall c :: 0 <= c < |resv| ==> resv[c] == None && (c in all <==> c !in tbl)
    requires (forall c :: c in all ==> c < |resv|) && forall p :: 0 <= p < |reserved| ==> reserved[p] == {}
    ensures Reservations(resv, reserved, all, tbl)
  {
    forall p | 0 <= p < |reserved| ensures Owned(resv, p) == {} { }
  }

  lemma NothingTracked(owner: seq<Opt>, views: seq<Opt>, procOf: seq<nat>)
    requires |owner| == |views| && forall c :: 0 <= c < |owner| ==> owner[c] == None
    ensures Tracks(owner, views, procOf, {}, {})
  {
  }

  lemma NoPairs(resv: seq<Opt>, siblings: seq<nat>, tbl: seq<nat>)
    requires Paired(siblings, tbl) && |resv| == |siblings| && forall c :: 0 <= c < |resv| ==> resv[c] == None
    ensures WholePairs(resv, siblings)
  {
    forall c | 0 <= c < |siblings| ensures SameAsSibling(resv, siblings, c) { assert Pair(siblings, c); }
  }

  ghost predicate Limited(limit: seq<int>, maxCores: seq<int>, bwLimited: seq<bool>) {
    && |limit| == |maxCores| == |bwLimited|
    && forall p :: 0 <= p < |limit| ==> 0 <= limit[p] <= maxCores[p] && (bwLimited[p] <==> limit[p] < maxCores[p])
  }

  /** A punished core is marked idle and owned by the latency-critical proc that has reserved it. */
  ghost predicate Punishing(owner: seq<Opt>, reserved: seq<set<nat>>, isLc: seq<bool>, idleBits: set<nat>,
                            punished: set<nat>) {
    forall c :: c in punished ==> PunishedAt(owner, reserved, isLc, idleBits, c)
  }

  ghost predicate PunishedAt(owner: seq<Opt>, reserved: seq<set<nat>>, isLc: seq<bool>, idleBits: set<nat>, c: nat) {
    && c < |owner| && owner[c].Some? && owner[c].t < |reserved| && c in reserved[owner[c].t]
    && owner[c].t < |isLc| && isLc[owner[c].t] && c in idleBits
  }

  /** The scores of all cores, and the budgets used on them, at one moment. */
  datatype Readings = Readings(score: seq<nat>, budget: seq<nat>)

  predicate Sized(rd: Readings, n: nat) { |rd.score| == |rd.budget| == n }

  predicate AllSized(rds: seq<Readings>, n: nat) { forall i :: 0 <= i < |rds| ==> Sized(rds[i], n) }

  /** What the slow pass tells the policy: a proc's measured delay, or that it needs a core for its I/O. */
  datatype Note = Measured(p: nat, congestedNow: bool, rd: Readings) | CoreNeeded(p: nat, rd: Readings)

  class Ias {
    const mech: Dataplane

    var owner: seq<Opt>              // cores[]
    var idleBits: set<nat>           // ias_idle_cores
    var all: set<nat>                // ias_reserved_cores
    var starved: seq<nat>            // starved_procs
    var congested: seq<nat>          // congested_procs
    // struct ias_data
    var attached: seq<bool>
    var isCongested: seq<bool>
    var isStarved: seq<bool>
    var isLc: seq<bool>
    var reserved: seq<set<nat>>
    var guaranteed: seq<int>
    var limit: seq<int>              // threads_limit
    var maxCores: seq<int>           // threads_max
    var bwLimited: seq<bool>         // is_bwlimited
    var punishes: seq<bool>          // ht_punish_us > 0
    var active: seq<int>
    // the hyperthread controller
    var punished: set<nat>           // ias_ht_punished_cores
    var punishCount: nat
    var relaxCount: nat
    // nr_guaranteed of the core scheduler
    var nrGuaranteed: int

    ghost var resv: seq<Opt>

    ghost predicate Fixed()
    {
      && NoDup(mech.coreTbl) && (forall c :: c in mech.coreTbl ==> c < |mech.siblings|)
      && |mech.base| == |mech.count|
      && (forall p :: 0 <= p < |mech.base| ==> Block(mech.procOf, mech.base[p], mech.count[p], p))
      && (!mech.noht ==> Paired(mech.siblings, mech.coreTbl))
    }

    ghost predicate Config()
      reads mech`others, this`attached
    {
      Fixed() && |attached| == |mech.others| == |mech.base| && Held(attached, mech.others)
    }

    /** Reservations are disjoint, whole pairs, and exactly as large as the guarantees, which fit on the cores. */
    ghost predicate ResvOk()
      reads this`resv, this`reserved, this`all, this`guaranteed, this`nrGuaranteed, this`attached
    {
      && |resv| == |mech.siblings| && |reserved| == |guaranteed| == |attached|
      && Reservations(resv, reserved, all, mech.coreTbl)
      && (!mech.noht ==> WholePairs(resv, mech.siblings))
      && (forall p :: 0 <= p < |reserved| ==> |reserved[p]| == guaranteed[p] && (!attached[p] ==> guaranteed[p] == 0))
      && nrGuaranteed == Sum(guaranteed, |guaranteed|) <= |mech.coreTbl|
    }

    ghost predicate OwnersOk()
      reads this`owner, this`attached, this`active
    {
      |owner| == |mech.siblings| && Owners(owner, attached, active, mech.coreTbl)
    }

    ghost predicate ListsOk()
      reads this`starved, this`isStarved, this`congested, this`isCongested, this`attached
    {
      |isStarved| == |isCongested| == |attached| && Marks(starved, isStarved, congested, isCongested, attached)
    }

    ghost predicate StarvedOk()
      reads this`isStarved, this`isCongested, this`isLc, this`active
    {
      Starving(isStarved, isCongested, isLc, active)
    }

    ghost predicate HtOk()
      reads this`punished, this`punishCount, this`relaxCount
    {
      punishCount - relaxCount == |punished|
    }

    ghost predicate AgreesBut(skip: set<nat>)
      reads this`owner, this`idleBits, mech`cores
    {
      Tracks(owner, Views(mech.cores), mech.procOf, idleBits, skip)
    }

    ghost predicate BooksBut(skip: set<nat>)
      reads this, mech`others, mech`cores
    {
      && Config() && ResvOk() && OwnersOk() && ListsOk() && StarvedOk() && HtOk() && IdleOk() && AgreesBut(skip)
      && |limit| == |punishes| == |isLc| == |active| == |attached| && BwOk() && SpecOk()
    }

    /** Only latency-critical procs punish. */
    ghost predicate SpecOk()
      reads this`punishes, this`isLc
    {
      |punishes| == |isLc| && forall p :: 0 <= p < |punishes| && punishes[p] ==> isLc[p]
    }

    /** A proc's limit is between zero and its maximum, and below that exactly while it is throttled. */
    ghost predicate BwOk()
      reads this`limit, this`maxCores, this`bwLimited
    {
      Limited(limit, maxCores, bwLimited)
    }

    ghost predicate IdleOk()
      reads this`idleBits
    {
      forall c :: c in idleBits ==> c in mech.coreTbl
    }

    ghost predicate PunishedOk()
      reads this`owner, this`reserved, this`isLc, this`idleBits, this`punished
    {
      Punishing(owner, reserved, isLc, idleBits, punished)
    }

    ghost predicate ValidBut(skip: set<nat>)
      reads this, mech
    {
      mech.Valid() && BooksBut(skip)
    }

    ghost predicate Valid()
      reads this, mech
    {
      ValidBut({})
    }

    /** ias_init, with no proc attached yet. */
    constructor (mech: Dataplane)
      requires mech.Valid() && NoDup(mech.coreTbl) && (!mech.noht ==> Paired(mech.siblings, mech.coreTbl))
      requires forall p :: 0 <= p < |mech.base| ==> Block(mech.procOf, mech.base[p], mech.count[p], p)
      ensures Valid() && this.mech == mech && |attached| == |mech.base|
      ensures forall p :: 0 <= p < |attached| ==> !attached[p]
      ensures owner == seq(|mech.siblings|, _ => None) && punished == {} && nrGuaranteed == 0
    {
      this.mech := mech;
      var n := |mech.base|;
      owner, resv := seq(|mech.siblings|, _ => None), seq(|mech.siblings|, _ => None);
      idleBits, starved, congested := {}, [], [];
      all := set c: nat | 0 <= c < |mech.siblings| && c !in mech.coreTbl;
      attached, isCongested := seq(n, _ => false), seq(n, _ => false);
      isStarved, isLc := seq(n, _ => false), seq(n, _ => false);
      reserved := seq(n, _ => {});
      guaranteed, limit, active := seq(n, _ => 0), seq(n, _ => 0), seq(n, _ => 0);
      maxCores, bwLimited := seq(n, _ => 0), seq(n, _ => false);
      punishes := seq(n, _ => false);
      punished, punishCount, relaxCount, nrGuaranteed := {}, 0, 0, 0;
      new;
      hide Reservations, Owners, WholePairs, Tracks;
      NothingOwned(owner, attached, active, mech.coreTbl);
      NothingReserved(resv, reserved, all, mech.coreTbl);
      NothingTracked(owner, Views(mech.cores), mech.procOf);
      ZeroSum(guaranteed, n);
      if !mech.noht {
        NoPairs(resv, mech.siblings, mech.coreTbl);
      }
    }

    // ---------------------------------------------------------------- marks

    method MarkStarved(p: nat)
      requires ListsOk() && p < |attached|
      modifies this`isStarved, this`starved
      ensures ListsOk() && isStarved == old(isStarved)[p := true]
    {
      if isStarved[p] {
        return;
      }
      isStarved := isStarved[p := true];
      FlagAdded(starved, old(isStarved), p, false);
      starved := starved + [p];
    }

    method UnmarkStarved(p: nat)
      requires ListsOk() && p < |attached|
      modifies this`isStarved, this`starved
      ensures ListsOk() && isStarved == old(isStarved)[p := false]
    {
      if !isStarved[p] {
        return;
      }
      isStarved := isStarved[p := false];
      starved := Without(starved, p);
    }

    method MarkCongested(p: nat)
      requires ListsOk() && StarvedOk() && p < |attached| && attached[p]
      modifies this`isStarved, this`starved, this`isCongested, this`congested
      ensures ListsOk() && StarvedOk() && isCongested == old(isCongested)[p := true]
      ensures isStarved == old(isStarved)[p := old(isStarved[p]) || (isLc[p] && active[p] == 0)]
    {
      if isLc[p] && active[p] == 0 {
        MarkStarved(p);
      }
      if isCongested[p] {
        return;
      }
      isCongested := isCongested[p := true];
      FlagAdded(congested, old(isCongested), p, true);
      congested := [p] + congested;
    }

    method UnmarkCongested(p: nat)
      requires ListsOk() && StarvedOk() && p < |attached|
      modifies this`isStarved, this`starved, this`isCongested, this`congested
      ensures ListsOk() && StarvedOk() && isCongested == old(isCongested)[p := false]
      ensures isStarved == old(isStarved)[p := false]
    {
      UnmarkStarved(p);
      if !isCongested[p] {
        return;
      }
      isCongested := isCongested[p := false];
      congested := Without(congested, p);
    }

    // ---------------------------------------------------------------- attach and detach

    ghost predicate Reserving()
      reads this`resv, this`reserved, this`all
    {
      && |resv| == |mech.siblings|
      && Reservations(resv, reserved, all, mech.coreTbl)
      && (!mech.noht ==> WholePairs(resv, mech.siblings))
    }

    /** One core, and its sibling when hyperthreads are used. */
    method ReserveNext(p: nat, core: nat) returns (n: nat, ghost picked: set<nat>)
      requires Reserving() && p < |reserved| && core < |resv| && core !in all
      requires !mech.noht ==> Paired(mech.siblings, mech.coreTbl)
      modifies this`resv, this`reserved, this`all
      ensures Reserving() && |reserved| == old(|reserved|) && n == if mech.noht then 1 else 2
      ensures |reserved[p]| == old(|reserved[p]|) + n
      ensures forall q :: 0 <= q < |reserved| && q != p ==> reserved[q] == old(reserved[q])
      ensures |Free(resv, mech.coreTbl)| == old(|Free(resv, mech.coreTbl)|) - n
      ensures picked !! old(all) && reserved[p] == old(reserved[p]) + picked && all == old(all) + picked
    {
      hide Reservations, WholePairs, Free;
      if mech.noht {
        ReserveOne(resv, reserved, all, mech.coreTbl, p, core);
        picked := {core};
        reserved, all := reserved[p := reserved[p] + {core}], all + {core};
        resv := resv[core := Some(p)];
        n := 1;
      } else {
        ReservePair(resv, reserved, all, mech.coreTbl, mech.siblings, p, core);
        var sib := mech.siblings[core];
        picked := {core, sib};
        reserved, all := reserved[p := reserved[p] + {core, sib}], all + {core, sib};
        resv := resv[core := Some(p)][sib := Some(p)];
        n := 2;
      }
    }

    /** bitmap_find_next_cleared, from the start. */
    method FindCleared() returns (core: nat)
      requires |resv| == |mech.siblings|
      ensures core <= |resv| && (core < |resv| ==> core !in all)
      ensures core == |resv| ==> forall c :: 0 <= c < |resv| ==> c in all
    {
      core := 0;
      while core < |mech.siblings|
        invariant core <= |resv| && forall c :: 0 <= c < core ==> c in all
      {
        if core !in all {
          return;
        }
        core := core + 1;
      }
    }

    /** The reservation loop of ias_attach; when the cores run out it undoes itself. */
    method Reserve(p: nat, g: nat) returns (ok: bool)
      requires Reserving() && p < |reserved| && reserved[p] == {}
      requires !mech.noht ==> Paired(mech.siblings, mech.coreTbl) && g % 2 == 0
      modifies this`resv, this`reserved, this`all
      ensures Reserving() && |reserved| == old(|reserved|)
      ensures ok <==> g <= old(|Free(resv, mech.coreTbl)|)
      ensures forall q :: 0 <= q < |reserved| && q != p ==> reserved[q] == old(reserved[q])
      ensures ok ==> |reserved[p]| == g && reserved[p] !! old(all) && all == old(all) + reserved[p]
      ensures !ok ==> reserved[p] == {} && all == old(all)
    {
      hide Reservations, WholePairs, Free, Xor, Paired;
      var i := g;
      while i > 0
        invariant Reserving() && |reserved| == old(|reserved|) && 0 <= i <= g
        invariant !mech.noht ==> i % 2 == 0
        invariant |reserved[p]| == g - i && |Free(resv, mech.coreTbl)| == old(|Free(resv, mech.coreTbl)|) - (g - i)
        invariant forall q :: 0 <= q < |reserved| && q != p ==> reserved[q] == old(reserved[q])
        invariant all == old(all) + reserved[p] && reserved[p] !! old(all)
      {
        var core := FindCleared();
        if core == |mech.siblings| {
          AllTaken(resv, reserved, all, mech.coreTbl);
          Unreserve(resv, reserved, all, mech.coreTbl, p);
          XorUndo(old(all), reserved[p], all);
          all, reserved := Xor(all, reserved[p]), reserved[p := {}];
          resv := Cleared(resv, p);
          return false;
        }
        ghost var had, were := reserved[p], all;
        var n, picked := ReserveNext(p, core);
        SetsGrow(old(all), had, were, picked);
        i := i - n;
      }
      return true;
    }

    /** Under admission the reservation loop finds its cores. */
    method ReserveAdmitted(p: nat, g: nat)
      requires Config() && ResvOk() && p < |attached| && !attached[p] && g + nrGuaranteed <= |mech.coreTbl|
      requires !mech.noht ==> g % 2 == 0
      modifies this`resv, this`reserved, this`all, this`attached, this`guaranteed, this`nrGuaranteed
      ensures ResvOk() && attached == old(attached)[p := true] && nrGuaranteed == old(nrGuaranteed) + g
      ensures p < |reserved| && |reserved[p]| == g && reserved[p] !! old(all) && all == old(all) + reserved[p]
      ensures p < |old(reserved)| && reserved == old(reserved)[p := reserved[p]] && old(reserved[p]) == {}
    {
      hide Reservations, WholePairs;
      FreeCount(resv, reserved, all, mech.coreTbl, guaranteed);
      SumUpdate(guaranteed, |guaranteed|, p, g);
      var ok := Reserve(p, g);
      attached, guaranteed := attached[p := true], guaranteed[p := g];
      nrGuaranteed := nrGuaranteed + g;
    }

    method Enroll(p: nat, g: nat, max: nat, lc: bool, punish: bool)
      requires BooksBut({}) && p < |attached| && !attached[p] && mech.others[p] > 0
      requires g + nrGuaranteed <= |mech.coreTbl|
      requires !mech.noht ==> g % 2 == 0
      modifies this`resv, this`reserved, this`all, this`attached, this`guaranteed, this`limit, this`maxCores,
               this`bwLimited, this`isLc, this`punishes, this`nrGuaranteed
      ensures BooksBut({}) && attached == old(attached)[p := true]
      ensures p < |reserved| && |reserved[p]| == g && reserved[p] !! old(all) && all == old(all) + reserved[p]
      ensures reserved == old(reserved)[p := reserved[p]] && p < |old(reserved)| && old(reserved[p]) == {}
      ensures p < |old(isLc)| && isLc == old(isLc)[p := lc] && p < |old(limit)| && limit == old(limit)[p := max]
    {
      hide Limited, SpecOk, Fixed, Held, ResvOk, Owners, AgreesBut, HtOk, IdleOk, Starving, Marks;
      HeldUpdate(attached, mech.others, p, true);
      MarksUpdate(starved, isStarved, congested, isCongested, attached, p, true);
      AttachKeepsOwners(owner, attached, active, mech.coreTbl, p);
      EnrollStarving(isStarved, isCongested, isLc, active, p, lc);
      ReserveAdmitted(p, g);
      SetSpec(p, max, lc, punish);
    }

    method SetSpec(p: nat, max: nat, lc: bool, punish: bool)
      requires BwOk() && SpecOk() && p < |limit| == |isLc| == |punishes|
      modifies this`limit, this`maxCores, this`bwLimited, this`isLc, this`punishes
      ensures BwOk() && SpecOk() && limit == old(limit)[p := max]
      ensures isLc == old(isLc)[p := lc] && punishes == old(punishes)[p := lc && punish]
    {
      limit, isLc, punishes := limit[p := max], isLc[p := lc], punishes[p := lc && punish];
      maxCores, bwLimited := maxCores[p := max], bwLimited[p := false];
    }

    /** sched_attach_proc's admission test, then ias_attach: an admitted reservation never fails. */
    method Attach(p: nat, g: nat, max: nat, lc: bool, punish: bool) returns (ret: Ret)
      requires BooksBut({}) && p < |attached| && !attached[p] && mech.others[p] > 0
      modifies this`resv, this`reserved, this`all, this`attached, this`guaranteed, this`limit, this`maxCores,
               this`bwLimited, this`isLc, this`punishes, this`nrGuaranteed
      ensures BooksBut({})
      ensures ret == if g + old(nrGuaranteed) > |mech.coreTbl| then NoCore
                     else if !mech.noht && g % 2 != 0 then Invalid else Done
      ensures attached == old(attached)[p := ret == Done]
      ensures ret == Done ==>
                p < |reserved| && |reserved[p]| == g && reserved[p] !! old(all) && all == old(all) + reserved[p]
      ensures ret != Done ==> reserved == old(reserved) && all == old(all)
      ensures old(PunishedOk()) ==> PunishedOk()
    {
      hide BooksBut;
      if g + nrGuaranteed > |mech.coreTbl| {
        return NoCore;
      }
      if !mech.noht && g % 2 != 0 {
        return Invalid;
      }
      OwnsNothing(p);
      Enroll(p, g, max, lc, punish);
      return Done;
    }

    lemma OwnsNothing(p: nat)
      requires BooksBut({}) && p < |attached| && !attached[p]
      ensures forall c :: 0 <= c < |owner| ==> owner[c] != Some(p)
    {
    }

    /** ias_detach and the end of sched_detach_proc. */
    method Detach(p: nat)
      requires BooksBut({}) && p < |attached| && attached[p]
      modifies this`resv, this`reserved, this`all, this`attached, this`guaranteed, this`nrGuaranteed, this`owner,
               this`active, this`isCongested, this`congested, this`isStarved, this`starved
      ensures BooksBut({}) && attached == old(attached)[p := false]
      ensures p < old(|reserved|) && all == old(all) - old(reserved[p]) && owner == Cleared(old(owner), p)
      // the punished bits stay, so a punished core of the proc is nobody's from here on
      ensures old(PunishedOk()) ==> (PunishedOk() <==> forall c :: c in punished ==> old(OwnerAt(c)) != Some(p))
    {
      hide Limited, Fixed, Held, ResvOk, Owners, Marks, HtOk, IdleOk, Tracks;
      HeldUpdate(attached, mech.others, p, false);
      DetachOwners(owner, attached, active, mech.coreTbl, p);
      ClearTracks(owner, Views(mech.cores), mech.procOf, idleBits, {}, p);
      UnmarkCongested(p);
      MarksUpdate(starved, isStarved, congested, isCongested, attached, p, false);
      Unreserving(p);
      EraseOwner(p);
      active := active[p := 0];
    }

    method EraseOwner(p: nat)
      modifies this`owner
      ensures owner == Cleared(old(owner), p)
    {
      var i := 0;
      while i < |owner|
        invariant 0 <= i <= |owner| == |old(owner)|
        invariant forall c :: 0 <= c < i ==> owner[c] == Cleared(old(owner), p)[c]
        invariant forall c :: i <= c < |owner| ==> owner[c] == old(owner)[c]
      {
        if owner[i] == Some(p) {
          owner := owner[i := None];
        }
        i := i + 1;
      }
    }

    method Unreserving(p: nat)
      requires ResvOk() && p < |attached|
      modifies this`resv, this`reserved, this`all, this`attached, this`guaranteed, this`nrGuaranteed
      ensures ResvOk() && attached == old(attached)[p := false]
      ensures p < old(|reserved|) && all == old(all) - old(reserved[p]) && reserved == old(reserved)[p := {}]
    {
      Unreserve(resv, reserved, all, mech.coreTbl, p);
      SumUpdate(guaranteed, |guaranteed|, p, 0);
      ReservedIsMarked(resv, reserved, all, mech.coreTbl, p);
      hide Reservations, WholePairs;
      all := Xor(all, reserved[p]);
      resv, reserved := Cleared(resv, p), reserved[p := {}];
      nrGuaranteed := nrGuaranteed - guaranteed[p];
      attached, guaranteed := attached[p := false], guaranteed[p := 0];
    }

    // ---------------------------------------------------------------- giving out cores

    /** ias_cleanup_core, then the new owner is entered and counted, and the core marked idle or not. */
    method SetOwner(core: nat, o: Opt, idle: bool)
      requires OwnersOk() && core < |owner| && (o.Some? ==> core in mech.coreTbl && o.t < |attached| && attached[o.t])
      modifies this`owner, this`active, this`idleBits
      ensures OwnersOk() && owner == old(owner)[core := o]
      ensures idleBits == if idle then old(idleBits) + {core} else old(idleBits) - {core}
      ensures active == Bump(Bump(old(active), old(owner[core]), -1), o, 1)
    {
      ReassignKeepsOwners(owner, attached, active, mech.coreTbl, core, o);
      var cur := owner[core];
      if cur.Some? {
        active := active[cur.t := active[cur.t] - 1];
      }
      owner := owner[core := o];
      if o.Some? {
        active := active[o.t := active[o.t] + 1];
      }
      assert active == Bump(Bump(old(active), cur, -1), o, 1);
      idleBits := if idle then idleBits + {core} else idleBits - {core};
    }

    /** ias_run_kthread_on_core */
    method RunKthreadOnCore(p: nat, core: nat, txBusy: set<Tid>, ghost skip: set<nat>) returns (ret: Ret)
      requires ValidBut(skip) && p < |attached| && attached[p]
      modifies this`owner, this`active, this`idleBits, this`isStarved, this`starved,
               mech`active, mech`coreOf, mech`atIdx, mech`tsIdx, mech`actives, mech`idles, mech`flows, mech`refs,
               mech`released, mech`ts, mech`cores, mech`kern, mech`slot
      ensures ValidBut(if ret == Done then skip - {core} else skip)
      ensures ret == if old(mech.idles[p]) == [] then Busy else if core in mech.coreTbl then Done else Invalid
      ensures ret == Done ==> core < |owner| == old(|owner|) && owner == old(owner)[core := Some(p)]
      ensures ret == Done ==> idleBits == old(idleBits) - {core} && isStarved == old(isStarved)[p := false]
      ensures ret != Done ==> owner == old(owner) && idleBits == old(idleBits) && isStarved == old(isStarved)
    {
      hide Limited, SpecOk, HomesKept, Dataplane.Valid, ResvOk, Owners, Marks, HtOk, Tracks, Starving, Paired, NoDup;
      var avail := ThreadsAvail(mech, p);
      if avail == 0 {
        return Busy;
      }
      var st := RunInMech(mech, p, core, txBusy);
      if st != Ok {
        return Invalid;
      }
      ViewSizes(mech);
      RunTracks(owner, old(Views(mech.cores)), Views(mech.cores), mech.procOf, idleBits, skip, core, p);
      OwnerSizes(owner, attached, active, mech.coreTbl);
      ReassignStarving(isStarved, isCongested, isLc, active, owner, attached, mech.coreTbl, core, Some(p));
      SetOwner(core, Some(p), false);
      UnmarkStarved(p);
      return Done;
    }

    /** The common part of the two idling functions: the core runs nothing, and o is charged for it. */
    method IdleFor(core: nat, o: Opt, txBusy: set<Tid>, ghost skip: set<nat>) returns (ret: Ret)
      requires ValidBut(skip) && (o.Some? ==> o.t < |attached| && attached[o.t] && active[o.t] >= 1)
      modifies this`owner, this`active, this`idleBits, mech`active, mech`coreOf, mech`atIdx, mech`tsIdx, mech`actives,
               mech`idles, mech`flows, mech`refs, mech`released, mech`ts, mech`cores, mech`kern, mech`slot
      ensures ValidBut(skip) && ret == if core in mech.coreTbl then Done else Busy
      ensures ret == Done ==>
                core < |owner| == old(|owner|) && owner == old(owner)[core := o] && idleBits == old(idleBits) + {core}
      ensures ret == Busy ==> owner == old(owner) && idleBits == old(idleBits)
    {
      hide Limited, Fixed, Held, Dataplane.Valid, ResvOk, Owners, Marks, HtOk, Tracks;
      ViewSizes(mech);
      if core !in idleBits {
        var st := mech.IdleOnCore(core, txBusy);
        if st != Ok {
          return Busy;
        }
      } else {
        IdleView(owner, Views(mech.cores), mech.procOf, idleBits, skip, core);
      }
      ViewSizes(mech);
      OwnerSizes(owner, attached, active, mech.coreTbl);
      IdleTracks(owner, old(Views(mech.cores)), mech.procOf, idleBits, skip, core, o);
      ReassignStarving(isStarved, isCongested, isLc, active, owner, attached, mech.coreTbl, core, o);
      assert o.Some? ==> isStarved[o.t := false] == isStarved;
      SetOwner(core, o, true);
      return Done;
    }

    /** ias_idle_placeholder_on_core */
    method IdlePlaceholderOnCore(p: nat, core: nat, txBusy: set<Tid>, ghost skip: set<nat>) returns (ret: Ret)
      requires ValidBut(skip) && p < |attached| && attached[p] && active[p] >= 1
      modifies this`owner, this`active, this`idleBits, mech`active, mech`coreOf, mech`atIdx, mech`tsIdx, mech`actives,
               mech`idles, mech`flows, mech`refs, mech`released, mech`ts, mech`cores, mech`kern, mech`slot
      ensures ValidBut(skip) && ret == if core in mech.coreTbl then Done else Busy
      ensures ret == Done ==> core < |owner| == old(|owner|) && owner == old(owner)[core := Some(p)]
      ensures ret == Done ==> idleBits == old(idleBits) + {core}
      ensures ret == Busy ==> owner == old(owner) && idleBits == old(idleBits)
    {
      ret := IdleFor(core, Some(p), txBusy, skip);
    }

    /** ias_idle_on_core */
    method IdleOnCore(core: nat, txBusy: set<Tid>, ghost skip: set<nat>) returns (ret: Ret)
      requires ValidBut(skip)
      modifies this`owner, this`active, this`idleBits, mech`active, mech`coreOf, mech`atIdx, mech`tsIdx, mech`actives,
               mech`idles, mech`flows, mech`refs, mech`released, mech`ts, mech`cores, mech`kern, mech`slot
      ensures ValidBut(skip) && ret == if core in mech.coreTbl then Done else Busy
      ensures ret == Done ==> core < |owner| == old(|owner|) && owner == old(owner)[core := None]
      ensures ret == Done ==> idleBits == old(idleBits) + {core}
      ensures ret == Busy ==> owner == old(owner) && idleBits == old(idleBits)
    {
      ret := IdleFor(core, None, txBusy, skip);
    }

    // ---------------------------------------------------------------- choosing

    /** ias_can_preempt_core */
    predicate CanPreempt(p: nat, core: nat)
      reads this`owner, this`reserved, this`isLc, this`active, this`guaranteed
      requires p < |isLc| == |active| == |guaranteed| == |reserved|
    {
      core < |owner| && MayTake(p, owner[core], core, reserved, isLc, active, guaranteed)
    }

    /** ias_choose_core, for any scores: the best of the cores the proc may take. */
    method ChooseCore(p: nat, score: seq<nat>) returns (r: nat)
      requires BooksBut({}) && p < |attached| && |score| == |owner|
      ensures r <= |owner| && (r < |owner| ==> r in mech.coreTbl && CanPreempt(p, r))
      ensures forall c :: c in mech.coreTbl && CanPreempt(p, c) ==> r < |owner| && score[c] <= score[r]
    {
      hide Reservations, WholePairs, Flagged, HtOk, Tracks, Starving;
      r := |owner|;
      var best: int := -1;
      for i := 0 to |mech.coreTbl|
        invariant r <= |owner| && (r == |owner| <==> best == -1)
        invariant r < |owner| ==> r in mech.coreTbl && CanPreempt(p, r) && best == score[r]
        invariant forall j :: 0 <= j < i && CanPreempt(p, mech.coreTbl[j]) ==>
                  r < |owner| && score[mech.coreTbl[j]] <= best
      {
        var c := mech.coreTbl[i];
        assert c in mech.coreTbl;
        if CanPreempt(p, c) && score[c] > best {
          r, best := c, score[c];
        }
      }
    }

    /** ias_can_add_kthread; hot holds the cores whose sibling has used up its budget. */
    method CanAddKthread(p: nat, ignoreHot: bool, hot: set<nat>) returns (yes: bool)
      requires BooksBut({}) && p < |attached|
      ensures yes <==> HasRoom(p, ignoreHot, hot)
    {
      hide Reservations, WholePairs, Flagged, HtOk, Tracks, Starving;
      for i := 0 to |mech.coreTbl|
        invariant forall j :: 0 <= j < i ==> !CanPreempt(p, mech.coreTbl[j]) || (ignoreHot && mech.coreTbl[j] in hot)
      {
        var c := mech.coreTbl[i];
        if CanPreempt(p, c) && !(ignoreHot && c in hot) {
          return true;
        }
      }
      return false;
    }

    /** The search of ias_ht_relinquish_core: the proc's punished core whose sibling has the most budget left. */
    method ChoosePunished(p: nat, budget: seq<nat>) returns (r: nat)
      requires BooksBut({}) && p < |attached| && |budget| == |owner|
      ensures r <= |owner| && (r < |owner| ==> punishes[p] && IsPunished(r, p))
      ensures punishes[p] ==> forall c: nat :: IsPunished(c, p) ==> r < |owner| && budget[r] <= budget[c]
    {
      hide Reservations, WholePairs, Marks, HtOk, Tracks, Starving;
      r := |owner|;
      if !punishes[p] {
        return;
      }
      for i := 0 to |mech.coreTbl|
        invariant r <= |owner| && (r < |owner| ==> IsPunished(r, p))
        invariant forall j :: 0 <= j < i && IsPunished(mech.coreTbl[j], p) ==>
                  r < |owner| && budget[r] <= budget[mech.coreTbl[j]]
      {
        var c := mech.coreTbl[i];
        assert c in mech.coreTbl;
        if IsPunished(c, p) && (r == |owner| || budget[c] < budget[r]) {
          r := c;
        }
      }
    }

    predicate IsPunished(c: nat, p: nat)
      reads this`owner, this`punished
    {
      c in mech.coreTbl && c < |owner| && owner[c] == Some(p) && c in punished
    }

    /** A punished core is let go: the counters and the bitmap move together. */
    method Unpunish(core: nat)
      requires HtOk() && core in punished
      modifies this`punished, this`relaxCount
      ensures HtOk() && punished == old(punished) - {core} && relaxCount == old(relaxCount) + 1
    {
      relaxCount := relaxCount + 1;
      punished := punished - {core};
    }

    /** ias_ht_relinquish_core; budget[c] is what the sibling of core c has used. */
    method Relinquish(p: nat, budget: seq<nat>, txBusy: set<Tid>) returns (r: nat)
      requires Valid() && p < |attached| && |budget| == |owner|
      modifies this`punished, this`relaxCount, this`owner, this`active, this`idleBits,
               mech`active, mech`coreOf, mech`atIdx, mech`tsIdx, mech`actives, mech`idles, mech`flows, mech`refs,
               mech`released, mech`ts, mech`cores, mech`kern, mech`slot
      ensures Valid() && r <= |owner| == old(|owner|) && (r < |owner| ==> r in mech.coreTbl && old(owner[r]) == Some(p))
      ensures r < |owner| ==> owner == old(owner)[r := None] && r in old(punished) && punished == old(punished) - {r}
      ensures r < |owner| ==> idleBits == old(idleBits) + {r}
      ensures r == |owner| ==> owner == old(owner) && punished == old(punished) && idleBits == old(idleBits)
    {
      hide Limited, Fixed, Held, Dataplane.Valid, ResvOk, Owners, Marks, Tracks, Starving;
      r := ChoosePunished(p, budget);
      if r != |owner| {
        Unpunish(r);
        var ret := IdleOnCore(r, txBusy, {});
      }
    }

    /** The core that ias_add_kthread settles on: one the proc may take, or a punished one of its own. */
    method FindCore(p: nat, score: seq<nat>, budget: seq<nat>, txBusy: set<Tid>) returns (r: nat)
      requires Valid() && p < |attached| && |score| == |budget| == |owner|
      modifies this`punished, this`relaxCount, this`owner, this`active, this`idleBits,
               mech`active, mech`coreOf, mech`atIdx, mech`tsIdx, mech`actives, mech`idles, mech`flows, mech`refs,
               mech`released, mech`ts, mech`cores, mech`kern, mech`slot
      ensures Valid() && r <= |owner| == old(|owner|)
      ensures r < |owner| ==>
                r in mech.coreTbl && (owner[r].Some? ==> owner[r].t < |reserved| && r !in reserved[owner[r].t])
      ensures forall c :: 0 <= c < |owner| ==> owner[c] == old(owner[c]) || old(owner[c]) == Some(p)
      ensures old(PunishedOk()) ==> PunishedOk() && r !in punished
    {
      hide Limited, Fixed, Held, Dataplane.Valid, Owners, Marks, HtOk, Tracks, Starving, Reservations;
      r := |owner|;
      if active[p] < limit[p] {
        r := ChooseCore(p, score);
      }
      if r == |owner| && !mech.noht {
        r := Relinquish(p, budget, txBusy);
      }
    }

    /** ias_add_kthread: nobody loses a core it has reserved. */
    method AddKthread(p: nat, score: seq<nat>, budget: seq<nat>, txBusy: set<Tid>) returns (ret: Ret)
      requires Valid() && p < |attached| && attached[p] && |score| == |budget| == |owner|
      modifies this`punished, this`relaxCount, this`owner, this`active, this`idleBits, this`isStarved, this`starved,
               mech`active, mech`coreOf, mech`atIdx, mech`tsIdx, mech`actives, mech`idles, mech`flows, mech`refs,
               mech`released, mech`ts, mech`cores, mech`kern, mech`slot
      ensures Valid() && |owner| == old(|owner|) && ret != Invalid
      ensures forall c, q ::
                0 <= c < |owner| && 0 <= q < |reserved| && old(owner[c]) == Some(q) && q != p && c in reserved[q] ==>
                  owner[c] == Some(q)
      ensures ret == Done ==> exists c :: 0 <= c < |owner| && owner[c] == Some(p)
      ensures old(PunishedOk()) ==> PunishedOk()
    {
      hide BooksBut, Dataplane.Valid;
      var core := FindCore(p, score, budget, txBusy);
      if core == |owner| {
        return NoCore;
      }
      ghost var none: set<nat> := {};
      assert none - {core} == none;
      ret := RunKthreadOnCore(p, core, txBusy, none);
      assert ret == Done ==> owner[core] == Some(p);
    }

    // ---------------------------------------------------------------- notifications

    /** ias_notify_core_needed: the proc gets a core or is congested. */
    method NotifyCoreNeeded(p: nat, score: seq<nat>, budget: seq<nat>, txBusy: set<Tid>)
      requires Valid() && p < |attached| && attached[p] && |score| == |budget| == |owner|
      modifies this`punished, this`relaxCount, this`owner, this`active, this`idleBits, this`isStarved, this`starved,
               this`isCongested, this`congested, mech`active, mech`coreOf, mech`atIdx, mech`tsIdx, mech`actives,
               mech`idles, mech`flows, mech`refs, mech`released, mech`ts, mech`cores, mech`kern, mech`slot
      ensures Valid() && |owner| == old(|owner|) && p < |isCongested|
      ensures isCongested[p] || exists c :: 0 <= c < |owner| && owner[c] == Some(p)
      ensures old(PunishedOk()) ==> PunishedOk()
    {
      if starved == [] {
        var ret := AddKthread(p, score, budget, txBusy);
        if ret == Done {
          return;
        }
      }
      MarkCongestedOnly(p);
    }

    method MarkCongestedOnly(p: nat)
      requires BooksBut({}) && p < |attached| && attached[p]
      modifies this`isStarved, this`starved, this`isCongested, this`congested
      ensures BooksBut({}) && p < |isCongested| && isCongested[p]
    {
      hide Limited, Fixed, Held, ResvOk, Owners, HtOk, Tracks;
      MarkCongested(p);
    }

    /** ias_notify_congested; the result says that the proc need not be polled until woken. */
    method NotifyCongested(p: nat, congestedNow: bool, score: seq<nat>, budget: seq<nat>,
                           txBusy: set<Tid>) returns (sleep: bool)
      requires Valid() && p < |attached| && attached[p] && |score| == |budget| == |owner|
      modifies this`punished, this`relaxCount, this`owner, this`active, this`idleBits, this`isStarved, this`starved,
               this`isCongested, this`congested, mech`active, mech`coreOf, mech`atIdx, mech`tsIdx, mech`actives,
               mech`idles, mech`flows, mech`refs, mech`released, mech`ts, mech`cores, mech`kern, mech`slot
      ensures Valid() && |owner| == old(|owner|) && p < |isStarved| == |isCongested|
      ensures sleep ==> isStarved[p]
      ensures !congestedNow ==> !isCongested[p] && owner == old(owner)
      ensures congestedNow ==> isCongested[p] || exists c :: 0 <= c < |owner| && owner[c] == Some(p)
      ensures old(PunishedOk()) ==> PunishedOk()
    {
      if !congestedNow {
        UnmarkCongestedOnly(p, {});
        return false;
      }
      if isCongested[p] {
        return isStarved[p];
      }
      NotifyCoreNeeded(p, score, budget, txBusy);
      return isCongested[p] && isStarved[p];
    }

    method UnmarkCongestedOnly(p: nat, ghost skip: set<nat>)
      requires BooksBut(skip) && p < |attached|
      modifies this`isStarved, this`starved, this`isCongested, this`congested
      ensures BooksBut(skip) && p < |isCongested| && isCongested == old(isCongested)[p := false]
    {
      hide Limited, Fixed, Held, ResvOk, Owners, HtOk, Tracks;
      UnmarkCongested(p);
    }

    // ---------------------------------------------------------------- a proc for a core

    /** ias_choose_kthread: the longest starved proc, else the congested one below its limit with the best score. */
    method ChooseKthread(core: nat) returns (r: Opt)
      requires Config() && ResvOk() && OwnersOk() && ListsOk() && StarvedOk() && |limit| == |attached|
      ensures r.Some? ==> r.t < |attached| && attached[r.t] && isCongested[r.t]
      ensures starved != [] ==> r == Some(starved[0]) && active[r.t] == 0
      ensures starved == [] && r.Some? ==> Wants(r.t)
      ensures starved == [] ==> forall p :: 0 <= p < |attached| && Wants(p) ==>
                r.Some? && KthreadScore(p, core, |owner|, reserved, isLc, active, guaranteed)
                           <= KthreadScore(r.t, core, |owner|, reserved, isLc, active, guaranteed)
    {
      hide Limited, Fixed, Held, Reservations, WholePairs, Owners;
      if starved != [] {
        assert starved[0] in starved;
        assert active[starved[0]] == 0;
        return Some(starved[0]);
      }
      r := None;
      var best: int := -1;
      for i := 0 to |congested|
        invariant r == None <==> best == -1
        invariant r.Some? ==>
                    && r.t in congested && Wants(r.t)
                    && best == KthreadScore(r.t, core, |owner|, reserved, isLc, active, guaranteed)
        invariant forall j :: 0 <= j < i && Wants(congested[j]) ==>
                    r.Some? && KthreadScore(congested[j], core, |owner|, reserved, isLc, active, guaranteed) <= best
      {
        var p := congested[i];
        assert p in congested;
        if Wants(p) {
          ActiveFits(owner, attached, active, mech.coreTbl, p);
          var score := KthreadScore(p, core, |owner|, reserved, isLc, active, guaranteed);
          if score > best {
            r, best := Some(p), score;
          }
        }
      }
      forall p | 0 <= p < |attached| && Wants(p) ensures p in congested { }
    }

    predicate Wants(p: nat)
      reads this`isCongested, this`active, this`limit
    {
      p < |isCongested| && p < |active| && p < |limit| && isCongested[p] && active[p] < limit[p]
    }

    /** ias_add_kthread_on_core */
    method AddKthreadOnCore(core: nat, txBusy: set<Tid>, ghost skip: set<nat>) returns (ret: Ret)
      requires ValidBut(skip)
      modifies this`owner, this`active, this`idleBits, this`isStarved, this`starved,
               mech`active, mech`coreOf, mech`atIdx, mech`tsIdx, mech`actives, mech`idles, mech`flows, mech`refs,
               mech`released, mech`ts, mech`cores, mech`kern, mech`slot
      ensures ValidBut(if ret == Done then skip - {core} else skip)
      ensures ret == Done ==>
                core < |owner| == old(|owner|) && owner[core].Some? && owner == old(owner)[core := owner[core]]
      ensures idleBits == if ret == Done then old(idleBits) - {core} else old(idleBits)
      ensures ret != Done ==> owner == old(owner)
    {
      hide Limited, Fixed, Held, ResvOk, Owners, Tracks, Dataplane.Valid, HtOk;
      var sd := ChooseKthread(core);
      if sd == None {
        return NoCore;
      }
      ret := RunKthreadOnCore(sd.t, core, txBusy, skip);
    }

    // ---------------------------------------------------------------- the hyperthread controller

    ghost predicate HasRoom(p: nat, ignoreHot: bool, hot: set<nat>)
      reads this`owner, this`reserved, this`isLc, this`active, this`guaranteed
      requires p < |isLc| == |active| == |guaranteed| == |reserved|
    {
      exists c :: c in mech.coreTbl && CanPreempt(p, c) && !(ignoreHot && c in hot)
    }

    /** The sibling may be idled: its user has somewhere else to go, or is not latency-critical. */
    ghost predicate MayIdleSibling(p: nat, core: nat, hot: set<nat>)
      reads this`owner, this`reserved, this`isLc, this`active, this`guaranteed
    {
      && p < |isLc| == |active| == |guaranteed| == |reserved|
      && var o := SiblingOwner(core);
         if o == Some(p) then core !in hot && HasRoom(p, true, hot)
         else o.Some? && o.t < |isLc| && isLc[o.t] ==> HasRoom(p, false, hot)
    }

    /** The tests of ias_ht_punish. */
    method MayPunish(p: nat, core: nat, hot: set<nat>) returns (yes: bool)
      requires BooksBut({}) && p < |attached| && core < |owner| && !mech.noht
      ensures yes ==> p < |reserved| && core in reserved[p] && core < |mech.siblings|
      ensures yes <==> p < |reserved| && core in reserved[p] && core < |mech.siblings| && core !in punished
                       && mech.siblings[core] !in punished && MayIdleSibling(p, core, hot)
    {
      hide Limited, Held, Reservations, WholePairs, Owners, Marks, HtOk, Tracks, Starving;
      assert Pair(mech.siblings, core);
      var sib := mech.siblings[core];
      if core !in reserved[p] || core in punished || sib in punished {
        return false;
      }
      if owner[sib] == Some(p) {
        if core in hot {
          return false;
        }
        yes := CanAddKthread(p, true, hot);
        return;
      }
      if owner[sib].Some? && owner[sib].t < |isLc| && isLc[owner[sib].t] {
        yes := CanAddKthread(p, false, hot);
        return;
      }
      return true;
    }

    /** The sibling of a core the proc has reserved and is running on is idled in its name. */
    method PunishSibling(p: nat, core: nat, txBusy: set<Tid>) returns (ret: Ret)
      requires Valid() && p < |attached| && core < |owner| && !mech.noht && owner[core] == Some(p)
      requires p < |reserved| && core in reserved[p] && core < |mech.siblings| && mech.siblings[core] !in punished
      requires p < |isLc| && isLc[p]
      modifies this`punished, this`punishCount, this`owner, this`active, this`idleBits,
               mech`active, mech`coreOf, mech`atIdx, mech`tsIdx, mech`actives, mech`idles, mech`flows, mech`refs,
               mech`released, mech`ts, mech`cores, mech`kern, mech`slot
      ensures Valid() && |owner| == old(|owner|) && mech.siblings[core] < |owner|
      ensures ret == Done && owner == old(owner)[mech.siblings[core] := Some(p)]
      ensures mech.siblings[core] in reserved[p]
      ensures punished == old(punished) + {mech.siblings[core]} && idleBits == old(idleBits) + {mech.siblings[core]}
      ensures old(PunishedOk()) ==> PunishedOk()
    {
      hide Limited, Dataplane.Valid, Held, Owners, Marks, Tracks, Starving, HtOk, Reservations, WholePairs, Punishing;
      SiblingReserved(resv, reserved, all, mech.coreTbl, mech.siblings, p, core);
      PlaceholderOwner(owner, attached, active, mech.coreTbl, core);
      var sib := mech.siblings[core];
      ret := IdlePlaceholderOnCore(p, sib, txBusy, {});
      Punish(sib);
      if old(PunishedOk()) {
        PunishOneMore(old(owner), reserved, isLc, old(idleBits), old(punished), sib, p);
      }
    }

    method Punish(core: nat)
      requires HtOk() && core !in punished
      modifies this`punished, this`punishCount
      ensures HtOk() && punished == old(punished) + {core} && punishCount == old(punishCount) + 1
    {
      punishCount := punishCount + 1;
      punished := punished + {core};
    }

    ghost function OwnerAt(c: nat): Opt
      reads this`owner
    {
      if c < |owner| then owner[c] else None
    }

    ghost function SiblingOwner(core: nat): Opt
      reads this`owner
    {
      if core < |mech.siblings| then OwnerAt(mech.siblings[core]) else None
    }

    /** ias_ht_punish; a latency-critical proc that lost the sibling tries for another core. */
    method HtPunish(p: nat, core: nat, hot: set<nat>, score: seq<nat>, budget: seq<nat>, txBusy: set<Tid>)
      requires Valid() && p < |attached| && core < |owner| && !mech.noht && owner[core] == Some(p)
      requires p < |isLc| && isLc[p] && |score| == |budget| == |owner|
      modifies this`punished, this`punishCount, this`relaxCount, this`owner, this`active, this`idleBits, this`isStarved,
               this`starved, mech`active, mech`coreOf, mech`atIdx, mech`tsIdx, mech`actives, mech`idles, mech`flows,
               mech`refs, mech`released, mech`ts, mech`cores, mech`kern, mech`slot
      ensures Valid() && |owner| == old(|owner|)
      // no proc but the one punished loses a core it has reserved
      ensures forall c, q | 0 <= c < |owner| && 0 <= q < |reserved| && q != p && Some(q) != old(SiblingOwner(core)) ::
                old(owner[c]) == Some(q) && c in reserved[q] ==> owner[c] == Some(q)
      ensures old(PunishedOk()) ==> PunishedOk()
    {
      hide BooksBut;
      var yes := MayPunish(p, core, hot);
      if yes {
        SiblingInRange(core);
        var loser := owner[mech.siblings[core]];
        var ret := PunishSibling(p, core, txBusy);
        var lc := LcProc(loser);
        if lc {
          ret := AddKthread(loser.t, score, budget, txBusy);
        }
      }
    }

    lemma SiblingInRange(core: nat)
      requires BooksBut({}) && core < |owner| && !mech.noht
      ensures mech.siblings[core] < |owner|
    {
      assert Pair(mech.siblings, core);
    }

    method LcProc(o: Opt) returns (lc: bool)
      requires BooksBut({})
      ensures lc ==> o.Some? && o.t < |attached| && attached[o.t]
    {
      return o.Some? && o.t < |attached| && attached[o.t] && isLc[o.t];
    }

    /** ias_ht_relax */
    method HtRelax(core: nat, txBusy: set<Tid>)
      requires Valid() && core < |mech.siblings|
      modifies this`punished, this`punishCount, this`relaxCount, this`owner, this`active, this`idleBits, this`isStarved,
               this`starved, mech`active, mech`coreOf, mech`atIdx, mech`tsIdx, mech`actives, mech`idles, mech`flows,
               mech`refs, mech`released, mech`ts, mech`cores, mech`kern, mech`slot
      ensures Valid() && |owner| == old(|owner|) && mech.siblings[core] !in punished
      ensures old(PunishedOk()) ==> PunishedOk()
    {
      hide Limited, Fixed, Held, Dataplane.Valid, ResvOk, Owners, Marks, Tracks, Starving, HtOk;
      var sib := mech.siblings[core];
      if sib in punished {
        Unpunish(sib);
        var ret := IdleOnCore(sib, txBusy, {});
      }
    }

    /**
     The second loop of ias_ht_poll, for any order of the cores and any set of them over budget; rds[i] is
     what its i-th round reads.
     */
    method HtPoll(order: seq<nat>, over: set<nat>, hot: set<nat>, rds: seq<Readings>, txBusy: set<Tid>)
      requires Valid() && !mech.noht && |rds| == |order| && AllSized(rds, |owner|)
      requires forall c :: c in order ==> c in mech.coreTbl
      modifies this`punished, this`punishCount, this`relaxCount, this`owner, this`active, this`idleBits, this`isStarved,
               this`starved, mech`active, mech`coreOf, mech`atIdx, mech`tsIdx, mech`actives, mech`idles, mech`flows,
               mech`refs, mech`released, mech`ts, mech`cores, mech`kern, mech`slot
      ensures Valid() && |owner| == old(|owner|)
      ensures old(PunishedOk()) ==> PunishedOk()
    {
      hide BooksBut, Dataplane.Valid, Punishing;
      for i := 0 to |order|
        invariant Valid() && |owner| == old(|owner|) && (old(PunishedOk()) ==> PunishedOk())
      {
        var core := order[i];
        InTable(core);
        if owner[core].Some? && punishes[owner[core].t] && core in over {
          HtPunish(owner[core].t, core, hot, rds[i].score, rds[i].budget, txBusy);
        } else {
          HtRelax(core, txBusy);
        }
      }
    }

    lemma InTable(core: nat)
      requires BooksBut({}) && core in mech.coreTbl
      ensures core < |owner| == |mech.siblings| && (owner[core].Some? ==> owner[core].t < |punishes| == |attached|)
      ensures owner[core].Some? && punishes[owner[core].t] ==> owner[core].t < |isLc| && isLc[owner[core].t]
    {
    }

    // ---------------------------------------------------------------- the policy's poll

    /** The owner of the core gets a lower limit, and the core goes to another proc or idles. */
    method BwPunish(core: nat, txBusy: set<Tid>)
      requires Valid() && core in mech.coreTbl && core < |owner| && owner[core].Some?
      requires owner[core].t < |limit| && limit[owner[core].t] > 0
      requires owner[core].t < |isLc| && !isLc[owner[core].t]
      modifies this`limit, this`bwLimited, this`owner, this`active, this`idleBits, this`isStarved, this`starved,
               mech`active, mech`coreOf, mech`atIdx, mech`tsIdx, mech`actives, mech`idles, mech`flows, mech`refs,
               mech`released, mech`ts, mech`cores, mech`kern, mech`slot
      ensures Valid() && |owner| == old(|owner|)
      ensures old(owner[core].t) < |old(active)| && bwLimited == old(bwLimited)[old(owner[core].t) := true]
      ensures limit == old(limit[owner[core].t := ThrottledLimit(limit[owner[core].t], active[owner[core].t])])
      // a best-effort proc owns no punished core
      ensures old(PunishedOk()) ==> PunishedOk()
    {
      hide BooksBut, Dataplane.Valid;
      OwnerInRange(core);
      Throttle(owner[core].t);
      ghost var none: set<nat> := {};
      assert none - {core} == none;
      var ret := AddKthreadOnCore(core, txBusy, none);
      if ret != Done {
        ret := IdleOnCore(core, txBusy, none);
      }
    }

    method Throttle(p: nat)
      requires BooksBut({}) && p < |limit| && limit[p] > 0
      modifies this`limit, this`bwLimited
      ensures BooksBut({}) && p < |active| && limit == old(limit)[p := ThrottledLimit(old(limit[p]), active[p])]
      ensures bwLimited == old(bwLimited)[p := true]
    {
      hide Fixed, Held, ResvOk, Owners, Marks, Tracks, Starving, HtOk, IdleOk;
      bwLimited := bwLimited[p := true];
      limit := limit[p := ThrottledLimit(limit[p], active[p])];
    }

    /** ias_bw_relax: the throttled and congested proc with the highest limit may have one more core. */
    method BwRelax() returns (best: Opt)
      requires BooksBut({})
      modifies this`limit, this`bwLimited
      ensures BooksBut({})
      ensures best == None ==> limit == old(limit) && forall p: nat :: !old(Throttled(p))
      ensures |limit| == |old(limit)|
      ensures best.Some? ==> old(Throttled(best.t)) && limit == old(limit)[best.t := old(limit[best.t]) + 1]
      ensures best.Some? ==> forall p: nat :: old(Throttled(p)) ==> old(limit[p]) <= old(limit[best.t])
    {
      hide Limited, Fixed, Held, ResvOk, Owners, Marks, Tracks, Starving, HtOk, IdleOk;
      best := None;
      for p := 0 to |limit|
        invariant best == None ==> forall q :: 0 <= q < p ==> !Throttled(q)
        invariant best.Some? ==> Throttled(best.t)
        invariant best.Some? ==> forall q :: 0 <= q < p && Throttled(q) ==> limit[q] <= limit[best.t]
        invariant limit == old(limit) && bwLimited == old(bwLimited) && BooksBut({})
      {
        if Throttled(p) && (best == None || limit[p] > limit[best.t]) {
          best := Some(p);
        }
      }
      if best.Some? {
        RaiseLimit(best.t);
      }
    }

    method RaiseLimit(p: nat)
      requires BwOk() && p < |limit| && bwLimited[p]
      modifies this`limit, this`bwLimited
      ensures BwOk() && limit == old(limit)[p := old(limit[p]) + 1]
    {
      limit := limit[p := limit[p] + 1];
      if limit[p] >= maxCores[p] {
        bwLimited := bwLimited[p := false];
      }
    }

    predicate Throttled(p: nat)
      reads this`limit, this`bwLimited, this`isCongested
    {
      p < |limit| && p < |bwLimited| && p < |isCongested| && bwLimited[p] && isCongested[p]
    }

    /**
     ias_bw_poll, for any bandwidth measured: nothing, a core of a proc above its guarantee is
     throttled, or one proc relaxed.
     */
    method BwPoll(act: BwAct, txBusy: set<Tid>)
      requires Valid()
      modifies this`limit, this`bwLimited, this`owner, this`active, this`idleBits, this`isStarved, this`starved,
               mech`active, mech`coreOf, mech`atIdx, mech`tsIdx, mech`actives, mech`idles, mech`flows, mech`refs,
               mech`released, mech`ts, mech`cores, mech`kern, mech`slot
      ensures Valid() && |owner| == old(|owner|)
      ensures act.Rest? || (act.Victim? && !old(MayThrottle(act.core))) ==> limit == old(limit) && owner == old(owner)
      ensures act.Victim? && old(MayThrottle(act.core)) ==>
                limit == old(limit[owner[act.core].t :=
                                     ThrottledLimit(limit[owner[act.core].t], active[owner[act.core].t])])
      ensures act.Relax? ==> owner == old(owner) && forall p :: 0 <= p < |limit| ==> limit[p] >= old(limit)[p]
      ensures |limit| == |old(limit)|
      ensures old(PunishedOk()) ==> PunishedOk()
    {
      hide BooksBut, Dataplane.Valid;
      match act {
        case Rest =>
        case Relax =>
          var best := BwRelax();
        case Victim(core) =>
          var ok := Eligible(core);
          if ok {
            BwPunish(core, txBusy);
          }
      }
    }

    /** The core's owner is best-effort and allowed more than its guarantee. */
    ghost predicate MayThrottle(core: nat)
      reads this`owner, this`limit, this`isLc, this`guaranteed, this`active
    {
      && core in mech.coreTbl && core < |owner| && owner[core].Some?
      && owner[core].t < |limit| == |isLc| == |guaranteed| == |active| && !isLc[owner[core].t]
      && limit[owner[core].t] > 0 && limit[owner[core].t] > guaranteed[owner[core].t]
    }

    /**
     The tests of ias_bw_choose_victim on the core's owner.  A latency-critical proc is never chosen, since
     none of its cores has a sample that counts: the module BwSamples proves that.
     */
    method Eligible(core: nat) returns (ok: bool)
      requires BooksBut({})
      ensures ok <==> MayThrottle(core)
    {
      hide Limited, Held, Marks, Tracks, Starving, HtOk, IdleOk;
      if core !in mech.coreTbl || owner[core] == None {
        return false;
      }
      var p := owner[core].t;
      return !isLc[p] && limit[p] != 0 && limit[p] > guaranteed[p];
    }

    /** An idle core that is not punished is taken from its owner, and given to a starved or congested proc. */
    method ReuseCore(core: nat, txBusy: set<Tid>)
      requires Valid() && core in idleBits && core < |owner|
      modifies this`owner, this`active, this`idleBits, this`isStarved, this`starved, this`isCongested, this`congested,
               mech`active, mech`coreOf, mech`atIdx, mech`tsIdx, mech`actives, mech`idles, mech`flows, mech`refs,
               mech`released, mech`ts, mech`cores, mech`kern, mech`slot
      ensures Valid() && |owner| == old(|owner|)
      ensures forall c :: 0 <= c < |owner| && c != core ==> owner[c] == old(owner[c])
      ensures old(PunishedOk()) && core !in punished ==> PunishedOk()
    {
      hide BooksBut, Dataplane.Valid;
      var cur := owner[core];
      if cur.Some? {
        OwnerInRange(core);
        UnmarkCongestedOnly(cur.t, {});
      }
      Disown(core);
      ghost var none: set<nat> := {};
      assert none - {core} == none;
      var ret := AddKthreadOnCore(core, txBusy, none);
    }

    lemma OwnerInRange(core: nat)
      requires BooksBut({}) && core < |owner| && owner[core].Some?
      ensures owner[core].t < |attached|
    {
    }

    /** ias_cleanup_core on a core marked idle. */
    method Disown(core: nat)
      requires BooksBut({}) && core in idleBits && core < |owner|
      modifies this`owner, this`active, this`idleBits
      ensures BooksBut({}) && owner == old(owner)[core := None] && idleBits == old(idleBits)
    {
      hide Limited, Fixed, Held, ResvOk, Owners, Marks, HtOk, Tracks, Starving;
      IdleView(owner, Views(mech.cores), mech.procOf, idleBits, {}, core);
      IdleTracks(owner, Views(mech.cores), mech.procOf, idleBits, {}, core, None);
      ReassignStarving(isStarved, isCongested, isLc, active, owner, attached, mech.coreTbl, core, None);
      SetOwner(core, None, true);
      assert idleBits == old(idleBits);
    }

    /** The cores reported idle are marked; their owners keep them for now. */
    method MarkIdle(idle: set<nat>)
      requires ValidBut(idle)
      requires forall c :: c in idle ==> c in mech.coreTbl && c < |mech.cores| && Views(mech.cores)[c] == None
      modifies this`idleBits
      ensures Valid() && idleBits == old(idleBits) + idle
    {
      hide Dataplane.Valid, Fixed, Held, ResvOk, Owners, Marks, HtOk, Starving;
      assert (idleBits + idle) + {} == idleBits + idle;
      idleBits := idleBits + idle;
    }

    /** ias_sched_poll: the idle cores are given out, the two controllers run, a starved proc is fed. */
    method SchedPoll(idle: set<nat>, controllers: bool, bw: BwAct, order: seq<nat>, over: set<nat>, hot: set<nat>,
                     rds: seq<Readings>, rd: Readings, txBusy: set<Tid>)
      requires ValidBut(idle) && |rds| == |order| && AllSized(rds, |owner|) && Sized(rd, |owner|)
      requires forall c :: c in idle ==> c in mech.coreTbl && c < |mech.cores| && Views(mech.cores)[c] == None
      requires forall c :: c in order ==> c in mech.coreTbl
      modifies this`limit, this`bwLimited, this`punished, this`punishCount, this`relaxCount, this`owner, this`active,
               this`idleBits, this`isStarved, this`starved, this`isCongested, this`congested,
               mech`active, mech`coreOf, mech`atIdx, mech`tsIdx, mech`actives, mech`idles, mech`flows, mech`refs,
               mech`released, mech`ts, mech`cores, mech`kern, mech`slot
      ensures Valid() && |owner| == old(|owner|)
      ensures old(PunishedOk()) ==> PunishedOk()
    {
      hide BooksBut, Dataplane.Valid;
      MarkIdle(idle);
      for core := 0 to |owner|
        invariant Valid() && |owner| == old(|owner|) && punished == old(punished)
        invariant old(PunishedOk()) ==> PunishedOk()
      {
        if core in idleBits && core !in punished {
          ReuseCore(core, txBusy);
        }
      }
      if controllers {
        BwPoll(bw, txBusy);
        if !mech.noht {
          HtPoll(order, over, hot, rds, txBusy);
        }
        if starved != [] {
          StarvedIsAttached();
          var ret := AddKthread(starved[0], rd.score, rd.budget, txBusy);
        }
      }
    }

    /** What the assertion in ias_choose_kthread relies on. */
    lemma StarvedIsAttached()
      requires BooksBut({}) && starved != []
      ensures starved[0] < |attached| == |active| && attached[starved[0]] && active[starved[0]] == 0
    {
      assert starved[0] in starved;
    }

    /** The slow pass of sched_poll, whatever it measures. */
    method SlowPass(notes: seq<Note>, txBusy: set<Tid>)
      requires Valid() && forall i :: 0 <= i < |notes| ==> Sized(notes[i].rd, |owner|)
      modifies this`punished, this`relaxCount, this`owner, this`active, this`idleBits, this`isStarved, this`starved,
               this`isCongested, this`congested, mech`active, mech`coreOf, mech`atIdx, mech`tsIdx, mech`actives,
               mech`idles, mech`flows, mech`refs, mech`released, mech`ts, mech`cores, mech`kern, mech`slot
      ensures Valid() && |owner| == old(|owner|)
      ensures old(PunishedOk()) ==> PunishedOk()
    {
      hide BooksBut, Dataplane.Valid, Punishing;
      for i := 0 to |notes|
        invariant Valid() && |owner| == old(|owner|) && (old(PunishedOk()) ==> PunishedOk())
      {
        var p, rd := notes[i].p, notes[i].rd;
        if p < |attached| && attached[p] {
          match notes[i] {
            case Measured(_, now, _) =>
              var sleep := NotifyCongested(p, now, rd.score, rd.budget, txBusy);
            case CoreNeeded(_, _) =>
              NotifyCoreNeeded(p, rd.score, rd.budget, txBusy);
          }
        }
      }
    }

    /** sched_poll under this policy: the slow pass, the fast pass, then the policy's. */
    method Poll(notes: seq<Note>, kernel: seq<seq<KernelStep>>, rewake: set<nat>, controllers: bool, bw: BwAct,
                order: seq<nat>, over: set<nat>, hot: set<nat>, rds: seq<Readings>, rd: Readings, txBusy: set<Tid>)
      requires Valid() && forall i :: 0 <= i < |notes| ==> Sized(notes[i].rd, |owner|)
      requires |rds| == |order| && AllSized(rds, |owner|) && Sized(rd, |owner|)
      requires forall c :: c in order ==> c in mech.coreTbl
      modifies this`limit, this`bwLimited, this`punished, this`punishCount, this`relaxCount, this`owner, this`active,
               this`idleBits, this`isStarved, this`starved, this`isCongested, this`congested,
               mech`active, mech`coreOf, mech`atIdx, mech`tsIdx, mech`actives, mech`idles, mech`flows, mech`refs,
               mech`released, mech`ts, mech`cores, mech`kern, mech`slot
      ensures Valid()
      ensures old(PunishedOk()) ==> PunishedOk()
    {
      hide Dataplane.Valid, Fixed, Held, ResvOk, Owners, Marks, HtOk, Starving;
      SlowPass(notes, txBusy);
      var idle := mech.FastPass(kernel, rewake, txBusy);
      SchedPoll(idle, controllers, bw, order, over, hot, rds, rd, txBusy);
    }
  }

  /** The cores a proc owns that are not marked idle are at most its active kthreads. */
  lemma BusyAtMostActive(pol: Ias, p: nat)
    requires pol.Valid() && p < |pol.attached|
    ensures |Owned(pol.owner, p) - pol.idleBits| <= |pol.mech.actives[p]|
  {
    var d, owned := pol.mech, Owned(pol.owner, p) - pol.idleBits;
    var views, a := Views(d.cores), d.actives[p];
    forall c | c in owned ensures RunsFor(views[c], d.procOf, p) && views[c].t in a && d.coreOf[views[c].t] == c {
      assert RunsFor(views[c], d.procOf, p);
      EffectiveIsHome(d, c, views[c].t);
    }
    forall i | 0 <= i < |a| ensures IsActive(d.procOf, d.active, d.atIdx, a[i], p, i) { }
    ElemsCard(a);
    Injection(owned, views, d.coreOf, Elems(a));
  }

  /** A punished core runs nothing, and is its reserver's. */
  lemma PunishedRunsNothing(pol: Ias, c: nat)
    requires pol.Valid() && pol.PunishedOk() && c in pol.punished
    ensures c < |pol.owner| == |pol.mech.cores| && Views(pol.mech.cores)[c] == None
    ensures pol.owner[c].Some? && pol.owner[c].t < |pol.reserved| && c in pol.reserved[pol.owner[c].t]
    ensures pol.owner[c].t < |pol.isLc| && pol.isLc[pol.owner[c].t]
  {
    assert PunishedAt(pol.owner, pol.reserved, pol.isLc, pol.idleBits, c);
  }

  /**
   A summary of Valid, which every operation keeps: reservations are disjoint and exactly as large as
   promised, the counters count, and no starved proc has a core.
   */
  lemma Accounting(pol: Ias, p: nat, q: nat)
    requires pol.Valid() && p < |pol.attached| && q < |pol.attached| && p != q
    ensures pol.reserved[p] !! pol.reserved[q] && |pol.reserved[p]| == pol.guaranteed[p]
    ensures pol.active[p] == |Owned(pol.owner, p)|
    ensures pol.isStarved[p] ==> pol.isCongested[p] && Owned(pol.owner, p) == {}
    ensures pol.punishCount - pol.relaxCount == |pol.punished|
  {
    assert pol.reserved[p] == Owned(pol.resv, p) && pol.reserved[q] == Owned(pol.resv, q);
  }

  lemma PunishOneMore(owner: seq<Opt>, reserved: seq<set<nat>>, isLc: seq<bool>, idleBits: set<nat>,
                      punished: set<nat>, sib: nat, p: nat)
    requires Punishing(owner, reserved, isLc, idleBits, punished) && sib !in punished && sib < |owner|
    requires p < |reserved| && sib in reserved[p] && p < |isLc| && isLc[p]
    ensures Punishing(owner[sib := Some(p)], reserved, isLc, idleBits + {sib}, punished + {sib})
  {
    forall c | c in punished + {sib} ensures PunishedAt(owner[sib := Some(p)], reserved, isLc, idleBits + {sib}, c) {
      assert c != sib ==> PunishedAt(owner, reserved, isLc, idleBits, c);
    }
  }

  /** One pair of cores and one proc with three kthreads. */
  method TwoCores() returns (d: Dataplane)
    ensures fresh(d) && d.Valid() && |d.base| == 1 == |d.others| == |d.idles| && d.others[0] > 0 && d.idles[0] != []
    ensures d.coreTbl == [0, 1] && d.siblings == [1, 0] && !d.noht && Block(d.procOf, d.base[0], d.count[0], 0)
  {
    assert Block([0, 0, 0], 0, 3, 0);
    d := new Dataplane([0, 0, 0], [0], [3], [false], [0, 1], [1, 0], false);
  }

  lemma TwoCoresPaired()
    ensures Paired([1, 0], [0, 1]) && NoDup<nat>([0, 1])
  {
    assert Pair([1, 0], 0) && Pair([1, 0], 1);
  }

  /** The proc attaches with both cores guaranteed, and may use three. */
  method OneProcTwoCores(lc: bool) returns (pol: Ias)
    ensures fresh(pol) && fresh(pol.mech) && pol.Valid() && |pol.attached| == 1 && pol.attached[0]
    ensures pol.mech.coreTbl == [0, 1] && pol.mech.siblings == [1, 0] && !pol.mech.noht && |pol.mech.idles| == 1
    ensures pol.owner == [None, None] && pol.punished == {} && pol.mech.idles[0] != []
    ensures |pol.reserved| == 1 && |pol.reserved[0]| == 2 && pol.isLc == [lc]
    ensures pol.limit == [3] && pol.guaranteed == [2] && pol.active == [0]
  {
    hide Ias.BooksBut, Dataplane.Valid, Paired, NoDup, Block;
    var d := TwoCores();
    TwoCoresPaired();
    pol := new Ias(d);
    pol.Enroll(0, 2, 3, lc, lc);
    OneReserved(pol);
    OwnedCount(pol, {});
  }

  lemma OneReserved(pol: Ias)
    requires pol.Valid()
    ensures |pol.reserved| == |pol.attached| == |pol.isLc| == |pol.limit| == |pol.guaranteed| == |pol.active|
    ensures forall p :: 0 <= p < |pol.attached| ==> pol.guaranteed[p] == |pol.reserved[p]|
  {
  }

  lemma OwnedCount(pol: Ias, s: set<nat>)
    requires pol.Valid() && |pol.attached| == 1 && s == Owned(pol.owner, 0)
    ensures |pol.active| == 1 && pol.active[0] == |s|
  {
  }

  lemma BothReserved(pol: Ias)
    requires pol.Valid() && |pol.mech.siblings| == 2 && |pol.reserved| == 1 && |pol.reserved[0]| == 2
    ensures 0 in pol.reserved[0]
  {
    hide Dataplane.Valid;
    var r := pol.reserved[0];
    assert r == Owned(pol.resv, 0);
    if 0 !in r {
      assert r <= {1};
      SubsetCard(r, {1});
    }
  }

  /**
   A run after which a punished core is nobody's: a proc attaches with a pair of cores, runs on one,
   has its sibling punished, and detaches.
   */
  method DetachStrandsPunished() returns (pol: Ias)
    ensures pol.Valid() && !pol.PunishedOk() && pol.punished == {1} && |pol.owner| == 2 && pol.owner[1] == None
  {
    hide Ias.BooksBut, Dataplane.Valid;
    pol := OneProcTwoCores(true);
    BothReserved(pol);
    ghost var none: set<nat> := {};
    assert none - {0} == none;
    var ret := pol.RunKthreadOnCore(0, 0, {}, none);
    ret := pol.PunishSibling(0, 0, {});
    assert pol.OwnerAt(1) == Some(0) && 1 in pol.punished;
    pol.Detach(0);
    assert !PunishedAt(pol.owner, pol.reserved, pol.isLc, pol.idleBits, 1);
  }

  /** A best-effort proc, guaranteed both cores, runs on one of them. */
  method RunsBelowGuarantee() returns (pol: Ias)
    ensures fresh(pol) && fresh(pol.mech) && pol.Valid() && |pol.attached| == 1 && pol.attached[0]
    ensures pol.mech.coreTbl == [0, 1] && pol.owner == [Some(0), None] && pol.isLc == [false]
    ensures pol.limit == [3] && pol.guaranteed == [2] && pol.active == [1]
  {
    hide Ias.BooksBut, Dataplane.Valid;
    pol := OneProcTwoCores(false);
    ghost var none: set<nat> := {};
    assert none - {0} == none;
    var ret := pol.RunKthreadOnCore(0, 0, {}, none);
    OneReserved(pol);
    OwnedCount(pol, {0});
  }

  /**
   A run after which a best-effort proc may not use its guarantee: guaranteed two cores and running on
   one, it is throttled, and its limit is zero.
   */
  method ThrottledBelowGuarantee() returns (pol: Ias)
    ensures pol.Valid() && |pol.attached| == 1 == |pol.limit| == |pol.guaranteed| && pol.attached[0]
    ensures pol.limit[0] == 0 && pol.guaranteed[0] == 2
  {
    hide Ias.BooksBut, Dataplane.Valid, Punishing;
    pol := RunsBelowGuarantee();
    pol.BwPoll(Victim(0), {});
  }

  lemma SiblingReserved(resv: seq<Opt>, reserved: seq<set<nat>>, all: set<nat>, tbl: seq<nat>, siblings: seq<nat>,
                        p: nat, core: nat)
    requires Reservations(resv, reserved, all, tbl) && WholePairs(resv, siblings) && p < |reserved|
    requires core in reserved[p]
    ensures core < |siblings| && siblings[core] in reserved[p] && siblings[core] in tbl && siblings[core] < |siblings|
  {
    assert SameAsSibling(resv, siblings, core);
  }

  lemma PlaceholderOwner(owner: seq<Opt>, attached: seq<bool>, active: seq<int>, tbl: seq<nat>, core: nat)
    requires Owners(owner, attached, active, tbl) && core < |owner| && owner[core].Some?
    ensures owner[core].t < |attached| && attached[owner[core].t] && active[owner[core].t] >= 1
  {
    OwnerIsNotStarved(owner, attached, active, tbl, core);
  }

  /** What the bandwidth controller does in a poll. */
  datatype BwAct = Rest | Relax | Victim(core: nat)

  /** The limit of a proc one of whose cores is throttled. */
  function ThrottledLimit(limit: int, active: int): (r: int)
    ensures 0 <= r && (limit > 0 ==> r < limit)
  {
    var less := if limit < active then limit - 1 else active - 1;
    if less > 0 then less else 0
  }

  /** A proc above its guarantee is throttled to no less than its guarantee exactly when it uses more than that. */
  lemma ThrottleKeepsGuarantee(limit: int, active: int, guaranteed: nat)
    requires limit > guaranteed && active >= 0
    ensures ThrottledLimit(limit, active) >= guaranteed <==> active > guaranteed || guaranteed == 0
  {
  }

  /** ias_kthread_score */
  function KthreadScore(p: nat, core: nat, ncpu: nat, reserved: seq<set<nat>>, isLc: seq<bool>, active: seq<int>,
                        guaranteed: seq<int>): int
    requires p < |reserved| == |isLc| == |active| == |guaranteed|
  {
    var burst := if active[p] - guaranteed[p] > 0 then active[p] - guaranteed[p] else 0;
    (if core in reserved[p] then ncpu * 4 else 0) + (if isLc[p] then ncpu * 2 else 0) + ncpu - burst
  }

  lemma ActiveFits(owner: seq<Opt>, attached: seq<bool>, active: seq<int>, tbl: seq<nat>, p: nat)
    requires Owners(owner, attached, active, tbl) && p < |active|
    ensures 0 <= active[p] <= |owner|
  {
    CardBelow(Owned(owner, p), |owner|);
  }

  lemma {:induction false} CardBelow(s: set<nat>, n: nat)
    requires forall c :: c in s ==> c < n
    ensures |s| <= n
  {
    if n > 0 {
      CardBelow(s - {n - 1}, n - 1);
    } else {
      assert s == {};
    }
  }

  /** The score orders procs by reservation, then latency-criticality, then the fewest burst cores. */
  lemma ScoreOrder(p: nat, q: nat, core: nat, ncpu: nat, reserved: seq<set<nat>>, isLc: seq<bool>, active: seq<int>,
                   guaranteed: seq<int>)
    requires p < |reserved| == |isLc| == |active| == |guaranteed| && q < |reserved| && ncpu > 0
    requires 0 <= active[p] <= ncpu && 0 <= active[q] <= ncpu && guaranteed[p] >= 0 && guaranteed[q] >= 0
    ensures var better := KthreadScore(p, core, ncpu, reserved, isLc, active, guaranteed)
                          > KthreadScore(q, core, ncpu, reserved, isLc, active, guaranteed);
            && (core in reserved[p] && core !in reserved[q] ==> better)
            && ((core in reserved[p] <==> core in reserved[q]) && isLc[p] && !isLc[q] ==> better)
  {
  }

  /** The conditions under which p may take a core from the proc cur that has it. */
  predicate MayTake(p: nat, cur: Opt, core: nat, reserved: seq<set<nat>>, isLc: seq<bool>, active: seq<int>,
                    guaranteed: seq<int>)
    requires p < |isLc| == |active| == |guaranteed| == |reserved|
  {
    cur == None || (cur.t < |isLc| && cur.t != p && core !in reserved[cur.t]
                    && !(isLc[cur.t] && !isLc[p])
                    && !(isLc[cur.t] == isLc[p] && active[cur.t] - guaranteed[cur.t] <= active[p] - guaranteed[p] + 1))
  }

  /** No preemption can be reversed right away: the victim may not take the core back. */
  lemma NoPreemptingBack(p: nat, q: nat, core: nat, reserved: seq<set<nat>>, isLc: seq<bool>, active: seq<int>,
                         guaranteed: seq<int>)
    requires p < |isLc| == |active| == |guaranteed| == |reserved| && q < |isLc|
    requires MayTake(p, Some(q), core, reserved, isLc, active, guaranteed)
    ensures !MayTake(q, Some(p), core, reserved, isLc, Bump(Bump(active, Some(q), -1), Some(p), 1), guaranteed)
  {
  }

  lemma IdleView(owner: seq<Opt>, views: seq<Opt>, procOf: seq<nat>, idleBits: set<nat>, skip: set<nat>, core: nat)
    requires Tracks(owner, views, procOf, idleBits, skip) && core in idleBits
    ensures core < |owner| == |views| && views[core := None] == views
  {
  }

  lemma ViewSizes(d: Dataplane)
    requires d.Valid()
    ensures |d.cores| == |d.siblings|
  {
  }

  lemma OwnerSizes(owner: seq<Opt>, attached: seq<bool>, active: seq<int>, tbl: seq<nat>)
    requires Owners(owner, attached, active, tbl)
    ensures |active| == |attached|
  {
  }

  lemma ReservedIsMarked(resv: seq<Opt>, reserved: seq<set<nat>>, all: set<nat>, tbl: seq<nat>, p: nat)
    requires Reservations(resv, reserved, all, tbl) && p < |reserved|
    ensures reserved[p] <= all
  {
  }

  lemma DetachOwners(owner: seq<Opt>, attached: seq<bool>, active: seq<int>, tbl: seq<nat>, p: nat)
    requires Owners(owner, attached, active, tbl) && p < |attached|
    ensures Owners(Cleared(owner, p), attached[p := false], active[p := 0], tbl)
  {
    forall q | 0 <= q < |active| ensures active[p := 0][q] == |Owned(Cleared(owner, p), q)| {
      assert Owned(Cleared(owner, p), q) == if q == p then {} else Owned(owner, q);
    }
  }

  lemma EnrollStarving(isStarved: seq<bool>, isCongested: seq<bool>, isLc: seq<bool>, active: seq<int>, p: nat,
                       lc: bool)
    requires Starving(isStarved, isCongested, isLc, active) && p < |isLc| && !isCongested[p]
    ensures Starving(isStarved, isCongested, isLc[p := lc], active)
  {
  }

  lemma AttachKeepsOwners(owner: seq<Opt>, attached: seq<bool>, active: seq<int>, tbl: seq<nat>, p: nat)
    requires Owners(owner, attached, active, tbl) && p < |attached|
    ensures Owners(owner, attached[p := true], active, tbl)
  {
  }

  lemma FlagAdded(list: seq<nat>, flag: seq<bool>, p: nat, front: bool)
    requires Flagged(list, flag) && p < |flag| && !flag[p]
    ensures Flagged(if front then [p] + list else list + [p], flag[p := true])
  {
  }
}
