/**
 The samples of the bandwidth controller: per core a generation that every change of owner
 advances, and two samples that count only while they carry the current generation.  In every
 run a sample that counts is one of a best-effort proc, so that the victim chosen from them
 is never latency-critical.
 */
module BwSamples {
  import opened Seqs

  /** is_lc of each proc, and for each core its owner, ias_gen, and the generations of the two samples. */
  datatype State = State(lc: seq<bool>, owner: seq<Opt>, gen: seq<int>, start: seq<int>, end: seq<int>)

  predicate Sized(s: State) {
    && |s.owner| == |s.gen| == |s.start| == |s.end|
    && forall c :: 0 <= c < |s.owner| && s.owner[c].Some? ==> s.owner[c].t < |s.lc|
  }

  datatype Step =
    | Own(c: nat, o: Opt)                  // a kthread, a placeholder or nothing is put on the core
    | Disown(c: nat)                       // ias_cleanup_core, ias_detach: no new generation
    | Attach(p: nat, lc: bool)
    | RequestStart(punished: set<nat>)
    | RequestEnd(punished: set<nat>)
    | GatherStart(failed: set<nat>)
    | GatherEnd(failed: set<nat>)
    | Throttle(c: nat, o: Opt, spoilt: int, punished: set<nat>)
    | Swap(punished: set<nat>)             // no victim was found

  predicate BestEffort(s: State, c: nat)
    requires Sized(s)
  {
    c < |s.owner| && s.owner[c].Some? && !s.lc[s.owner[c].t]
  }

  /**
   ias_bw_request_pmc: cores that are unowned, punished or owned by a latency-critical proc get an old
   generation.
   */
  function Requested(s: State, punished: set<nat>): (r: seq<int>)
    requires Sized(s)
    ensures |r| == |s.gen|
    ensures forall c :: 0 <= c < |r| ==> r[c] <= s.gen[c] && (r[c] == s.gen[c] ==> BestEffort(s, c))
  {
    seq(|s.gen|, c requires 0 <= c < |s.gen| =>
      if BestEffort(s, c) && c !in punished then s.gen[c] else s.gen[c] - 1)
  }

  /** ias_bw_gather_pmc: a sample that failed gets an old generation. */
  function Gathered(s: State, sample: seq<int>, failed: set<nat>): (r: seq<int>)
    requires |sample| == |s.gen|
    ensures |r| == |sample|
    ensures forall c :: 0 <= c < |r| ==> r[c] == sample[c] || r[c] == s.gen[c] - 1
  {
    seq(|sample|, c requires 0 <= c < |sample| =>
      if sample[c] == s.gen[c] && c in failed then s.gen[c] - 1 else sample[c])
  }

  function Owned(s: State, c: nat, o: Opt): State
    requires Sized(s) && c < |s.owner|
  {
    s.(owner := s.owner[c := o], gen := s.gen[c := s.gen[c] + 1])
  }

  predicate Enabled(s: State, step: Step)
    requires Sized(s)
  {
    match step
    case Own(c, o) => c < |s.owner| && (o.Some? ==> o.t < |s.lc|)
    case Disown(c) => c < |s.owner|
    case Attach(p, _) => p < |s.lc| && Some(p) !in s.owner
    case Throttle(c, o, _, _) => c < |s.owner| && (o.Some? ==> o.t < |s.lc|)
    case _ => true
  }

  function Do(s: State, step: Step): State
    requires Sized(s) && Enabled(s, step)
  {
    match step
    case Own(c, o) => Owned(s, c, o)
    case Disown(c) => s.(owner := s.owner[c := None])
    case Attach(p, lc) => s.(lc := s.lc[p := lc])
    case RequestStart(punished) => s.(start := Requested(s, punished))
    case RequestEnd(punished) => s.(end := Requested(s, punished))
    case GatherStart(failed) => s.(start := Gathered(s, s.start, failed))
    case GatherEnd(failed) => s.(end := Gathered(s, s.end, failed))
    case Throttle(c, o, spoilt, punished) =>  // the victim's start sample gets the generation of some other core
      var t := Owned(s.(start := s.start[c := spoilt]), c, o);
      t.(start := t.end, end := Requested(t, punished))
    case Swap(punished) => s.(start := s.end, end := Requested(s, punished))
  }

  // ------------------------------------------------ what counts

  /** A sample never runs ahead, and one of the current generation is not a latency-critical proc's. */
  predicate Fair(s: State, c: nat, g: int)
    requires Sized(s) && c < |s.owner|
  {
    g <= s.gen[c] && (g == s.gen[c] ==> s.owner[c] == None || !s.lc[s.owner[c].t])
  }

  ghost predicate Inv(s: State) {
    Sized(s) && forall c :: 0 <= c < |s.owner| ==> Fair(s, c, s.start[c]) && Fair(s, c, s.end[c])
  }

  lemma StepKeeps(s: State, step: Step)
    requires Inv(s) && Enabled(s, step)
    ensures Inv(Do(s, step))
  {
    var s' := Do(s, step);
    forall c | 0 <= c < |s.owner| ensures Fair(s', c, s'.start[c]) && Fair(s', c, s'.end[c]) {
      assert Fair(s, c, s.start[c]) && Fair(s, c, s.end[c]);
      assert step.Attach? && s.owner[c].Some? ==> s.owner[c] in s.owner;
    }
  }

  /** Nothing is owned and all generations are zero. */
  predicate Init(s: State) {
    Sized(s) && forall c :: 0 <= c < |s.owner| ==> s.owner[c] == None && s.gen[c] == s.start[c] == s.end[c] == 0
  }

  ghost predicate IsRun(run: seq<State>, steps: seq<Step>) {
    && |run| == |steps| + 1 && Init(run[0])
    && forall i :: 0 <= i < |steps| ==> Sized(run[i]) && Enabled(run[i], steps[i]) && run[i + 1] == Do(run[i], steps[i])
  }

  lemma {:induction false} RunInv(run: seq<State>, steps: seq<Step>, n: nat)
    requires IsRun(run, steps) && n < |run|
    ensures Inv(run[n])
  {
    if n > 0 {
      RunInv(run, steps, n - 1);
      StepKeeps(run[n - 1], steps[n - 1]);
    }
  }

  /** The core's samples are added to its owner's miss rate. */
  predicate Counts(s: State, c: nat) {
    c < |s.owner| && c < |s.gen| && c < |s.start| && c < |s.end| && s.owner[c].Some?
    && s.start[c] == s.end[c] == s.gen[c]
  }

  /** In every run a core that counts belongs to a best-effort proc. */
  lemma CountsBestEffort(run: seq<State>, steps: seq<Step>, n: nat, c: nat)
    requires IsRun(run, steps) && n < |run| && Counts(run[n], c)
    ensures run[n].owner[c].t < |run[n].lc| && !run[n].lc[run[n].owner[c].t]
  {
    RunInv(run, steps, n);
    assert Fair(run[n], c, run[n].start[c]);
  }

  // ------------------------------------------------ the victim

  /** The table lists cores, for each of which miss says what its two samples amount to. */
  predicate Fits(s: State, miss: seq<real>, tbl: seq<nat>) {
    |miss| == |s.owner| && forall i :: 0 <= i < |tbl| ==> tbl[i] < |miss|
  }

  /** A proc's miss rate over the first n cores of the table. */
  ghost function Rate(s: State, miss: seq<real>, tbl: seq<nat>, n: nat, p: nat): real
    requires Fits(s, miss, tbl) && n <= |tbl|
  {
    if n == 0 then 0.0
    else Rate(s, miss, tbl, n - 1, p)
         + if Counts(s, tbl[n - 1]) && s.owner[tbl[n - 1]] == Some(p) then miss[tbl[n - 1]] else 0.0
  }

  /** A latency-critical proc has no miss rate, and a proc that has one has a core to show for it. */
  lemma {:induction false} RateShows(s: State, miss: seq<real>, tbl: seq<nat>, n: nat, p: nat)
    requires Inv(s) && Fits(s, miss, tbl) && n <= |tbl| && p < |s.lc|
    ensures s.lc[p] ==> Rate(s, miss, tbl, n, p) == 0.0
    ensures Rate(s, miss, tbl, n, p) > 0.0 ==>
              exists i :: 0 <= i < |tbl| && s.owner[tbl[i]] == Some(p) && miss[tbl[i]] > 0.0
  {
    if n > 0 {
      RateShows(s, miss, tbl, n - 1, p);
      var c := tbl[n - 1];
      assert Fair(s, c, s.start[c]);
    }
  }

  /** The loop over the cores. */
  method Rates(s: State, miss: seq<real>, tbl: seq<nat>) returns (rate: seq<real>)
    requires Inv(s) && Fits(s, miss, tbl)
    ensures |rate| == |s.lc| && forall p :: 0 <= p < |rate| ==> rate[p] == Rate(s, miss, tbl, |tbl|, p)
  {
    rate := seq(|s.lc|, _ => 0.0);
    for i := 0 to |tbl|
      invariant |rate| == |s.lc| && forall p :: 0 <= p < |rate| ==> rate[p] == Rate(s, miss, tbl, i, p)
    {
      var c := tbl[i];
      if s.owner[c].Some? && s.start[c] == s.end[c] && s.start[c] == s.gen[c] {
        rate := rate[s.owner[c].t := rate[s.owner[c].t] + miss[c]];
      }
    }
  }

  /** The tests on a proc with the given miss rate, other than the comparison with the best one. */
  predicate Eligible(rate: real, limit: int, guaranteed: int, cores: nat, thresh: real) {
    limit != 0 && limit > guaranteed && rate * cores as real >= thresh
  }

  /**
   ias_bw_choose_victim: the eligible proc with the highest miss rate and its core with most misses, if
   any eligible proc misses at all; the victim is best-effort, and a core of it is always found.
   */
  method ChooseVictim(s: State, miss: seq<real>, tbl: seq<nat>, limit: seq<int>, guaranteed: seq<int>,
                      thresh: real) returns (victim: Opt, worst: nat)
    requires Inv(s) && Fits(s, miss, tbl) && |limit| == |guaranteed| == |s.lc|
    ensures victim == None <==> forall p :: 0 <= p < |s.lc| ==>
              var rate := Rate(s, miss, tbl, |tbl|, p);
              Eligible(rate, limit[p], guaranteed[p], |tbl|, thresh) ==> rate <= 0.0
    ensures victim.Some? ==> victim.t < |s.lc| && !s.lc[victim.t]
    ensures victim.Some? ==> limit[victim.t] != 0 && limit[victim.t] > guaranteed[victim.t]
    ensures victim.Some? ==> forall p :: 0 <= p < |s.lc| ==>
              var rate := Rate(s, miss, tbl, |tbl|, p);
              Eligible(rate, limit[p], guaranteed[p], |tbl|, thresh) ==> rate <= Rate(s, miss, tbl, |tbl|, victim.t)
    ensures victim.Some? ==> worst in tbl && worst < |s.owner| && s.owner[worst] == victim
    ensures victim.Some? ==> forall i :: 0 <= i < |tbl| && s.owner[tbl[i]] == victim ==> miss[tbl[i]] <= miss[worst]
  {
    var rate := Rates(s, miss, tbl);
    victim, worst := None, 0;
    var highest := 0.0;
    for p := 0 to |s.lc|
      invariant victim == None ==> highest == 0.0
      invariant victim.Some? ==> victim.t < |rate| && highest == rate[victim.t] > 0.0
      invariant victim.Some? ==> Eligible(highest, limit[victim.t], guaranteed[victim.t], |tbl|, thresh)
      invariant forall q :: 0 <= q < p && Eligible(rate[q], limit[q], guaranteed[q], |tbl|, thresh) ==>
                  rate[q] <= highest
    {
      if Eligible(rate[p], limit[p], guaranteed[p], |tbl|, thresh) && rate[p] > highest {
        victim, highest := Some(p), rate[p];
      }
    }
    if victim == None {
      return;
    }
    RateShows(s, miss, tbl, |tbl|, victim.t);
    worst := WorstCore(s, miss, tbl, victim.t);
  }

  /** The proc's core with the most misses. */
  method WorstCore(s: State, miss: seq<real>, tbl: seq<nat>, p: nat) returns (worst: nat)
    requires Sized(s) && Fits(s, miss, tbl)
    requires exists i :: 0 <= i < |tbl| && s.owner[tbl[i]] == Some(p) && miss[tbl[i]] > 0.0
    ensures worst in tbl && worst < |s.owner| && s.owner[worst] == Some(p)
    ensures forall i :: 0 <= i < |tbl| && s.owner[tbl[i]] == Some(p) ==> miss[tbl[i]] <= miss[worst]
  {
    worst := |s.owner|;
    var highest := 0.0;
    for i := 0 to |tbl|
      invariant worst == |s.owner| ==> highest == 0.0
      invariant worst != |s.owner| ==> worst in tbl && worst < |s.owner| && s.owner[worst] == Some(p)
      invariant worst != |s.owner| ==> miss[worst] == highest
      invariant forall j :: 0 <= j < i && s.owner[tbl[j]] == Some(p) ==> miss[tbl[j]] <= highest
    {
      var c := tbl[i];
      if miss[c] > highest && s.owner[c] == Some(p) {
        worst, highest := c, miss[c];
      }
    }
  }
}
