/**
 * One tick of the five simulator loops. Every C engine runs the same four
 * phases in the same order on each millisecond: arrivals (index order),
 * I/O completions (index order), the end of the running CPU burst, then
 * the dispatch of the ready-queue head; the clock then advances by one.
 * The phases differ per algorithm only in the queue discipline, the burst
 * length handed out, and the statistics kept; `Algorithm` selects those.
 */
module Engine {
  import opened Wrappers
  import opened Workload
  import opened SimState
  import opened ReadyOrder
  import ProcessIds
  import Tau

  // ---------------------------------------------------------------------
  // Shared pieces
  // ---------------------------------------------------------------------

  /** The SJF comparison values, over the state's current tau estimates. */
  function SjfOrder(alpha: real, P: seq<Process>, s: Sim): (values: seq<int>)
    requires Shape(P, s)
    ensures |values| == |P|
  {
    SjfValues(alpha, FirstBursts(P), s.tau, Ids(P))
  }

  /** The sorted insertion an SRT engine uses: by remaining time (exact) or by tau (estimated). */
  function SrtInsert(P: seq<Process>, s: Sim, q: seq<nat>, x: nat, byTau: bool): (r: seq<nat>)
    requires Shape(P, s) && x < |P| && AllBelow(q, |P|)
    ensures multiset(r) == multiset(q) + multiset{x}
    ensures AllBelow(r, |P|)
  {
    if byTau then EnqueueSortedByTau(q, x, s.tau, s.preempted, s.predicted, Ids(P))
    else EnqueueSortedByRemaining(q, x, s.remaining, Ids(P))
  }

  /**
   * The preemption counter update. The class counters are attributed the
   * other way round from the preempting process's own class: a process
   * that is not CPU-bound raises the CPU-bound counter.
   */
  function CountPreemption(c: Counters, preemptorCpuBound: bool): (r: Counters)
    ensures r.preemptions == c.preemptions + 1
    ensures r.cpuBoundPreemptions + r.ioBoundPreemptions == c.cpuBoundPreemptions + c.ioBoundPreemptions + 1
    ensures !preemptorCpuBound ==> r.cpuBoundPreemptions == c.cpuBoundPreemptions + 1
    ensures preemptorCpuBound ==> r.ioBoundPreemptions == c.ioBoundPreemptions + 1
    ensures r.finished == c.finished && r.switches == c.switches
    ensures r.cpuBoundSwitches == c.cpuBoundSwitches && r.ioBoundSwitches == c.ioBoundSwitches
  {
    if !preemptorCpuBound then
      c.(preemptions := c.preemptions + 1, cpuBoundPreemptions := c.cpuBoundPreemptions + 1)
    else
      c.(preemptions := c.preemptions + 1, ioBoundPreemptions := c.ioBoundPreemptions + 1)
  }

  /** A dispatch counted by the dispatched process's own class (the SRT engines). */
  function CountSwitch(c: Counters, cpuBound: bool): (r: Counters)
    ensures r.switches == c.switches + 1
    ensures cpuBound ==> r.cpuBoundSwitches == c.cpuBoundSwitches + 1 && r.ioBoundSwitches == c.ioBoundSwitches
    ensures !cpuBound ==> r.ioBoundSwitches == c.ioBoundSwitches + 1 && r.cpuBoundSwitches == c.cpuBoundSwitches
    ensures r.finished == c.finished && r.preemptions == c.preemptions
    ensures r.cpuBoundPreemptions == c.cpuBoundPreemptions && r.ioBoundPreemptions == c.ioBoundPreemptions
  {
    if cpuBound then c.(switches := c.switches + 1, cpuBoundSwitches := c.cpuBoundSwitches + 1)
    else c.(switches := c.switches + 1, ioBoundSwitches := c.ioBoundSwitches + 1)
  }

  /**
   * How a newly ready process `x` enters: it joins the ready queue and the
   * CPU keeps its occupant, or it preempts, and the occupant joins the
   * queue too while the CPU is released. The counters either stay or record
   * one preemption by `x`.
   */
  predicate Joins(P: seq<Process>, s: Sim, r: Sim, x: nat)
    requires x < |P|
  {
    && ((r.cpu == s.cpu && multiset(r.queue) == multiset(s.queue) + multiset{x})
        || (s.cpu.Some? && r.cpu == None
            && multiset(r.queue) == multiset(s.queue) + multiset{x} + multiset{s.cpu.value}))
    && (r.counters == s.counters || r.counters == CountPreemption(s.counters, P[x].cpuBound))
  }

  /** The remaining times once the running process `p`'s is snapshot as `v`. */
  function Snapshot(rem: seq<int>, p: nat, v: int): (k: seq<int>)
    requires p < |rem|
    ensures |k| == |rem| && k[p] == v
    ensures forall j :: 0 <= j < |rem| && j != p ==> k[j] == rem[j]
  {
    rem[p := v]
  }

  /**
   * The SRT preemption protocol: the newcomer `i` is inserted first, by its
   * current key; the running process is marked preempted, its remaining time
   * is snapshot as `burstEnd - clock`, it is re-inserted by its new key, and
   * the CPU is released with a half context switch before anything can start.
   */
  function Preempt(P: seq<Process>, tcs: int, s: Sim, i: nat, byTau: bool): (r: Sim)
    requires Shape(P, s) && i < |P| && s.cpu.Some?
    ensures Shape(P, r) && r.clock == s.clock
    ensures multiset(r.queue) == multiset(s.queue) + multiset{i} + multiset{s.cpu.value}
    ensures r.cpu == None && r.idleUntil == s.clock + Half(tcs) && r.preemptFlag
    ensures r.preempted == s.preempted[s.cpu.value := true]
    ensures r.remaining[s.cpu.value] == s.burstEnd - s.clock
    ensures forall j :: 0 <= j < |P| && j != s.cpu.value ==> r.remaining[j] == s.remaining[j]
    ensures !byTau ==>
      var q1 := EnqueueSortedByRemaining(s.queue, i, s.remaining, Ids(P));
      r.queue == EnqueueSortedByRemaining(q1, s.cpu.value, Snapshot(s.remaining, s.cpu.value, s.burstEnd - s.clock), Ids(P))
    ensures byTau ==>
      var q1 := EnqueueSortedByTau(s.queue, i, s.tau, s.preempted, s.predicted, Ids(P));
      r.queue == EnqueueSortedByTau(q1, s.cpu.value, s.tau, s.preempted[s.cpu.value := true], s.predicted, Ids(P))
    ensures r.counters == CountPreemption(s.counters, P[i].cpuBound)
    ensures r.remainingBursts == s.remainingBursts && r.burstIndex == s.burstIndex && r.ioDone == s.ioDone
    ensures r.tau == s.tau && r.predicted == s.predicted && r.lastReady == s.lastReady
    ensures r.wait == s.wait && r.turnaround == s.turnaround && r.burstEnd == s.burstEnd
  {
    var p := s.cpu.value;
    var q1 := SrtInsert(P, s, s.queue, i, byTau);
    var s1 := s.(queue := q1, preempted := s.preempted[p := true],
                 counters := CountPreemption(s.counters, P[i].cpuBound),
                 remaining := Snapshot(s.remaining, p, s.burstEnd - s.clock));
    var q2 := SrtInsert(P, s1, s1.queue, p, byTau);
    s1.(queue := q2, idleUntil := s.clock + Half(tcs), cpu := None, preemptFlag := true)
  }

  // ---------------------------------------------------------------------
  // Phase 1: arrivals
  // ---------------------------------------------------------------------

  /**
   * The exact SRT arrival: an arrival whose current burst is strictly
   * shorter than the running process's whole current burst preempts it;
   * otherwise the newcomer's remaining time is set to its first burst and
   * it is inserted by remaining time.
   */
  function ArriveExact(P: seq<Process>, tcs: int, s: Sim, i: nat): (r: Sim)
    requires Shape(P, s) && i < |P|
    ensures Shape(P, r) && r.clock == s.clock
    ensures var preempts := s.cpu.Some? && P[i].CpuBurst(s.burstIndex[i]) < P[s.cpu.value].CpuBurst(s.burstIndex[s.cpu.value]);
      && (preempts ==> r == Preempt(P, tcs, s, i, false))
      && (!preempts ==> r.cpu == s.cpu && r.remaining == s.remaining[i := P[i].CpuBurst(0)]
                        && r.queue == EnqueueSortedByRemaining(s.queue, i, r.remaining, Ids(P))
                        && r.idleUntil == s.idleUntil && r.counters == s.counters)
    ensures SameProgress(s, r) && r.burstEnd == s.burstEnd
  {
    if s.cpu.Some? && P[i].CpuBurst(s.burstIndex[i]) < P[s.cpu.value].CpuBurst(s.burstIndex[s.cpu.value]) then
      Preempt(P, tcs, s, i, false)
    else
      var s1 := s.(remaining := s.remaining[i := P[i].CpuBurst(0)]);
      s1.(queue := EnqueueSortedByRemaining(s1.queue, i, s1.remaining, Ids(P)))
  }

  /** Process `i`'s turn in the arrival loop. */
  function ArriveOne(alg: Algorithm, P: seq<Process>, tcs: int, s: Sim, i: nat): (r: Sim)
    requires Shape(P, s) && i < |P|
    ensures Shape(P, r) && r.clock == s.clock
    ensures P[i].arrival != s.clock ==> r == s
    ensures P[i].arrival == s.clock && !alg.SrtExact? ==>
      multiset(r.queue) == multiset(s.queue) + multiset{i} && r.cpu == s.cpu
    ensures P[i].arrival == s.clock && (alg.Fcfs? || alg.RoundRobin?) ==> r == s.(queue := s.queue + [i])
    ensures P[i].arrival == s.clock ==> Joins(P, s, r, i)
    ensures SameProgress(s, r) && r.burstEnd == s.burstEnd && r.counters.finished == s.counters.finished
    ensures r.idleUntil == s.idleUntil || r.idleUntil == s.clock + Half(tcs)
  {
    if P[i].arrival != s.clock then s
    else match alg
      case Fcfs => s.(queue := s.queue + [i])
      case RoundRobin(_) => s.(queue := s.queue + [i])
      case Sjf(alpha) => s.(queue := EnqueueSjf(s.queue, i, SjfOrder(alpha, P, s)))
      case SrtExact => ArriveExact(P, tcs, s, i)
      case SrtTau(_) =>
        var q := EnqueueSortedByTau(s.queue, i, s.tau, s.preempted, s.remaining, Ids(P));
        s.(queue := q, remaining := s.remaining[i := s.tau[i]])
  }

  /**
   * Where a non-preempting sorted arrival lands: SJF inserts by the SJF
   * keys, and estimated SRT by tau, after setting the newcomer's remaining
   * time to its tau.
   */
  lemma ArriveOneOrder(alg: Algorithm, P: seq<Process>, tcs: int, s: Sim, i: nat)
    requires Shape(P, s) && i < |P| && P[i].arrival == s.clock
    ensures var r := ArriveOne(alg, P, tcs, s, i);
      alg.Sjf? ==> r.queue == EnqueueSjf(s.queue, i, SjfOrder(alg.alpha, P, s)) && r.tau == s.tau
    ensures var r := ArriveOne(alg, P, tcs, s, i);
      alg.SrtTau? ==>
        r.queue == EnqueueSortedByTau(s.queue, i, s.tau, s.preempted, s.remaining, Ids(P)) && r.remaining == s.remaining[i := s.tau[i]]
  {
  }

  /** The arrival loop from index `k` on. */
  function Arrivals(alg: Algorithm, P: seq<Process>, tcs: int, s: Sim, k: nat): (r: Sim)
    requires Shape(P, s)
    ensures Shape(P, r) && r.clock == s.clock
    ensures r.counters.finished == s.counters.finished && r.burstEnd == s.burstEnd
    decreases |P| - k
  {
    if k >= |P| then s else Arrivals(alg, P, tcs, ArriveOne(alg, P, tcs, s, k), k + 1)
  }

  // ---------------------------------------------------------------------
  // Phase 2: I/O completions
  // ---------------------------------------------------------------------

  /**
   * The remaining times the exact SRT I/O completion compares: the returning
   * process gets its whole next burst, and the running index (0 when the CPU
   * is idle) gets its burst less the time since it started, which with an
   * idle CPU is a burst of 0.
   */
  function ExactIoRemaining(P: seq<Process>, s: Sim, i: nat): (rem: seq<int>)
    requires Shape(P, s) && i < |P|
    ensures |rem| == |P|
    ensures s.cpu.Some? ==> rem == s.remaining[i := P[i].CpuBurst(s.burstIndex[i])][s.cpu.value :=
      P[s.cpu.value].CpuBurst(s.burstIndex[s.cpu.value]) - (s.clock - s.idleUntil)]
    ensures s.cpu.None? ==> rem == s.remaining[i := P[i].CpuBurst(s.burstIndex[i])][0 := s.idleUntil - s.clock]
  {
    var pid := if s.cpu.Some? then s.cpu.value else 0;
    var burst := if s.cpu.Some? then P[pid].CpuBurst(s.burstIndex[pid]) else 0;
    s.remaining[i := P[i].CpuBurst(s.burstIndex[i])][pid := burst - (s.clock - s.idleUntil)]
  }

  /** The exact SRT preemption test: the returning burst is strictly shorter than the running remainder. */
  predicate ExactIoPreempts(P: seq<Process>, s: Sim, i: nat)
    requires Shape(P, s) && i < |P|
  {
    var rem := ExactIoRemaining(P, s, i);
    s.cpu.Some? && rem[i] < rem[s.cpu.value]
  }

  /** The tail of every SRT I/O completion: `i`'s remaining time is reset and its I/O cleared. */
  function FinishIo(s: Sim, i: nat, resetTo: int): (r: Sim)
    requires i < |s.remaining| && i < |s.ioDone|
    ensures r == s.(remaining := s.remaining[i := resetTo], ioDone := s.ioDone[i := 0], preemptFlag := false)
  {
    s.(remaining := s.remaining[i := resetTo], ioDone := s.ioDone[i := 0], preemptFlag := false)
  }

  /**
   * The exact SRT I/O completion, corrected: the running process is
   * preempted when the returning process's burst is strictly shorter than
   * the running one's remaining time (its whole burst less the time since
   * it started), and the returning process is inserted unless this very
   * completion preempted and so already inserted it. As in the C loop, an
   * idle CPU makes slot 0 of the remaining times the "running" slot.
   */
  function IoExact(P: seq<Process>, tcs: int, s: Sim, i: nat): (r: Sim)
    requires Shape(P, s) && i < |P|
    ensures Shape(P, r) && r.clock == s.clock
    ensures r.remainingBursts == s.remainingBursts && r.burstIndex == s.burstIndex
    ensures ExactIoPreempts(P, s, i) ==> r.counters == CountPreemption(s.counters, P[i].cpuBound)
    ensures !ExactIoPreempts(P, s, i) ==> r.counters == s.counters
    ensures ExactIoPreempts(P, s, i) ==>
      r.cpu == None && multiset(r.queue) == multiset(s.queue) + multiset{i} + multiset{s.cpu.value}
    ensures !ExactIoPreempts(P, s, i) ==>
      r.cpu == s.cpu && multiset(r.queue) == multiset(s.queue) + multiset{i}
    ensures r.ioDone == s.ioDone[i := 0] && !r.preemptFlag && r.burstEnd == s.burstEnd
    ensures r.remaining[i] == P[i].CpuBurst(s.burstIndex[i])
    ensures ExactIoPreempts(P, s, i) ==> r.idleUntil == s.clock + Half(tcs) && r.preempted == s.preempted[s.cpu.value := true]
    ensures !ExactIoPreempts(P, s, i) ==> r.idleUntil == s.idleUntil && r.preempted == s.preempted
  {
    var s2 := PlaceExact(P, tcs, s.(remaining := ExactIoRemaining(P, s, i)), i, ExactIoPreempts(P, s, i));
    FinishIo(s2, i, P[i].CpuBurst(s2.burstIndex[i]))
  }

  /** The placement step of the exact SRT I/O completion: preempt, or insert by remaining time. */
  function PlaceExact(P: seq<Process>, tcs: int, s: Sim, i: nat, preempts: bool): (r: Sim)
    requires Shape(P, s) && i < |P| && (preempts ==> s.cpu.Some?)
    ensures Shape(P, r) && r.clock == s.clock && r.ioDone == s.ioDone
    ensures preempts ==> r.cpu == None && multiset(r.queue) == multiset(s.queue) + multiset{i} + multiset{s.cpu.value}
    ensures !preempts ==> r.cpu == s.cpu && multiset(r.queue) == multiset(s.queue) + multiset{i}
    ensures r.remainingBursts == s.remainingBursts && r.burstIndex == s.burstIndex
    ensures preempts ==> r.counters == CountPreemption(s.counters, P[i].cpuBound)
    ensures !preempts ==> r.counters == s.counters
    ensures r.burstEnd == s.burstEnd
    ensures preempts ==>
      var p := s.cpu.value;
      && r.idleUntil == s.clock + Half(tcs) && r.preempted == s.preempted[p := true]
      && r.remaining[p] == s.burstEnd - s.clock
    ensures !preempts ==> r.idleUntil == s.idleUntil && r.preempted == s.preempted
    ensures !preempts ==> r.queue == EnqueueSortedByRemaining(s.queue, i, s.remaining, Ids(P))
  {
    if preempts then Preempt(P, tcs, s, i, false)
    else s.(queue := EnqueueSortedByRemaining(s.queue, i, s.remaining, Ids(P)))
  }

  /**
   * The exact SRT I/O completion as the C loop writes it: the insertion is
   * skipped whenever the engine-wide preemption flag is set, including when
   * an arrival earlier in the same tick set it and no I/O loop has cleared
   * it since.
   */
  function IoExactAsWritten(P: seq<Process>, tcs: int, s: Sim, i: nat): (r: Sim)
    requires Shape(P, s) && i < |P|
    ensures Shape(P, r) && r.clock == s.clock
    ensures r.ioDone == s.ioDone[i := 0] && !r.preemptFlag
    ensures s.preemptFlag && s.cpu.None? ==> r.queue == s.queue && r.cpu == None
    ensures s.preemptFlag && !ExactIoPreempts(P, s, i) ==> r.queue == s.queue && r.cpu == s.cpu
    ensures !s.preemptFlag ==> r == IoExact(P, tcs, s, i)
  {
    var s1 := s.(remaining := ExactIoRemaining(P, s, i));
    var s2 := if ExactIoPreempts(P, s, i) then Preempt(P, tcs, s1, i, false) else s1;
    var s3 := if s2.preemptFlag then s2
              else s2.(queue := EnqueueSortedByRemaining(s2.queue, i, s2.remaining, Ids(P)));
    FinishIo(s3, i, P[i].CpuBurst(s3.burstIndex[i]))
  }

  /** The running process's predicted remaining time at an estimated SRT I/O completion. */
  function TauPrediction(P: seq<Process>, s: Sim): (predicted: int)
    requires Shape(P, s) && |P| > 0
  {
    var pid := if s.cpu.Some? then s.cpu.value else 0;
    var burst := if s.cpu.Some? then P[pid].CpuBurst(s.burstIndex[pid]) else 0;
    s.tau[pid] - ((s.clock - s.idleUntil) + (burst - s.remaining[pid]))
  }

  /**
   * The estimated SRT I/O completion: the running process's predicted
   * remaining time is its tau less the time it has run; it is preempted
   * when that prediction is strictly greater than the returning process's
   * tau. Insertions are keyed by the predicted times.
   */
  function IoTau(P: seq<Process>, tcs: int, s: Sim, i: nat): (r: Sim)
    requires Shape(P, s) && i < |P|
    ensures Shape(P, r) && r.clock == s.clock
    ensures r.predicted == s.predicted[(if s.cpu.Some? then s.cpu.value else 0) := TauPrediction(P, s)]
    ensures TauIoPreempts(P, s, i) ==>
      r.cpu == None && multiset(r.queue) == multiset(s.queue) + multiset{i} + multiset{s.cpu.value}
    ensures !TauIoPreempts(P, s, i) ==>
      r.cpu == s.cpu && multiset(r.queue) == multiset(s.queue) + multiset{i}
    ensures r.ioDone == s.ioDone[i := 0] && !r.preemptFlag
    ensures r.remaining[i] == s.tau[i] && r.tau == s.tau && r.burstEnd == s.burstEnd
    ensures r.remainingBursts == s.remainingBursts && r.burstIndex == s.burstIndex
    ensures TauIoPreempts(P, s, i) ==>
      && r.counters == CountPreemption(s.counters, P[i].cpuBound)
      && r.idleUntil == s.clock + Half(tcs) && r.preempted == s.preempted[s.cpu.value := true]
    ensures !TauIoPreempts(P, s, i) ==> r.counters == s.counters && r.idleUntil == s.idleUntil && r.preempted == s.preempted
  {
    var predicted := TauPrediction(P, s);
    var s1 := s.(predicted := s.predicted[(if s.cpu.Some? then s.cpu.value else 0) := predicted]);
    var s2 := PlaceTau(P, tcs, s1, i, TauIoPreempts(P, s, i));
    FinishIo(s2, i, s2.tau[i])
  }

  /** The estimated SRT preemption test: the running process's prediction exceeds the returning process's tau. */
  predicate TauIoPreempts(P: seq<Process>, s: Sim, i: nat)
    requires Shape(P, s) && i < |P|
  {
    s.cpu.Some? && TauPrediction(P, s) > s.tau[i]
  }

  /** Either preempt the running process for `i` or insert `i` by its estimate. */
  function PlaceTau(P: seq<Process>, tcs: int, s: Sim, i: nat, preempts: bool): (r: Sim)
    requires Shape(P, s) && i < |P| && (preempts ==> s.cpu.Some?)
    ensures Shape(P, r) && r.clock == s.clock && r.tau == s.tau && r.predicted == s.predicted && r.ioDone == s.ioDone
    ensures preempts ==> r.cpu == None && multiset(r.queue) == multiset(s.queue) + multiset{i} + multiset{s.cpu.value}
    ensures !preempts ==> r.cpu == s.cpu && multiset(r.queue) == multiset(s.queue) + multiset{i}
    ensures r.remainingBursts == s.remainingBursts && r.burstIndex == s.burstIndex
    ensures preempts ==> r.counters == CountPreemption(s.counters, P[i].cpuBound)
    ensures !preempts ==> r.counters == s.counters
    ensures r.burstEnd == s.burstEnd
    ensures preempts ==>
      var p := s.cpu.value;
      && r.idleUntil == s.clock + Half(tcs) && r.preempted == s.preempted[p := true]
      && r.remaining[p] == s.burstEnd - s.clock
    ensures !preempts ==> r.idleUntil == s.idleUntil && r.preempted == s.preempted
    ensures preempts ==>
      var p := s.cpu.value;
      var q1 := EnqueueSortedByTau(s.queue, i, s.tau, s.preempted, s.predicted, Ids(P));
      r.queue == EnqueueSortedByTau(q1, p, s.tau, s.preempted[p := true], s.predicted, Ids(P))
    ensures !preempts ==> r.queue == EnqueueSortedByTau(s.queue, i, s.tau, s.preempted, s.predicted, Ids(P))
  {
    if preempts then Preempt(P, tcs, s, i, true)
    else s.(queue := EnqueueSortedByTau(s.queue, i, s.tau, s.preempted, s.predicted, Ids(P)))
  }

  // ---------------------------------------------------------------------
  // Where the SRT placements put processes in the ready queue
  // ---------------------------------------------------------------------

  /**
   * The exact SRT I/O completion in full. Without a preemption the
   * returning process is inserted by the remaining times just compared.
   * With one, it is inserted first by those times, and then the occupant by
   * its snapshot `burstEnd - clock`, which is what its remaining time now
   * holds; every other remaining time is the one compared.
   */
  lemma IoExactOrder(P: seq<Process>, tcs: int, s: Sim, i: nat)
    requires Shape(P, s) && i < |P|
    ensures !ExactIoPreempts(P, s, i) ==>
      IoExact(P, tcs, s, i).queue == EnqueueSortedByRemaining(s.queue, i, ExactIoRemaining(P, s, i), Ids(P))
    ensures ExactIoPreempts(P, s, i) ==>
      var t := s.(remaining := ExactIoRemaining(P, s, i));
      var q1 := EnqueueSortedByRemaining(t.queue, i, t.remaining, Ids(P));
      IoExact(P, tcs, s, i).queue == EnqueueSortedByRemaining(q1, t.cpu.value, Snapshot(t.remaining, t.cpu.value, t.burstEnd - t.clock), Ids(P))
  {
    var s1 := s.(remaining := ExactIoRemaining(P, s, i));
    if ExactIoPreempts(P, s, i) {
      var r := Preempt(P, tcs, s1, i, false);
      assert PlaceExact(P, tcs, s1, i, true) == r;
      assert IoExact(P, tcs, s, i).queue == r.queue;
    } else {
      assert IoExact(P, tcs, s, i).queue == PlaceExact(P, tcs, s1, i, false).queue;
    }
  }

  /**
   * The remaining times an exact SRT I/O completion leaves: the returning
   * process's is its next burst, a preempted occupant's is its snapshot,
   * and every other one is the one compared.
   */
  lemma IoExactRemaining(P: seq<Process>, tcs: int, s: Sim, i: nat)
    requires Shape(P, s) && i < |P|
    ensures ExactIoPreempts(P, s, i) ==>
      && s.cpu.value != i
      && IoExact(P, tcs, s, i).remaining[s.cpu.value] == s.burstEnd - s.clock
    ensures forall j :: 0 <= j < |P| && j != i && (ExactIoPreempts(P, s, i) ==> j != s.cpu.value) ==>
      IoExact(P, tcs, s, i).remaining[j] == ExactIoRemaining(P, s, i)[j]
  {
  }

  /**
   * The estimated SRT I/O completion in full: insertions are keyed by the
   * predictions just updated; on preemption the returning process is
   * inserted first and then the occupant, now marked preempted, whose
   * remaining time holds its snapshot.
   */
  lemma IoTauOrder(P: seq<Process>, tcs: int, s: Sim, i: nat)
    requires Shape(P, s) && i < |P|
    ensures !TauIoPreempts(P, s, i) ==>
      var r := IoTau(P, tcs, s, i);
      r.queue == EnqueueSortedByTau(s.queue, i, s.tau, s.preempted, r.predicted, Ids(P))
    ensures TauIoPreempts(P, s, i) ==>
      var p := s.cpu.value;
      var r := IoTau(P, tcs, s, i);
      var q1 := EnqueueSortedByTau(s.queue, i, s.tau, s.preempted, r.predicted, Ids(P));
      && r.queue == EnqueueSortedByTau(q1, p, s.tau, s.preempted[p := true], r.predicted, Ids(P))
      && (p != i ==> r.remaining[p] == s.burstEnd - s.clock)
    ensures forall j :: 0 <= j < |P| && j != i && (TauIoPreempts(P, s, i) ==> j != s.cpu.value) ==>
      IoTau(P, tcs, s, i).remaining[j] == s.remaining[j]
  {
  }

  /** Process `i`'s turn in the I/O loop: it acts only when its nonzero completion time is now. */
  function IoOne(alg: Algorithm, P: seq<Process>, tcs: int, s: Sim, i: nat): (r: Sim)
    requires Shape(P, s) && i < |P|
    ensures Shape(P, r) && r.clock == s.clock
    ensures s.ioDone[i] == 0 || s.ioDone[i] != s.clock ==> r == s
    ensures s.ioDone[i] != 0 && s.ioDone[i] == s.clock ==>
      r.ioDone == s.ioDone[i := 0] && Joins(P, s, r, i)
      && r.remainingBursts == s.remainingBursts && r.burstIndex == s.burstIndex
    ensures s.ioDone[i] != 0 && s.ioDone[i] == s.clock && (alg.Fcfs? || alg.RoundRobin?) ==>
      r == s.(queue := s.queue + [i], ioDone := s.ioDone[i := 0])
    ensures s.ioDone[i] != 0 && s.ioDone[i] == s.clock && alg.Sjf? ==>
      r.lastReady == s.lastReady[i := s.clock] && r.cpu == s.cpu && multiset(r.queue) == multiset(s.queue) + multiset{i}
    ensures r.counters.finished == s.counters.finished && r.burstEnd == s.burstEnd
  {
    if s.ioDone[i] == 0 || s.ioDone[i] != s.clock then s
    else match alg
      case Fcfs => s.(queue := s.queue + [i], ioDone := s.ioDone[i := 0])
      case RoundRobin(_) => s.(queue := s.queue + [i], ioDone := s.ioDone[i := 0])
      case Sjf(alpha) =>
        var s1 := s.(lastReady := s.lastReady[i := s.clock]);
        s1.(queue := EnqueueSjf(s1.queue, i, SjfOrder(alpha, P, s1)), ioDone := s1.ioDone[i := 0])
      case SrtExact => IoExact(P, tcs, s, i)
      case SrtTau(_) => IoTau(P, tcs, s, i)
  }

  /**
   * Where a process returning from I/O now is put: SJF inserts it by the
   * SJF keys, before the first strictly greater one; the SRT engines hand
   * it to their own I/O return, exact SRT to the corrected one.
   */
  lemma IoOneOrder(alg: Algorithm, P: seq<Process>, tcs: int, s: Sim, i: nat)
    requires Shape(P, s) && i < |P| && s.ioDone[i] != 0 && s.ioDone[i] == s.clock
    ensures var r := IoOne(alg, P, tcs, s, i);
      alg.Sjf? ==> r.queue == EnqueueSjf(s.queue, i, SjfOrder(alg.alpha, P, s)) && r.tau == s.tau
    ensures alg.SrtExact? ==> IoOne(alg, P, tcs, s, i) == IoExact(P, tcs, s, i)
    ensures alg.SrtTau? ==> IoOne(alg, P, tcs, s, i) == IoTau(P, tcs, s, i)
  {
  }

  /** The I/O loop from index `k` on. */
  function IoCompletions(alg: Algorithm, P: seq<Process>, tcs: int, s: Sim, k: nat): (r: Sim)
    requires Shape(P, s)
    ensures Shape(P, r) && r.clock == s.clock
    ensures r.counters.finished == s.counters.finished && r.burstEnd == s.burstEnd
    decreases |P| - k
  {
    if k >= |P| then s else IoCompletions(alg, P, tcs, IoOne(alg, P, tcs, s, k), k + 1)
  }

  // ---------------------------------------------------------------------
  // Phase 3: the end of the running CPU burst
  // ---------------------------------------------------------------------

  /**
   * `r` is `s` after the burst of `p` ended: one burst fewer, then either
   * an I/O block until `clock + tcs/2 + io` with the burst index advanced,
   * or termination, which adds one to the finished count.
   */
  predicate BurstEnded(P: seq<Process>, tcs: int, s: Sim, r: Sim, p: nat)
    requires Shape(P, s) && Shape(P, r) && p < |P|
  {
    && r.remainingBursts == s.remainingBursts[p := s.remainingBursts[p] - 1]
    && (s.remainingBursts[p] > 1 ==>
          && r.ioDone == s.ioDone[p := s.clock + Half(tcs) + P[p].IoBurst(s.burstIndex[p])]
          && r.burstIndex == s.burstIndex[p := s.burstIndex[p] + 1]
          && r.counters.finished == s.counters.finished)
    && (s.remainingBursts[p] <= 1 ==>
          && r.ioDone == s.ioDone && r.burstIndex == s.burstIndex
          && r.counters.finished == s.counters.finished + 1)
  }

  /**
   * The bookkeeping every engine does when a burst of `p` really ends: one
   * burst fewer; then either an I/O block until `clock + tcs/2 + io` with
   * the burst index advanced, or termination.
   */
  function EndBurst(P: seq<Process>, tcs: int, s: Sim, p: nat): (r: Sim)
    requires Shape(P, s) && p < |P|
    ensures Shape(P, r) && r.clock == s.clock && r.queue == s.queue && r.cpu == s.cpu
    ensures BurstEnded(P, tcs, s, r, p)
    ensures r.counters == s.counters.(finished := r.counters.finished)
    ensures r.remaining == s.remaining && r.preempted == s.preempted && r.tau == s.tau
  {
    var left := s.remainingBursts[p] - 1;
    var s1 := s.(remainingBursts := s.remainingBursts[p := left]);
    if left > 0 then
      s1.(ioDone := s1.ioDone[p := s.clock + Half(tcs) + P[p].IoBurst(s.burstIndex[p])],
          burstIndex := s1.burstIndex[p := s.burstIndex[p] + 1])
    else
      s1.(counters := s1.counters.(finished := s1.counters.finished + 1))
  }

  /** Every engine releases the CPU with a half context switch after a burst ends. */
  function Release(tcs: int, s: Sim): (r: Sim)
    ensures r == s.(cpu := None, idleUntil := s.clock + Half(tcs))
  {
    s.(cpu := None, idleUntil := s.clock + Half(tcs))
  }

  /**
   * The round-robin end of a slice. The C code counts the burst as over
   * when the remaining time (from which the slice was already subtracted at
   * dispatch) is at most one time slice; otherwise the process goes back to
   * the tail of the ready queue, even when the queue is empty.
   */
  function EndSliceRr(P: seq<Process>, tcs: int, timeSlice: int, s: Sim, p: nat): (r: Sim)
    requires Shape(P, s) && p < |P|
    ensures Shape(P, r) && r.cpu == None && r.idleUntil == s.clock + Half(tcs)
    ensures s.remaining[p] > timeSlice ==> r.queue == s.queue + [p] && SameProgress(s, r) && r.counters == s.counters
    ensures s.remaining[p] <= timeSlice ==>
      && r.queue == s.queue && BurstEnded(P, tcs, s, r, p)
      && SamePreemptions(s.counters, r.counters) && SameSwitches(s.counters, r.counters)
      && r.remaining[p] == (if r.remainingBursts[p] > 0 then P[p].CpuBurst(r.burstIndex[p]) else s.remaining[p])
  {
    if s.remaining[p] <= timeSlice then
      var s1 := EndBurst(P, tcs, s, p);
      Release(tcs, if s1.remainingBursts[p] > 0 then s1.(remaining := s1.remaining[p := P[p].CpuBurst(s1.burstIndex[p])]) else s1)
    else
      Release(tcs, s.(queue := s.queue + [p]))
  }

  /**
   * The SJF end of a burst: busy time grows by the burst, tau is
   * re-estimated unless `alpha` is -1, and on termination the turnaround
   * (measured to the end of the switch-out) and the per-class switch count
   * (one per burst run) are recorded.
   */
  function EndBurstSjf(P: seq<Process>, tcs: int, alpha: real, s: Sim, p: nat): (r: Sim)
    requires Shape(P, s) && p < |P|
    ensures Shape(P, r) && r.cpu == None && r.queue == s.queue
    ensures BurstEnded(P, tcs, s, r, p) && SamePreemptions(s.counters, r.counters)
    ensures r.counters.busy == s.counters.busy + P[p].CpuBurst(s.burstIndex[p])
    ensures r.tau[p] == if alpha == -1.0 then s.tau[p] else Tau.CalculateTau2(alpha, s.tau[p], P[p].CpuBurst(s.burstIndex[p]))
    ensures s.remainingBursts[p] <= 1 ==>
      && r.turnaround[p] == s.clock + Half(tcs) - P[p].arrival
      && r.counters.finished == s.counters.finished + 1
      && (P[p].cpuBound ==>
            r.counters.cpuBoundDone == s.counters.cpuBoundDone + 1
            && r.counters.cpuBoundSwitches == s.counters.cpuBoundSwitches + s.burstIndex[p] + 1)
      && (!P[p].cpuBound ==>
            r.counters.ioBoundDone == s.counters.ioBoundDone + 1
            && r.counters.ioBoundSwitches == s.counters.ioBoundSwitches + s.burstIndex[p] + 1)
  {
    Release(tcs, SjfAfterBurst(P, tcs, ChargeSjfBurst(P, alpha, s, p), p))
  }

  /** The SJF charge for a finished burst: busy time and, unless `alpha` is -1, tau; nothing else. */
  function ChargeSjfBurst(P: seq<Process>, alpha: real, s: Sim, p: nat): (r: Sim)
    requires Shape(P, s) && p < |P|
    ensures Shape(P, r) && r == s.(counters := r.counters, tau := r.tau)
    ensures r.counters == s.counters.(busy := s.counters.busy + P[p].CpuBurst(s.burstIndex[p]))
    ensures |r.tau| == |s.tau| && forall j :: 0 <= j < |s.tau| && j != p ==> r.tau[j] == s.tau[j]
    ensures r.tau[p] == if alpha == -1.0 then s.tau[p] else Tau.CalculateTau2(alpha, s.tau[p], P[p].CpuBurst(s.burstIndex[p]))
  {
    var actual := P[p].CpuBurst(s.burstIndex[p]);
    var s1 := s.(counters := s.counters.(busy := s.counters.busy + actual));
    if alpha != -1.0 then s1.(tau := s1.tau[p := Tau.CalculateTau2(alpha, s1.tau[p], actual)]) else s1
  }

  /** The SJF burst end after the busy time and tau are charged: bookkeeping, then termination statistics. */
  function SjfAfterBurst(P: seq<Process>, tcs: int, s: Sim, p: nat): (r: Sim)
    requires Shape(P, s) && p < |P|
    ensures Shape(P, r) && r.cpu == s.cpu && r.queue == s.queue && r.tau == s.tau
    ensures BurstEnded(P, tcs, s, r, p) && SamePreemptions(s.counters, r.counters)
    ensures r.counters.busy == s.counters.busy
    ensures s.remainingBursts[p] <= 1 ==>
      && r.turnaround[p] == s.clock + Half(tcs) - P[p].arrival
      && (P[p].cpuBound ==>
            r.counters.cpuBoundDone == s.counters.cpuBoundDone + 1
            && r.counters.cpuBoundSwitches == s.counters.cpuBoundSwitches + s.burstIndex[p] + 1)
      && (!P[p].cpuBound ==>
            r.counters.ioBoundDone == s.counters.ioBoundDone + 1
            && r.counters.ioBoundSwitches == s.counters.ioBoundSwitches + s.burstIndex[p] + 1)
  {
    var s3 := EndBurst(P, tcs, s, p);
    if s3.remainingBursts[p] > 0 then s3 else RecordSjfTermination(P, tcs, s3, p, s.burstIndex[p])
  }

  /**
   * What the SJF engine records when `p` terminates after running bursts
   * 0..`lastIndex`: its turnaround to the end of the switch-out, and one
   * finished process and `lastIndex + 1` switches for its class.
   */
  function RecordSjfTermination(P: seq<Process>, tcs: int, s: Sim, p: nat, lastIndex: int): (r: Sim)
    requires Shape(P, s) && p < |P|
    ensures Shape(P, r) && SameProgress(s, r) && r.queue == s.queue && r.cpu == s.cpu
    ensures r.turnaround == s.turnaround[p := s.clock + Half(tcs) - P[p].arrival]
    ensures r.tau == s.tau
    ensures SamePreemptions(s.counters, r.counters)
    ensures r.counters.finished == s.counters.finished && r.counters.busy == s.counters.busy
    ensures P[p].cpuBound ==>
      r.counters.cpuBoundDone == s.counters.cpuBoundDone + 1
      && r.counters.cpuBoundSwitches == s.counters.cpuBoundSwitches + lastIndex + 1
    ensures !P[p].cpuBound ==>
      r.counters.ioBoundDone == s.counters.ioBoundDone + 1
      && r.counters.ioBoundSwitches == s.counters.ioBoundSwitches + lastIndex + 1
  {
    var c := s.counters;
    var c' := if P[p].cpuBound then c.(cpuBoundDone := c.cpuBoundDone + 1, cpuBoundSwitches := c.cpuBoundSwitches + lastIndex + 1)
              else c.(ioBoundDone := c.ioBoundDone + 1, ioBoundSwitches := c.ioBoundSwitches + lastIndex + 1);
    s.(turnaround := s.turnaround[p := s.clock + Half(tcs) - P[p].arrival], counters := c')
  }

  /**
   * The SRT end of a burst: busy time grows by the whole burst; the
   * estimated variant (`alpha` present) re-estimates tau and clears the
   * prediction; on termination the turnaround is `clock - arrival`.
   */
  function EndBurstSrt(P: seq<Process>, tcs: int, alpha: Option<real>, s: Sim, p: nat): (r: Sim)
    requires Shape(P, s) && p < |P|
    ensures Shape(P, r) && r.cpu == None && r.queue == s.queue && r.idleUntil == s.clock + Half(tcs)
    ensures BurstEnded(P, tcs, s, r, p)
    ensures SamePreemptions(s.counters, r.counters) && SameSwitches(s.counters, r.counters)
    ensures r.counters.busy == s.counters.busy + P[p].CpuBurst(s.burstIndex[p])
    ensures alpha.Some? ==> r.tau[p] == Tau.CalculateTau(alpha.value, s.tau[p], P[p].CpuBurst(s.burstIndex[p])) && r.predicted[p] == 0
    ensures alpha.None? ==> r.tau == s.tau && r.predicted == s.predicted
    ensures s.remainingBursts[p] <= 1 ==> r.turnaround[p] == s.clock - P[p].arrival
  {
    var actual := P[p].CpuBurst(s.burstIndex[p]);
    var s1 := if alpha.Some? then s.(tau := s.tau[p := Tau.CalculateTau(alpha.value, s.tau[p], actual)]) else s;
    var s2 := s1.(counters := s1.counters.(busy := s1.counters.busy + actual));
    Release(tcs, SrtAfterBurst(P, tcs, alpha.Some?, s2, p, s.clock - P[p].arrival))
  }

  /** The SRT burst end after the busy time and tau are charged: bookkeeping, turnaround, prediction reset. */
  function SrtAfterBurst(P: seq<Process>, tcs: int, estimated: bool, s: Sim, p: nat, turnaround: int): (r: Sim)
    requires Shape(P, s) && p < |P|
    ensures Shape(P, r) && r.cpu == s.cpu && r.queue == s.queue && r.tau == s.tau
    ensures BurstEnded(P, tcs, s, r, p) && r.counters == s.counters.(finished := r.counters.finished)
    ensures estimated ==> r.predicted[p] == 0
    ensures !estimated ==> r.predicted == s.predicted
    ensures s.remainingBursts[p] <= 1 ==> r.turnaround[p] == turnaround
  {
    var s3 := EndBurst(P, tcs, s, p);
    var s4 := if s3.remainingBursts[p] > 0 then s3 else s3.(turnaround := s3.turnaround[p := turnaround]);
    if estimated then s4.(predicted := s4.predicted[p := 0]) else s4
  }

  /** Phase 3: acts only when a process is on the CPU and its burst ends now. */
  function Completion(alg: Algorithm, P: seq<Process>, tcs: int, s: Sim): (r: Sim)
    requires Shape(P, s)
    ensures Shape(P, r) && r.clock == s.clock
    ensures s.cpu.None? || s.clock != s.burstEnd ==> r == s
    ensures s.cpu.Some? && s.clock == s.burstEnd ==> r.cpu == None && r.idleUntil == s.clock + Half(tcs)
    ensures s.cpu.Some? && s.clock == s.burstEnd ==>
      || (alg.RoundRobin? && r.queue == s.queue + [s.cpu.value] && SameProgress(s, r) && r.counters == s.counters)
      || (r.queue == s.queue && BurstEnded(P, tcs, s, r, s.cpu.value) && SamePreemptions(s.counters, r.counters)
          && (!alg.Sjf? ==> SameSwitches(s.counters, r.counters)))
  {
    if s.cpu.None? || s.clock != s.burstEnd then s
    else
      var p := s.cpu.value;
      match alg
        case Fcfs => Release(tcs, EndBurst(P, tcs, s, p))
        case RoundRobin(timeSlice) => EndSliceRr(P, tcs, timeSlice, s, p)
        case Sjf(alpha) => EndBurstSjf(P, tcs, alpha, s, p)
        case SrtExact => EndBurstSrt(P, tcs, None, s, p)
        case SrtTau(alpha) => EndBurstSrt(P, tcs, Some(alpha), s, p)
  }

  // ---------------------------------------------------------------------
  // Phase 4: dispatch
  // ---------------------------------------------------------------------

  /** The length of the run `p` is handed on dispatch, and the state it leaves. */
  function StartRun(alg: Algorithm, P: seq<Process>, tcs: int, s: Sim, p: nat): (r: Sim)
    requires Shape(P, s) && p < |P|
    ensures Shape(P, r) && r.queue == s.queue && r.cpu == Some(p) && r.idleUntil == s.clock + Half(tcs)
    ensures alg.RoundRobin? ==>
      var slice := if s.remaining[p] > alg.timeSlice then alg.timeSlice else s.remaining[p];
      && r.burstEnd == s.clock + Half(tcs) + slice
      && r.remaining == s.remaining[p := s.remaining[p] - slice]
    ensures alg.Fcfs? || alg.Sjf? ==> r.burstEnd == s.clock + Half(tcs) + P[p].CpuBurst(s.burstIndex[p])
    ensures alg.Sjf? ==>
      && r.wait == s.wait[p := s.wait[p] + (s.clock - s.lastReady[p])]
      && r.lastReady == s.lastReady[p := r.burstEnd]
      && r.counters == s.counters.(switches := s.counters.switches + 1)
    ensures alg.SrtExact? || alg.SrtTau? ==>
      && r.burstEnd == s.clock + Half(tcs) + (if s.preempted[p] then s.remaining[p] else P[p].CpuBurst(s.burstIndex[p]))
      && !r.preempted[p]
      && r.wait == s.wait[p := s.wait[p] + (s.clock - P[p].arrival)]
      && r.counters == CountSwitch(s.counters, P[p].cpuBound)
    ensures alg.Fcfs? || alg.RoundRobin? ==> r.counters == s.counters
    ensures SameProgress(s, r)
  {
    var start := s.clock + Half(tcs);
    var s1 := s.(cpu := Some(p), idleUntil := start);
    var burst := P[p].CpuBurst(s.burstIndex[p]);
    match alg
      case Fcfs => s1.(burstEnd := start + burst)
      case RoundRobin(timeSlice) =>
        var slice := if s.remaining[p] > timeSlice then timeSlice else s.remaining[p];
        s1.(burstEnd := start + slice, remaining := s.remaining[p := s.remaining[p] - slice])
      case Sjf(_) =>
        s1.(wait := s.wait[p := s.wait[p] + (s.clock - s.lastReady[p])],
            lastReady := s.lastReady[p := start + burst],
            burstEnd := start + burst,
            counters := s.counters.(switches := s.counters.switches + 1))
      case _ =>
        var rem := if s.preempted[p] then s.remaining else s.remaining[p := burst];
        s1.(preempted := s.preempted[p := false], remaining := rem,
            counters := CountSwitch(s.counters, P[p].cpuBound),
            wait := s.wait[p := s.wait[p] + (s.clock - P[p].arrival)],
            burstEnd := start + rem[p])
  }

  /**
   * The index the dispatched queue entry runs under. The SJF engine looks
   * the dequeued process up again by id and keeps the first index whose id
   * is the same C string; the others use the process's own index.
   */
  function RunIndex(alg: Algorithm, P: seq<Process>, q: nat): (p: nat)
    requires q < |P|
    ensures p <= q && ProcessIds.CString(P[p].id) == ProcessIds.CString(P[q].id)
    ensures alg.Sjf? ==> forall k :: 0 <= k < p ==> ProcessIds.CString(P[k].id) != ProcessIds.CString(P[q].id)
    ensures !alg.Sjf? ==> p == q
  {
    if alg.Sjf? then
      var ids := Ids(P);
      assert ids[q] == P[q].id;
      ProcessIds.IndexOf(ids, P[q].id) as nat
    else q
  }

  /** Phase 4: the queue head starts when the CPU is free, the queue non-empty and the switch-out over. */
  function Dispatch(alg: Algorithm, P: seq<Process>, tcs: int, s: Sim): (r: Sim)
    requires Shape(P, s)
    ensures Shape(P, r) && r.clock == s.clock
    ensures s.cpu.Some? || |s.queue| == 0 || s.clock < s.idleUntil ==> r == s
    ensures s.cpu.None? && |s.queue| > 0 && s.clock >= s.idleUntil ==>
      && r.queue == s.queue[1..] && r.cpu == Some(RunIndex(alg, P, s.queue[0])) && r.idleUntil == s.clock + Half(tcs)
      && (alg.SrtExact? || alg.SrtTau? ==> r.counters == CountSwitch(s.counters, P[s.queue[0]].cpuBound))
    ensures SameProgress(s, r) && SamePreemptions(s.counters, r.counters)
    ensures alg.Fcfs? || alg.RoundRobin? ==> SameSwitches(s.counters, r.counters)
    ensures r.counters.finished == s.counters.finished
  {
    if s.cpu.Some? || |s.queue| == 0 || s.clock < s.idleUntil then s
    else
      var p := RunIndex(alg, P, s.queue[0]);
      StartRun(alg, P, tcs, s.(queue := s.queue[1..]), p)
  }

  // ---------------------------------------------------------------------
  // The loop
  // ---------------------------------------------------------------------

  /**
   * One iteration of the `while (finished < n)` loop body. At most one
   * process finishes per tick, and only by the end of the running burst,
   * which releases the CPU with a switch-out: so a tick that finishes a
   * process leaves the switch-out ending half a switch after the tick's
   * time, whether or not the dispatch then starts another process.
   */
  function Tick(alg: Algorithm, P: seq<Process>, tcs: int, s: Sim): (r: Sim)
    requires Shape(P, s)
    ensures Shape(P, r) && r.clock == s.clock + 1
    ensures r.counters.finished == s.counters.finished || r.counters.finished == s.counters.finished + 1
    ensures r.counters.finished != s.counters.finished ==> r.idleUntil == s.clock + Half(tcs)
    ensures s.cpu.Some? && s.clock != s.burstEnd ==> r.counters.finished == s.counters.finished
  {
    var s1 := Arrivals(alg, P, tcs, s, 0);
    var s2 := IoCompletions(alg, P, tcs, s1, 0);
    var s3 := Completion(alg, P, tcs, s2);
    var s4 := Dispatch(alg, P, tcs, s3);
    s4.(clock := s4.clock + 1)
  }

  /**
   * Run the loop until every process has finished, or give up after
   * `fuel` ticks (the C loop has no bound of its own).
   */
  function RunFrom(alg: Algorithm, P: seq<Process>, tcs: int, s: Sim, fuel: nat): (r: Option<Sim>)
    requires Shape(P, s)
    ensures r.Some? ==> Shape(P, r.value) && r.value.counters.finished >= |P| && r.value.clock >= s.clock
    ensures s.counters.finished >= |P| ==> r == Some(s)
    decreases fuel, 2
  {
    if s.counters.finished >= |P| then Some(s)
    else NextPass(alg, P, tcs, s, fuel)
  }

  /** The loop condition held: give up if the fuel is spent, otherwise make one more pass. */
  function NextPass(alg: Algorithm, P: seq<Process>, tcs: int, s: Sim, fuel: nat): (r: Option<Sim>)
    requires Shape(P, s)
    ensures fuel == 0 ==> r == None
    ensures r.Some? ==> Shape(P, r.value) && r.value.counters.finished >= |P| && r.value.clock > s.clock
    decreases fuel, 1
  {
    if fuel == 0 then None
    else TickThenRun(alg, P, tcs, s, fuel)
  }

  /** One pass of the loop body, then the rest of the loop on one less unit of fuel. */
  function TickThenRun(alg: Algorithm, P: seq<Process>, tcs: int, s: Sim, fuel: nat): (r: Option<Sim>)
    requires Shape(P, s) && fuel > 0
    ensures r.Some? ==> Shape(P, r.value) && r.value.counters.finished >= |P| && r.value.clock > s.clock
    decreases fuel, 0
  {
    RunFrom(alg, P, tcs, Tick(alg, P, tcs, s), fuel - 1)
  }

  /** The time the "Simulator ended" line reports. */
  function EndTime(alg: Algorithm, tcs: int, s: Sim): (t: int)
    ensures alg.SrtTau? ==> t == s.clock + Half(tcs) - 1
    ensures !alg.SrtTau? ==> t == s.clock + 1
  {
    if alg.SrtTau? then s.clock + Half(tcs) - 1 else s.clock + 1
  }

  datatype Outcome =
    | Rejected(message: string)
    | OutOfFuel
    | Finished(final: Sim, endTime: int)

  /**
   * A whole run. The SJF engine refuses an `alpha` that is neither -1 nor
   * in [0, 1] before simulating anything; the others accept any parameters.
   */
  function Simulate(alg: Algorithm, P: seq<Process>, tcs: int, initialTau: int, fuel: nat): (o: Outcome)
    ensures o.Rejected? <==> alg.Sjf? && !Tau.SjfAlphaAccepted(alg.alpha)
    ensures o.Finished? ==> Shape(P, o.final) && o.final.counters.finished >= |P| && o.endTime == EndTime(alg, tcs, o.final)
  {
    if alg.Sjf? && !Tau.SjfAlphaAccepted(alg.alpha) then Rejected("Invalid alpha value")
    else match RunFrom(alg, P, tcs, Init(alg, P, initialTau), fuel)
      case None => OutOfFuel
      case Some(f) => Finished(f, EndTime(alg, tcs, f))
  }
}
