/**
 * Safety of the tick loop. At every point of a tick each process is in
 * exactly one place — not yet arrived, in the ready queue, on the CPU,
 * blocked on I/O, or terminated — its burst count and burst index agree,
 * and the finished counter counts the terminated processes. So the loop
 * can stop only once every process has run all of its bursts.
 */
module Safety {
  import opened Wrappers
  import opened Workload
  import opened SimState
  import opened ReadyOrder
  import opened Engine
  import ProcessIds

  /**
   * The inputs the engines are given: processes shaped as the generator
   * makes them, with ids distinct as C strings, and a non-negative switch time.
   */
  predicate WellFormed(P: seq<Process>, tcs: int) {
    && tcs >= 0
    && (forall i :: 0 <= i < |P| ==> WellShaped(P[i]))
    && (forall a, b :: 0 <= a < b < |P| ==> ProcessIds.CString(P[a].id) != ProcessIds.CString(P[b].id))
  }

  /**
   * The ids main.c generates meet the distinctness the engines rely on as
   * long as there are at most 1910 processes.
   */
  lemma GeneratedIdsAreDistinct(P: seq<Process>)
    requires ProcessIds.GeneratedIds(Ids(P)) && |P| <= 1910
    ensures forall a, b :: 0 <= a < b < |P| ==> ProcessIds.CString(P[a].id) != ProcessIds.CString(P[b].id)
  {
    ProcessIds.GeneratedIdsDistinct(Ids(P));
  }

  // ---------------------------------------------------------------------
  // Counting terminated processes
  // ---------------------------------------------------------------------

  /** How many entries of a burst-count array are zero. */
  function CountDone(rb: seq<int>): (n: nat)
    ensures n <= |rb|
  {
    if rb == [] then 0 else CountDone(rb[..|rb| - 1]) + (if rb[|rb| - 1] == 0 then 1 else 0)
  }

  lemma {:induction false} CountDoneUpdate(rb: seq<int>, p: nat, v: int)
    requires p < |rb|
    ensures CountDone(rb[p := v]) == CountDone(rb) - (if rb[p] == 0 then 1 else 0) + (if v == 0 then 1 else 0)
    decreases |rb|
  {
    var last := |rb| - 1;
    if p == last {
      assert rb[p := v][..last] == rb[..last];
    } else {
      assert rb[p := v][..last] == rb[..last][p := v];
      CountDoneUpdate(rb[..last], p, v);
    }
  }

  lemma {:induction false} CountDoneFull(rb: seq<int>)
    requires CountDone(rb) >= |rb|
    ensures forall i :: 0 <= i < |rb| ==> rb[i] == 0
    decreases |rb|
  {
    if rb != [] {
      var last := |rb| - 1;
      CountDoneFull(rb[..last]);
      assert forall i :: 0 <= i < last ==> rb[..last][i] == rb[i];
    }
  }

  lemma {:induction false} CountDoneNone(rb: seq<int>)
    requires forall i :: 0 <= i < |rb| ==> rb[i] != 0
    ensures CountDone(rb) == 0
    decreases |rb|
  {
    if rb != [] {
      var last := |rb| - 1;
      assert forall i :: 0 <= i < last ==> rb[..last][i] == rb[i];
      CountDoneNone(rb[..last]);
    }
  }

  // ---------------------------------------------------------------------
  // The invariant
  // ---------------------------------------------------------------------

  /**
   * Process `i` has arrived once the arrival loop of its arrival tick has
   * passed it: `ak` is how far that loop has got in the current tick.
   */
  predicate Arrived(P: seq<Process>, s: Sim, i: nat, ak: int)
    requires i < |P|
  {
    P[i].arrival < s.clock || (P[i].arrival == s.clock && i < ak)
  }

  /**
   * Process `i` is consistent: at most once in the queue, never both
   * queued and running or blocked, bursts left whenever it is anywhere,
   * its pending I/O not yet missed by the I/O loop (`ik` is how far that
   * loop has got), placed somewhere if it arrived and has bursts left, and
   * untouched if it has not arrived.
   */
  predicate ProcOk(P: seq<Process>, s: Sim, i: nat, ak: int, ik: int)
    requires Shape(P, s) && i < |P|
  {
    var inQ := multiset(s.queue)[i];
    var running := s.cpu == Some(i);
    var io := s.ioDone[i];
    var nb := P[i].NumBursts();
    var rb := s.remainingBursts[i];
    && inQ <= 1
    && 0 <= rb <= nb
    && s.burstIndex[i] == (if rb > 0 then nb - rb else nb - 1)
    && (inQ > 0 ==> !running && io == 0 && rb > 0)
    && (running ==> io == 0 && rb > 0)
    && (io != 0 ==> rb > 0 && (io > s.clock || (io == s.clock && i >= ik)))
    && (if Arrived(P, s, i, ak) then (rb > 0 ==> inQ > 0 || running || io != 0)
        else inQ == 0 && !running && io == 0 && rb == nb)
  }

  /** The counters agree with the process states. */
  predicate CountersOk(alg: Algorithm, s: Sim) {
    && s.counters.finished == CountDone(s.remainingBursts)
    && s.counters.preemptions == s.counters.cpuBoundPreemptions + s.counters.ioBoundPreemptions
    && (alg.SrtExact? || alg.SrtTau? ==>
          s.counters.switches == s.counters.cpuBoundSwitches + s.counters.ioBoundSwitches)
  }

  predicate Inv(alg: Algorithm, P: seq<Process>, tcs: int, s: Sim, ak: int, ik: int) {
    && WellFormed(P, tcs)
    && Shape(P, s)
    && s.clock >= 0
    && (forall i :: 0 <= i < |P| ==> ProcOk(P, s, i, ak, ik))
    && CountersOk(alg, s)
  }

  // ---------------------------------------------------------------------
  // Helpers shared by the phase proofs
  // ---------------------------------------------------------------------

  /** A process whose place and progress did not change keeps its invariant. */
  lemma ProcOkFrame(P: seq<Process>, s: Sim, r: Sim, j: nat, ak: int, ik: int, ak': int, ik': int)
    requires Shape(P, s) && Shape(P, r) && j < |P| && r.clock == s.clock
    requires ProcOk(P, s, j, ak, ik)
    requires multiset(r.queue)[j] == multiset(s.queue)[j]
    requires (r.cpu == Some(j)) == (s.cpu == Some(j))
    requires r.ioDone[j] == s.ioDone[j] && r.remainingBursts[j] == s.remainingBursts[j]
    requires r.burstIndex[j] == s.burstIndex[j]
    requires Arrived(P, r, j, ak') == Arrived(P, s, j, ak)
    requires (j >= ik') == (j >= ik) || s.ioDone[j] != s.clock || s.ioDone[j] == 0
    ensures ProcOk(P, r, j, ak', ik')
  {
  }

  /**
   * A ready process `x` that was nowhere joins the queue (possibly
   * preempting the occupant into the queue too); nothing else moves.
   */
  lemma JoinKeepsInv(alg: Algorithm, P: seq<Process>, tcs: int, s: Sim, r: Sim, x: nat,
                     ak: int, ik: int, ak': int, ik': int)
    requires Inv(alg, P, tcs, s, ak, ik)
    requires Shape(P, r) && r.clock == s.clock && x < |P|
    requires Joins(P, s, r, x)
    requires r.remainingBursts == s.remainingBursts && r.burstIndex == s.burstIndex
    requires r.ioDone == s.ioDone[x := 0]
    requires multiset(s.queue)[x] == 0 && s.cpu != Some(x) && s.remainingBursts[x] > 0
    requires Arrived(P, r, x, ak')
    requires forall j :: 0 <= j < |P| && j != x ==> Arrived(P, r, j, ak') == Arrived(P, s, j, ak)
    requires ik' == ik || (ik' == ik + 1 && ik == x)
    ensures Inv(alg, P, tcs, r, ak', ik')
  {
    forall j | 0 <= j < |P|
      ensures ProcOk(P, r, j, ak', ik')
    {
      assert ProcOk(P, s, j, ak, ik);
      if j == x {
      } else if s.cpu == Some(j) && r.cpu == None {
        assert multiset(r.queue)[j] == multiset(s.queue)[j] + 1;
      } else {
        ProcOkFrame(P, s, r, j, ak, ik, ak', ik');
      }
    }
  }

  // ---------------------------------------------------------------------
  // Phase 1: arrivals
  // ---------------------------------------------------------------------

  lemma ArriveOneKeepsInv(alg: Algorithm, P: seq<Process>, tcs: int, s: Sim, k: nat)
    requires k < |P| && Inv(alg, P, tcs, s, k, 0)
    ensures Inv(alg, P, tcs, ArriveOne(alg, P, tcs, s, k), k + 1, 0)
  {
    if P[k].arrival != s.clock {
      NoArrivalKeepsInv(alg, P, tcs, s, k);
    } else {
      ArrivalKeepsInv(alg, P, tcs, s, k);
    }
  }

  /** A process that arrives now joins the ready set exactly once. */
  lemma ArrivalKeepsInv(alg: Algorithm, P: seq<Process>, tcs: int, s: Sim, k: nat)
    requires k < |P| && Inv(alg, P, tcs, s, k, 0) && P[k].arrival == s.clock
    ensures Inv(alg, P, tcs, ArriveOne(alg, P, tcs, s, k), k + 1, 0)
  {
    assert ProcOk(P, s, k, k, 0);
    assert WellShaped(P[k]);
    ArrivalJoins(alg, P, tcs, s, k);
    JoinKeepsInv(alg, P, tcs, s, ArriveOne(alg, P, tcs, s, k), k, k, 0, k + 1, 0);
  }

  /** The facts about an arrival that `JoinKeepsInv` needs, apart from the invariant. */
  lemma ArrivalJoins(alg: Algorithm, P: seq<Process>, tcs: int, s: Sim, k: nat)
    requires Shape(P, s) && k < |P| && P[k].arrival == s.clock && s.ioDone[k] == 0
    ensures var r := ArriveOne(alg, P, tcs, s, k);
      && Shape(P, r) && r.clock == s.clock && Joins(P, s, r, k)
      && r.remainingBursts == s.remainingBursts && r.burstIndex == s.burstIndex
      && r.ioDone == s.ioDone[k := 0]
      && Arrived(P, r, k, k + 1)
      && (forall j :: 0 <= j < |P| && j != k ==> Arrived(P, r, j, k + 1) == Arrived(P, s, j, k))
  {
    assert s.ioDone[k := 0] == s.ioDone;
  }

  /** A process that does not arrive now leaves the state as it was, one index further on. */
  lemma NoArrivalKeepsInv(alg: Algorithm, P: seq<Process>, tcs: int, s: Sim, k: nat)
    requires k < |P| && Inv(alg, P, tcs, s, k, 0) && P[k].arrival != s.clock
    ensures Inv(alg, P, tcs, ArriveOne(alg, P, tcs, s, k), k + 1, 0)
  {
    var r, k' := ArriveOne(alg, P, tcs, s, k), k + 1;
    assert r == s;
    forall j | 0 <= j < |P|
      ensures ProcOk(P, r, j, k', 0)
    {
      assert ProcOk(P, s, j, k, 0);
      ProcOkFrame(P, s, r, j, k, 0, k', 0);
    }
  }

  lemma {:induction false} ArrivalsKeepInv(alg: Algorithm, P: seq<Process>, tcs: int, s: Sim, k: nat)
    requires k <= |P| && Inv(alg, P, tcs, s, k, 0)
    ensures Inv(alg, P, tcs, Arrivals(alg, P, tcs, s, k), |P|, 0)
    decreases |P| - k
  {
    if k < |P| {
      ArriveOneKeepsInv(alg, P, tcs, s, k);
      ArrivalsKeepInv(alg, P, tcs, ArriveOne(alg, P, tcs, s, k), k + 1);
    }
  }

  // ---------------------------------------------------------------------
  // Phase 2: I/O completions
  // ---------------------------------------------------------------------

  lemma IoOneKeepsInv(alg: Algorithm, P: seq<Process>, tcs: int, s: Sim, k: nat)
    requires k < |P| && Inv(alg, P, tcs, s, |P|, k)
    ensures Inv(alg, P, tcs, IoOne(alg, P, tcs, s, k), |P|, k + 1)
  {
    var r := IoOne(alg, P, tcs, s, k);
    var n := |P|;
    var next := k + 1;
    if s.ioDone[k] == 0 || s.ioDone[k] != s.clock {
      forall j | 0 <= j < n
        ensures ProcOk(P, r, j, n, next)
      {
        assert ProcOk(P, s, j, n, k);
        ProcOkFrame(P, s, r, j, n, k, n, next);
      }
    } else {
      assert ProcOk(P, s, k, n, k);
      assert Arrived(P, s, k, n);
      JoinKeepsInv(alg, P, tcs, s, r, k, n, k, n, next);
    }
  }

  lemma {:induction false} IoCompletionsKeepInv(alg: Algorithm, P: seq<Process>, tcs: int, s: Sim, k: nat)
    requires k <= |P| && Inv(alg, P, tcs, s, |P|, k)
    ensures Inv(alg, P, tcs, IoCompletions(alg, P, tcs, s, k), |P|, |P|)
    decreases |P| - k
  {
    if k < |P| {
      IoOneKeepsInv(alg, P, tcs, s, k);
      IoCompletionsKeepInv(alg, P, tcs, IoOne(alg, P, tcs, s, k), k + 1);
    }
  }

  // ---------------------------------------------------------------------
  // Phase 3: the end of a burst
  // ---------------------------------------------------------------------

  /** After a real end of burst, the ended process is blocked on I/O in the future or terminated. */
  lemma BurstEndedKeepsInv(alg: Algorithm, P: seq<Process>, tcs: int, s: Sim, r: Sim, p: nat)
    requires Inv(alg, P, tcs, s, |P|, |P|) && s.cpu == Some(p) && p < |P|
    requires Shape(P, r) && r.clock == s.clock && r.queue == s.queue && r.cpu == None
    requires BurstEnded(P, tcs, s, r, p) && SamePreemptions(s.counters, r.counters)
    requires alg.SrtExact? || alg.SrtTau? ==> SameSwitches(s.counters, r.counters)
    ensures Inv(alg, P, tcs, r, |P|, |P|)
  {
    assert ProcOk(P, s, p, |P|, |P|);
    var rb := s.remainingBursts[p];
    var nb := P[p].NumBursts();
    assert WellShaped(P[p]);
    if rb > 1 {
      var b := s.burstIndex[p];
      assert 0 <= b < |P[p].ioBursts|;
      assert P[p].IoBurst(b) >= 8;
    }
    CountDoneUpdate(s.remainingBursts, p, rb - 1);
    forall j | 0 <= j < |P|
      ensures ProcOk(P, r, j, |P|, |P|)
    {
      assert ProcOk(P, s, j, |P|, |P|);
      if j != p {
        ProcOkFrame(P, s, r, j, |P|, |P|, |P|, |P|);
      }
    }
  }

  lemma CompletionKeepsInv(alg: Algorithm, P: seq<Process>, tcs: int, s: Sim)
    requires Inv(alg, P, tcs, s, |P|, |P|)
    ensures Inv(alg, P, tcs, Completion(alg, P, tcs, s), |P|, |P|)
  {
    var r := Completion(alg, P, tcs, s);
    if s.cpu.Some? && s.clock == s.burstEnd {
      var p := s.cpu.value;
      assert ProcOk(P, s, p, |P|, |P|);
      if alg.RoundRobin? && r.queue == s.queue + [p] && SameProgress(s, r) && r.counters == s.counters {
        forall j | 0 <= j < |P|
          ensures ProcOk(P, r, j, |P|, |P|)
        {
          assert ProcOk(P, s, j, |P|, |P|);
          assert multiset(r.queue) == multiset(s.queue) + multiset{p};
          if j != p {
            ProcOkFrame(P, s, r, j, |P|, |P|, |P|, |P|);
          }
        }
      } else {
        BurstEndedKeepsInv(alg, P, tcs, s, r, p);
      }
    }
  }

  // ---------------------------------------------------------------------
  // Phase 4: dispatch
  // ---------------------------------------------------------------------

  /** With ids distinct as C strings, the index looked up by id is the dequeued one. */
  lemma RunIndexIsHead(alg: Algorithm, P: seq<Process>, tcs: int, q: nat)
    requires WellFormed(P, tcs) && q < |P|
    ensures RunIndex(alg, P, q) == q
  {
  }

  lemma DispatchKeepsInv(alg: Algorithm, P: seq<Process>, tcs: int, s: Sim)
    requires Inv(alg, P, tcs, s, |P|, |P|)
    ensures Inv(alg, P, tcs, Dispatch(alg, P, tcs, s), |P|, |P|)
  {
    var r := Dispatch(alg, P, tcs, s);
    if s.cpu.None? && |s.queue| > 0 && s.clock >= s.idleUntil {
      var q := s.queue[0];
      RunIndexIsHead(alg, P, tcs, q);
      assert s.queue == [q] + s.queue[1..];
      assert multiset(s.queue) == multiset{q} + multiset(r.queue);
      forall j | 0 <= j < |P|
        ensures ProcOk(P, r, j, |P|, |P|)
      {
        assert ProcOk(P, s, j, |P|, |P|);
        if j != q {
          ProcOkFrame(P, s, r, j, |P|, |P|, |P|, |P|);
        }
      }
    }
  }

  // ---------------------------------------------------------------------
  // The whole tick and the loop
  // ---------------------------------------------------------------------

  /** Advancing the clock closes the tick: the loops start again from index 0. */
  lemma NextTickKeepsInv(alg: Algorithm, P: seq<Process>, tcs: int, s: Sim)
    requires Inv(alg, P, tcs, s, |P|, |P|)
    ensures Inv(alg, P, tcs, s.(clock := s.clock + 1), 0, 0)
  {
    var r := s.(clock := s.clock + 1);
    forall j | 0 <= j < |P|
      ensures ProcOk(P, r, j, 0, 0)
    {
      assert ProcOk(P, s, j, |P|, |P|);
    }
  }

  lemma TickKeepsInv(alg: Algorithm, P: seq<Process>, tcs: int, s: Sim)
    requires Inv(alg, P, tcs, s, 0, 0)
    ensures Inv(alg, P, tcs, Tick(alg, P, tcs, s), 0, 0)
  {
    ArrivalsKeepInv(alg, P, tcs, s, 0);
    var s1 := Arrivals(alg, P, tcs, s, 0);
    assert Inv(alg, P, tcs, s1, |P|, 0);
    IoCompletionsKeepInv(alg, P, tcs, s1, 0);
    var s2 := IoCompletions(alg, P, tcs, s1, 0);
    CompletionKeepsInv(alg, P, tcs, s2);
    var s3 := Completion(alg, P, tcs, s2);
    DispatchKeepsInv(alg, P, tcs, s3);
    var s4 := Dispatch(alg, P, tcs, s3);
    NextTickKeepsInv(alg, P, tcs, s4);
    assert Tick(alg, P, tcs, s) == s4.(clock := s4.clock + 1);
  }

  /** The invariant holds before the first tick. */
  lemma InitKeepsInv(alg: Algorithm, P: seq<Process>, tcs: int, initialTau: int)
    requires WellFormed(P, tcs)
    ensures Inv(alg, P, tcs, Init(alg, P, initialTau), 0, 0)
  {
    var s := Init(alg, P, initialTau);
    forall j | 0 <= j < |P|
      ensures ProcOk(P, s, j, 0, 0)
    {
      assert WellShaped(P[j]);
    }
    CountDoneNone(s.remainingBursts);
  }

  /** A run that starts where the invariant holds ends, if it ends within the fuel, where it holds too. */
  lemma RunFromKeepsInv(alg: Algorithm, P: seq<Process>, tcs: int, s: Sim, fuel: nat)
    requires Inv(alg, P, tcs, s, 0, 0)
    ensures var r := RunFrom(alg, P, tcs, s, fuel); r.Some? ==> Inv(alg, P, tcs, r.value, 0, 0)
  {
    var r := RunFrom(alg, P, tcs, s, fuel);
    if r.Some? {
      RunEndsInInv(alg, P, tcs, s, fuel, r.value);
    }
  }

  /** The same, followed to the state `f` the loop ends in. */
  lemma {:induction false} RunEndsInInv(alg: Algorithm, P: seq<Process>, tcs: int, s: Sim, fuel: nat, f: Sim)
    requires Inv(alg, P, tcs, s, 0, 0) && RunFrom(alg, P, tcs, s, fuel) == Some(f)
    ensures Inv(alg, P, tcs, f, 0, 0)
    decreases fuel
  {
    if s.counters.finished < |P| && fuel > 0 {
      var next, fuel' := RunFromStep(alg, P, tcs, s, fuel, f);
      RunEndsInInv(alg, P, tcs, next, fuel', f);
    }
  }

  /**
   * One turn of a loop that has not finished: the next state keeps the
   * invariant, and the rest of the run, on one less unit of fuel, ends in
   * the same state.
   */
  lemma RunFromStep(alg: Algorithm, P: seq<Process>, tcs: int, s: Sim, fuel: nat, f: Sim) returns (next: Sim, fuel': nat)
    requires Inv(alg, P, tcs, s, 0, 0) && s.counters.finished < |P| && fuel > 0 && RunFrom(alg, P, tcs, s, fuel) == Some(f)
    ensures Inv(alg, P, tcs, next, 0, 0) && fuel' < fuel
    ensures RunFrom(alg, P, tcs, next, fuel') == Some(f)
  {
    next, fuel' := RunFromUnfolds(alg, P, tcs, s, fuel, f);
    TickKeepsInv(alg, P, tcs, s);
  }

  /** A loop that has not finished and has fuel left runs one tick and goes on. */
  lemma RunFromUnfolds(alg: Algorithm, P: seq<Process>, tcs: int, s: Sim, fuel: nat, f: Sim) returns (next: Sim, fuel': nat)
    requires Shape(P, s) && s.counters.finished < |P| && fuel > 0 && RunFrom(alg, P, tcs, s, fuel) == Some(f)
    ensures next == Tick(alg, P, tcs, s) && fuel' == fuel - 1
    ensures RunFrom(alg, P, tcs, next, fuel') == Some(f)
  {
    next, fuel' := Tick(alg, P, tcs, s), fuel - 1;
    assert RunFrom(alg, P, tcs, s, fuel) == NextPass(alg, P, tcs, s, fuel);
    assert NextPass(alg, P, tcs, s, fuel) == TickThenRun(alg, P, tcs, s, fuel);
    assert TickThenRun(alg, P, tcs, s, fuel) == RunFrom(alg, P, tcs, next, fuel');
  }

  /** A state where the invariant holds and the loop condition fails has nothing left to run. */
  lemma FinalStateIsEmpty(alg: Algorithm, P: seq<Process>, tcs: int, f: Sim)
    requires Inv(alg, P, tcs, f, 0, 0) && f.counters.finished >= |P|
    ensures f.queue == [] && f.cpu == None && f.counters.finished == |P|
    ensures forall i :: 0 <= i < |P| ==>
      f.remainingBursts[i] == 0 && f.ioDone[i] == 0 && f.burstIndex[i] == P[i].NumBursts() - 1
  {
    CountDoneFull(f.remainingBursts);
    forall i | 0 <= i < |P|
      ensures f.remainingBursts[i] == 0 && f.ioDone[i] == 0 && multiset(f.queue)[i] == 0 && f.cpu != Some(i)
      ensures f.burstIndex[i] == P[i].NumBursts() - 1
    {
      assert ProcOk(P, f, i, 0, 0);
    }
  }

  /**
   * A run that ends has run every process to termination: no bursts left,
   * the burst index on the last burst, no I/O pending, the queue empty and
   * the CPU free; and the finished count is exactly the number of processes.
   */
  lemma SimulationFinishesEveryProcess(alg: Algorithm, P: seq<Process>, tcs: int, initialTau: int, fuel: nat)
    requires WellFormed(P, tcs)
    ensures var o := Simulate(alg, P, tcs, initialTau, fuel);
      o.Finished? ==>
        && o.final.queue == [] && o.final.cpu == None
        && o.final.counters.finished == |P|
        && forall i :: 0 <= i < |P| ==>
             o.final.remainingBursts[i] == 0 && o.final.ioDone[i] == 0
             && o.final.burstIndex[i] == P[i].NumBursts() - 1
  {
    var o := Simulate(alg, P, tcs, initialTau, fuel);
    if o.Finished? {
      var s0 := Init(alg, P, initialTau);
      InitKeepsInv(alg, P, tcs, initialTau);
      assert RunFrom(alg, P, tcs, s0, fuel) == Some(o.final);
      RunEndsInInv(alg, P, tcs, s0, fuel, o.final);
      FinalStateIsEmpty(alg, P, tcs, o.final);
    }
  }
}
