/**
 * Behaviours of the C engines that a reader of their output would not
 * expect, stated as properties of the model, which follows the code.
 */
module Quirks {
  import opened Wrappers
  import opened Workload
  import opened SimState
  import opened Engine
  import ProcessIds

  /**
   * The round-robin slice: it never overdraws the burst, the remainder is
   * used up exactly when the burst fitted in one slice, and the end-of-slice
   * test (remainder at most one slice) passes exactly when the burst had
   * at most two slices' worth left at dispatch.
   */
  lemma RrSliceBounds(P: seq<Process>, tcs: int, timeSlice: int, s: Sim, p: nat)
    requires Shape(P, s) && p < |P| && timeSlice > 0 && s.remaining[p] >= 0
    ensures var after := StartRun(RoundRobin(timeSlice), P, tcs, s, p).remaining[p];
      && 0 <= after <= s.remaining[p]
      && (after == 0 <==> s.remaining[p] <= timeSlice)
      && (after <= timeSlice <==> s.remaining[p] <= 2 * timeSlice)
  {
  }

  /**
   * A burst with between one and two slices left is counted complete after
   * its first slice: the process leaves the CPU with one burst fewer although
   * part of the burst never ran.
   */
  lemma RrSecondSliceNeverRuns(P: seq<Process>, tcs: int, timeSlice: int, s: Sim, p: nat)
    requires Shape(P, s) && p < |P| && 0 < timeSlice < s.remaining[p] <= 2 * timeSlice
    ensures var started := StartRun(RoundRobin(timeSlice), P, tcs, s, p);
      && started.remaining[p] == s.remaining[p] - timeSlice > 0
      && started.burstEnd == s.clock + Half(tcs) + timeSlice
      && EndSliceRr(P, tcs, timeSlice, started, p).remainingBursts[p] == s.remainingBursts[p] - 1
  {
    var started := StartRun(RoundRobin(timeSlice), P, tcs, s, p);
    assert started.remaining[p] <= timeSlice;
  }

  /**
   * A slice that leaves more than one slice of the burst sends the process
   * to the tail of the ready queue even when nothing else is waiting, so a
   * lone process still pays a full context switch.
   */
  lemma RrLoneProcessIsRequeued(P: seq<Process>, tcs: int, timeSlice: int, s: Sim, p: nat)
    requires Shape(P, s) && p < |P| && |s.queue| == 0 && s.remaining[p] > timeSlice
    ensures EndSliceRr(P, tcs, timeSlice, s, p).queue == [p]
    ensures EndSliceRr(P, tcs, timeSlice, s, p).cpu == None
    ensures EndSliceRr(P, tcs, timeSlice, s, p).idleUntil == s.clock + Half(tcs)
  {
  }

  /**
   * With the CPU idle, an exact SRT I/O completion of any process but the
   * first writes the first process's remaining time (as if process 0 were
   * running a burst of 0 since the last switch); every other entry, except
   * the returning process's own, is kept.
   */
  lemma IdleIoCompletionOverwritesFirstSlot(P: seq<Process>, tcs: int, s: Sim, i: nat)
    requires Shape(P, s) && i < |P| && i != 0 && s.cpu.None?
    ensures IoExact(P, tcs, s, i).remaining[0] == s.idleUntil - s.clock
    ensures IoExact(P, tcs, s, i).remaining[i] == P[i].CpuBurst(s.burstIndex[i])
    ensures forall j :: 0 < j < |P| && j != i ==> IoExact(P, tcs, s, i).remaining[j] == s.remaining[j]
  {
    assert !ExactIoPreempts(P, s, i);
  }

  /**
   * A preempted first process resumes from the overwritten slot: after such
   * an I/O completion its next dispatch runs for `idleUntil - clock` of the
   * completion tick, never a positive length, instead of its saved remainder.
   */
  lemma OverwrittenResumeIsNotPositive(P: seq<Process>, tcs: int, s: Sim, i: nat, t: Sim)
    requires Shape(P, s) && i < |P| && i != 0 && s.cpu.None? && s.idleUntil <= s.clock
    requires var r := IoExact(P, tcs, s, i);
      t == r.(clock := t.clock) && t.preempted[0]
    ensures StartRun(SrtExact, P, tcs, t, 0).burstEnd - (t.clock + Half(tcs)) == s.idleUntil - s.clock <= 0
  {
    IdleIoCompletionOverwritesFirstSlot(P, tcs, s, i);
  }

  /** The remaining-time frame of the exact SRT I/O completion with a process on the CPU. */
  lemma BusyIoCompletionKeepsOthers(P: seq<Process>, tcs: int, s: Sim, i: nat)
    requires Shape(P, s) && i < |P| && s.cpu.Some? && s.cpu.value != i
    ensures forall j :: 0 <= j < |P| && j != i && j != s.cpu.value ==>
      IoExact(P, tcs, s, i).remaining[j] == s.remaining[j]
  {
    var rem := ExactIoRemaining(P, s, i);
    assert forall j :: 0 <= j < |P| && j != i && j != s.cpu.value ==> rem[j] == s.remaining[j];
  }

  /**
   * Exact SRT arrivals compare the newcomer's burst with the running
   * process's whole burst, not its remainder, and a tie does not preempt.
   */
  lemma ArrivalTieDoesNotPreempt(P: seq<Process>, tcs: int, s: Sim, i: nat)
    requires Shape(P, s) && i < |P| && s.cpu.Some?
    requires P[i].CpuBurst(s.burstIndex[i]) >= P[s.cpu.value].CpuBurst(s.burstIndex[s.cpu.value])
    ensures ArriveExact(P, tcs, s, i).cpu == s.cpu
    ensures ArriveExact(P, tcs, s, i).counters == s.counters
  {
  }

  /** The estimated SRT engine never preempts on arrival: the occupant keeps the CPU. */
  lemma TauArrivalNeverPreempts(alpha: real, P: seq<Process>, tcs: int, s: Sim, i: nat)
    requires Shape(P, s) && i < |P| && P[i].arrival == s.clock
    ensures ArriveOne(SrtTau(alpha), P, tcs, s, i).cpu == s.cpu
    ensures ArriveOne(SrtTau(alpha), P, tcs, s, i).counters == s.counters
    ensures multiset(ArriveOne(SrtTau(alpha), P, tcs, s, i).queue) == multiset(s.queue) + multiset{i}
  {
  }

  /**
   * With alpha = -1 the SJF key of every process is its first CPU burst,
   * whatever the state: the key never follows the process into its later
   * bursts, and two states give the same keys.
   */
  lemma SjfSentinelKeyIgnoresProgress(P: seq<Process>, s: Sim, t: Sim)
    requires Shape(P, s) && Shape(P, t)
    ensures SjfOrder(-1.0, P, s) == SjfOrder(-1.0, P, t)
    ensures forall i :: 0 <= i < |P| ==> SjfOrder(-1.0, P, s)[i] == P[i].CpuBurst(0)
  {
  }

  /**
   * With any other alpha and ids distinct as C strings, the id lookup finds the process
   * itself, so the key of process i is its own current tau.
   */
  lemma SjfKeyIsOwnTau(alpha: real, P: seq<Process>, s: Sim)
    requires Shape(P, s) && alpha != -1.0
    requires forall a, b :: 0 <= a < b < |P| ==> ProcessIds.CString(P[a].id) != ProcessIds.CString(P[b].id)
    ensures forall i :: 0 <= i < |P| ==> SjfOrder(alpha, P, s)[i] == s.tau[i]
  {
    forall i | 0 <= i < |P|
      ensures SjfOrder(alpha, P, s)[i] == s.tau[i]
    {
      ProcessIds.IndexOfDistinct(Ids(P), i);
    }
  }

  /**
   * With the ids `generate_process` stores and at least 1912 processes, SJF
   * runs a dequeued process 1911 under index 1910: the letter byte of both
   * labels is NUL, so both ids are the empty C string and the lookup stops
   * at the first.
   */
  lemma SjfRunsEmptyIdUnderFirstIndex(alpha: real, P: seq<Process>)
    requires ProcessIds.GeneratedIds(Ids(P)) && |P| >= 1912
    ensures RunIndex(Sjf(alpha), P, 1911) == 1910
  {
    ProcessIds.LookupCollapsesFrom1911(Ids(P));
  }

  /**
   * The reported end time against the last switch-out. In the tick that
   * finishes a process the CPU's switch-out ends half a switch later;
   * estimated SRT reports exactly that moment, while the other engines
   * report two milliseconds after the tick, which is the same moment only
   * when half a switch is 2 ms.
   */
  lemma EndTimeVersusSwitchOut(alg: Algorithm, P: seq<Process>, tcs: int, s: Sim)
    requires Shape(P, s)
    ensures var r := Tick(alg, P, tcs, s);
      r.counters.finished != s.counters.finished ==>
      && r.idleUntil == s.clock + Half(tcs)
      && (alg.SrtTau? ==> EndTime(alg, tcs, r) == r.idleUntil)
      && (!alg.SrtTau? ==> EndTime(alg, tcs, r) == s.clock + 2)
      && (EndTime(alg, tcs, r) == r.idleUntil <==> alg.SrtTau? || Half(tcs) == 2)
  {
  }
}
