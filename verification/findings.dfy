/**
 * The one place the exact SRT engine loses a process. Its I/O loop skips
 * inserting a returning process whenever the engine-wide preemption flag is
 * set, and only the I/O loop clears that flag. An arrival that preempts in
 * the arrival loop therefore leaves the flag set for the next I/O
 * completion, whose process then lands nowhere: not queued, not running,
 * not blocked, yet not terminated. The engine uses the corrected
 * completion, `Engine.IoExact`, which skips the insertion only when that
 * completion itself preempted.
 */
module Findings {
  import opened Wrappers
  import opened Workload
  import opened SimState
  import opened Engine

  /**
   * An arrival that preempts sets the flag and frees the CPU; a process whose
   * I/O completes in the same tick is then dropped by the loop as written,
   * and queued exactly once by the corrected completion.
   */
  lemma ArrivalPreemptionLosesIoCompletion(P: seq<Process>, tcs: int, s: Sim, a: nat, i: nat)
    requires Shape(P, s) && a < |P| && i < |P| && a != i
    requires s.cpu.Some? && s.cpu.value != i && multiset(s.queue)[i] == 0
    requires P[a].CpuBurst(s.burstIndex[a]) < P[s.cpu.value].CpuBurst(s.burstIndex[s.cpu.value])
    ensures ArriveExact(P, tcs, s, a).preemptFlag && ArriveExact(P, tcs, s, a).cpu == None
    ensures var lost := IoExactAsWritten(P, tcs, ArriveExact(P, tcs, s, a), i);
      multiset(lost.queue)[i] == 0 && lost.cpu == None && lost.ioDone[i] == 0
      && lost.remainingBursts[i] == s.remainingBursts[i]
    ensures multiset(IoExact(P, tcs, ArriveExact(P, tcs, s, a), i).queue)[i] == 1
  {
    ArrivalPreempts(P, tcs, s, a, i);
  }

  /** The arrival half on its own: the flag set, the CPU freed, `i` still not queued. */
  lemma ArrivalPreempts(P: seq<Process>, tcs: int, s: Sim, a: nat, i: nat)
    requires Shape(P, s) && a < |P| && i < |P| && a != i
    requires s.cpu.Some? && s.cpu.value != i && multiset(s.queue)[i] == 0
    requires P[a].CpuBurst(s.burstIndex[a]) < P[s.cpu.value].CpuBurst(s.burstIndex[s.cpu.value])
    ensures var r := ArriveExact(P, tcs, s, a);
      r.preemptFlag && r.cpu == None && multiset(r.queue)[i] == 0 && SameProgress(s, r)
  {
    var r := Preempt(P, tcs, s, a, false);
    assert ArriveExact(P, tcs, s, a) == r;
    assert multiset(r.queue) == multiset(s.queue) + multiset{a} + multiset{s.cpu.value};
  }

  /**
   * Nothing between two I/O loops clears the flag: the end of a burst, the
   * dispatch and the arrivals of the next tick all leave it set, so a flag
   * set by an arrival also drops an I/O completion in a later tick.
   */
  lemma FlagOutlivesTheTick(alg: Algorithm, P: seq<Process>, tcs: int, s: Sim)
    requires Shape(P, s) && s.preemptFlag
    ensures Completion(alg, P, tcs, s).preemptFlag
    ensures Dispatch(alg, P, tcs, s).preemptFlag
    ensures Arrivals(alg, P, tcs, s, 0).preemptFlag
  {
    CompletionKeepsFlag(alg, P, tcs, s);
    ArrivalsKeepFlag(alg, P, tcs, s, 0);
  }

  /**
   * The later loss in full: a flag still set when a tick ends survives the
   * burst end, the dispatch and the next tick's arrivals, and the next I/O
   * return that does not itself preempt is then dropped by the loop as
   * written, even while a process is running, whereas the corrected
   * completion queues it.
   */
  lemma StaleFlagLosesLaterIoCompletion(P: seq<Process>, tcs: int, s: Sim, i: nat)
    requires Shape(P, s) && i < |P| && s.preemptFlag
    ensures var c := Dispatch(SrtExact, P, tcs, Completion(SrtExact, P, tcs, s));
      var u := Arrivals(SrtExact, P, tcs, c.(clock := c.clock + 1), 0);
      && u.preemptFlag
      && (!ExactIoPreempts(P, u, i) ==>
            var lost := IoExactAsWritten(P, tcs, u, i);
            lost.queue == u.queue && lost.cpu == u.cpu && lost.ioDone[i] == 0)
      && (!ExactIoPreempts(P, u, i) && multiset(u.queue)[i] == 0 && u.cpu != Some(i) ==>
            var lost := IoExactAsWritten(P, tcs, u, i);
            && multiset(lost.queue)[i] == 0 && lost.cpu != Some(i)
            && multiset(IoExact(P, tcs, u, i).queue)[i] == 1)
  {
    var b := Completion(SrtExact, P, tcs, s);
    CompletionKeepsFlag(SrtExact, P, tcs, s);
    var c := Dispatch(SrtExact, P, tcs, b);
    assert c.preemptFlag;
    var n := c.(clock := c.clock + 1);
    assert Shape(P, n);
    ArrivalsKeepFlag(SrtExact, P, tcs, n, 0);
  }

  lemma CompletionKeepsFlag(alg: Algorithm, P: seq<Process>, tcs: int, s: Sim)
    requires Shape(P, s) && s.preemptFlag
    ensures Completion(alg, P, tcs, s).preemptFlag
  {
    if s.cpu.Some? && s.clock == s.burstEnd {
      var p := s.cpu.value;
      match alg {
        case Sjf(alpha) =>
          assert EndBurstSjf(P, tcs, alpha, s, p).preemptFlag;
        case SrtExact =>
          assert EndBurstSrt(P, tcs, None, s, p).preemptFlag;
        case SrtTau(alpha) =>
          assert EndBurstSrt(P, tcs, Some(alpha), s, p).preemptFlag;
        case _ =>
      }
    }
  }

  /** One turn of the arrival loop keeps the flag, and the rest of the loop starts from its result. */
  lemma ArriveOneKeepsFlag(alg: Algorithm, P: seq<Process>, tcs: int, s: Sim, k: nat) returns (n: Sim)
    requires Shape(P, s) && k < |P| && s.preemptFlag
    ensures Shape(P, n) && n.preemptFlag
    ensures Arrivals(alg, P, tcs, s, k) == Arrivals(alg, P, tcs, n, k + 1)
  {
    n := ArriveOne(alg, P, tcs, s, k);
  }

  lemma ArrivalsKeepFlag(alg: Algorithm, P: seq<Process>, tcs: int, s: Sim, k: nat)
    requires Shape(P, s) && s.preemptFlag
    ensures Arrivals(alg, P, tcs, s, k).preemptFlag
  {
    ArrivalsEndFlagged(alg, P, tcs, s, k, Arrivals(alg, P, tcs, s, k));
  }

  /** The arrival loop from index `k` on, followed to its result `f`. */
  lemma {:induction false} ArrivalsEndFlagged(alg: Algorithm, P: seq<Process>, tcs: int, s: Sim, k: nat, f: Sim)
    requires Shape(P, s) && s.preemptFlag && Arrivals(alg, P, tcs, s, k) == f
    ensures f.preemptFlag
    decreases |P| - k
  {
    if k < |P| {
      var n := ArriveOneKeepsFlag(alg, P, tcs, s, k);
      ArrivalsEndFlagged(alg, P, tcs, n, k + 1, f);
    }
  }

  /** With the flag clear, the loop as written and the corrected completion agree. */
  lemma CorrectionChangesOnlyStaleFlagCase(P: seq<Process>, tcs: int, s: Sim, i: nat)
    requires Shape(P, s) && i < |P| && !s.preemptFlag
    ensures IoExactAsWritten(P, tcs, s, i) == IoExact(P, tcs, s, i)
    ensures multiset(IoExact(P, tcs, s, i).queue)[i] == multiset(s.queue)[i] + 1
  {
  }
}
