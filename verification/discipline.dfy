/**
 * The order in which newly ready processes enter a FIFO ready queue (FCFS
 * and round robin): in each tick the arrivals, then the I/O completions,
 * are appended in increasing process index.
 */
module Discipline {
  import opened Wrappers
  import opened Workload
  import opened SimState
  import opened Engine

  /** The indices from `k` on of the processes arriving at time `c`, in increasing order. */
  function ArrivingFrom(P: seq<Process>, c: int, k: nat): (r: seq<nat>)
    decreases |P| - k
  {
    if k >= |P| then [] else (if P[k].arrival == c then [k] else []) + ArrivingFrom(P, c, k + 1)
  }

  /** The indices from `k` on whose I/O (a non-zero completion time) completes at `c`, in increasing order. */
  function DueFrom(io: seq<int>, c: int, k: nat): (r: seq<nat>)
    decreases |io| - k
  {
    if k >= |io| then [] else (if io[k] != 0 && io[k] == c then [k] else []) + DueFrom(io, c, k + 1)
  }

  /** `io` with every completion from index `k` on that is due at `c` cleared, one index at a time. */
  function ClearDue(io: seq<int>, c: int, k: nat): (r: seq<int>)
    decreases |io| - k
  {
    if k >= |io| then io else ClearDue(if io[k] != 0 && io[k] == c then io[k := 0] else io, c, k + 1)
  }

  /** What `ClearDue` leaves: exactly the entries from `k` on that were due at `c` become 0. */
  lemma {:induction false} ClearDueClears(io: seq<int>, c: int, k: nat)
    ensures |ClearDue(io, c, k)| == |io|
    ensures forall j :: 0 <= j < |io| ==>
      ClearDue(io, c, k)[j] == (if j >= k && io[j] != 0 && io[j] == c then 0 else io[j])
    decreases |io| - k
  {
    if k < |io| {
      ClearDueClears(if io[k] != 0 && io[k] == c then io[k := 0] else io, c, k + 1);
    }
  }

  lemma {:induction false} DueFromFrame(io: seq<int>, c: int, k: nat, j: nat, v: int)
    requires j < k <= |io|
    ensures DueFrom(io[j := v], c, k) == DueFrom(io, c, k)
    decreases |io| - k
  {
    if k < |io| {
      var io' := io[j := v];
      DueFromFrame(io, c, k + 1, j, v);
      assert io'[k] == io[k];
      assert DueFrom(io', c, k) == (if io[k] != 0 && io[k] == c then [k] else []) + DueFrom(io', c, k + 1);
    }
  }

  /** One step of the I/O loop on the due list and the cleared completion times. */
  lemma DueStep(io: seq<int>, c: int, k: nat)
    requires k < |io|
    ensures var due := io[k] != 0 && io[k] == c;
      var io1 := if due then io[k := 0] else io;
      DueFrom(io, c, k) == (if due then [k] else []) + DueFrom(io1, c, k + 1)
  {
    var due := io[k] != 0 && io[k] == c;
    var io1 := if due then io[k := 0] else io;
    if due {
      DueFromFrame(io, c, k + 1, k, 0);
    }
  }

  /** One FIFO arrival-loop step appends `k` when it arrives now and changes nothing else seen here. */
  lemma FifoArriveStep(alg: Algorithm, P: seq<Process>, tcs: int, s: Sim, k: nat)
    requires Shape(P, s) && (alg.Fcfs? || alg.RoundRobin?) && k < |P|
    ensures var s1 := ArriveOne(alg, P, tcs, s, k);
      && s1.queue == s.queue + (if P[k].arrival == s.clock then [k] else [])
      && s1.clock == s.clock && s1.cpu == s.cpu && s1.ioDone == s.ioDone && s1.idleUntil == s.idleUntil
  {
  }

  /** One FIFO I/O-loop step appends `k` when its I/O is due and clears its completion time. */
  lemma FifoIoStep(alg: Algorithm, P: seq<Process>, tcs: int, s: Sim, k: nat)
    requires Shape(P, s) && (alg.Fcfs? || alg.RoundRobin?) && k < |P|
    ensures var due := s.ioDone[k] != 0 && s.ioDone[k] == s.clock;
      var s1 := IoOne(alg, P, tcs, s, k);
      && s1.queue == s.queue + (if due then [k] else [])
      && s1.ioDone == (if due then s.ioDone[k := 0] else s.ioDone)
      && s1.clock == s.clock && s1.cpu == s.cpu && s1.idleUntil == s.idleUntil
  {
  }

  lemma {:induction false} FifoArrivalsInIndexOrder(alg: Algorithm, P: seq<Process>, tcs: int, s: Sim, k: nat)
    requires Shape(P, s) && (alg.Fcfs? || alg.RoundRobin?)
    ensures var r := Arrivals(alg, P, tcs, s, k);
      && r.queue == s.queue + ArrivingFrom(P, s.clock, k) && r.cpu == s.cpu && r.ioDone == s.ioDone
      && r.idleUntil == s.idleUntil
    decreases |P| - k
  {
    if k < |P| {
      var s1 := ArriveOne(alg, P, tcs, s, k);
      var head: seq<nat> := if P[k].arrival == s.clock then [k] else [];
      FifoArriveStep(alg, P, tcs, s, k);
      FifoArrivalsInIndexOrder(alg, P, tcs, s1, k + 1);
      assert Arrivals(alg, P, tcs, s, k) == Arrivals(alg, P, tcs, s1, k + 1);
      assert ArrivingFrom(P, s.clock, k) == head + ArrivingFrom(P, s.clock, k + 1);
      assert s.queue + head + ArrivingFrom(P, s.clock, k + 1) == s.queue + ArrivingFrom(P, s.clock, k);
    }
  }

  lemma {:induction false} FifoIoInIndexOrder(alg: Algorithm, P: seq<Process>, tcs: int, s: Sim, k: nat)
    requires Shape(P, s) && (alg.Fcfs? || alg.RoundRobin?)
    ensures var r := IoCompletions(alg, P, tcs, s, k);
      && r.queue == s.queue + DueFrom(s.ioDone, s.clock, k) && r.ioDone == ClearDue(s.ioDone, s.clock, k)
      && r.cpu == s.cpu && r.idleUntil == s.idleUntil
    decreases |P| - k
  {
    if k < |P| {
      FifoIoInIndexOrder(alg, P, tcs, IoOne(alg, P, tcs, s, k), k + 1);
      FifoIoTail(alg, P, tcs, s, k);
    }
  }

  /** The inductive step of `FifoIoInIndexOrder`, given its claim from `k + 1` on. */
  lemma FifoIoTail(alg: Algorithm, P: seq<Process>, tcs: int, s: Sim, k: nat)
    requires Shape(P, s) && (alg.Fcfs? || alg.RoundRobin?) && k < |P|
    requires var s1 := IoOne(alg, P, tcs, s, k);
      var r := IoCompletions(alg, P, tcs, s1, k + 1);
      && r.queue == s1.queue + DueFrom(s1.ioDone, s1.clock, k + 1) && r.ioDone == ClearDue(s1.ioDone, s1.clock, k + 1)
      && r.cpu == s1.cpu && r.idleUntil == s1.idleUntil
    ensures var r := IoCompletions(alg, P, tcs, s, k);
      && r.queue == s.queue + DueFrom(s.ioDone, s.clock, k) && r.ioDone == ClearDue(s.ioDone, s.clock, k)
      && r.cpu == s.cpu && r.idleUntil == s.idleUntil
  {
    var s1 := IoOne(alg, P, tcs, s, k);
    FifoIoStep(alg, P, tcs, s, k);
    DueQueueStep(s.queue, s1.queue, s.ioDone, s1.ioDone, s.clock, k);
    assert IoCompletions(alg, P, tcs, s, k) == IoCompletions(alg, P, tcs, s1, k + 1);
  }

  /**
   * The list bookkeeping of one I/O-loop step: appending `k` when it is due
   * and clearing its entry leaves the same queue-to-be and the same cleared
   * entries as before the step.
   */
  lemma DueQueueStep(q: seq<nat>, q1: seq<nat>, io: seq<int>, io1: seq<int>, c: int, k: nat)
    requires k < |io|
    requires var due := io[k] != 0 && io[k] == c;
      q1 == q + (if due then [k] else []) && io1 == (if due then io[k := 0] else io)
    ensures q1 + DueFrom(io1, c, k + 1) == q + DueFrom(io, c, k)
    ensures ClearDue(io1, c, k + 1) == ClearDue(io, c, k)
  {
    DueStep(io, c, k);
    if io[k] != 0 && io[k] == c {
      assert q1 + DueFrom(io1, c, k + 1) == q + ([k] + DueFrom(io1, c, k + 1));
    }
  }

  /**
   * A whole FCFS or round-robin tick. The queue grows by this tick's
   * arrivals and then its I/O returns, each in index order, before the
   * dispatch looks at it: a running process whose burst does not end now
   * keeps the CPU, and an idle CPU past its switch-out takes the head of
   * the grown queue.
   */
  lemma {:induction false} FifoTickOrder(alg: Algorithm, P: seq<Process>, tcs: int, s: Sim)
    requires Shape(P, s) && (alg.Fcfs? || alg.RoundRobin?)
    ensures var grown := s.queue + ArrivingFrom(P, s.clock, 0) + DueFrom(s.ioDone, s.clock, 0);
      var r := Tick(alg, P, tcs, s);
      && (s.cpu.Some? && s.clock != s.burstEnd ==> r.queue == grown && r.cpu == s.cpu)
      && (s.cpu.None? && |grown| > 0 && s.clock >= s.idleUntil ==> r.queue == grown[1..] && r.cpu == Some(grown[0]))
      && (s.cpu.None? && (|grown| == 0 || s.clock < s.idleUntil) ==> r.queue == grown && r.cpu == None)
  {
    var s1 := Arrivals(alg, P, tcs, s, 0);
    FifoArrivalsInIndexOrder(alg, P, tcs, s, 0);
    var s2 := IoCompletions(alg, P, tcs, s1, 0);
    FifoIoInIndexOrder(alg, P, tcs, s1, 0);
    assert s2.queue == s.queue + ArrivingFrom(P, s.clock, 0) + DueFrom(s.ioDone, s.clock, 0);
  }
}
