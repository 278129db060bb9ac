/**
 * The state one simulator run keeps: the clock, the ready queue of process
 * indices, the CPU occupant, and the per-process arrays the C engines
 * allocate (`remaining_bursts`, `burst_index`, `io_completion_time`, ...).
 * One record serves all five engines; an engine leaves the arrays it does
 * not use at their initial values.
 */
module SimState {
  import opened Wrappers
  import opened Workload
  import ReadyOrder

  /** The five engines; the parameters are those each `simulate_*` receives. */
  datatype Algorithm =
    | Fcfs
    | RoundRobin(timeSlice: int)
    | Sjf(alpha: real)
    | SrtExact
    | SrtTau(alpha: real)

  /** The integer statistics the engines accumulate. */
  datatype Counters = Counters(
    finished: int,
    busy: int,
    switches: int,
    cpuBoundSwitches: int,
    ioBoundSwitches: int,
    preemptions: int,
    cpuBoundPreemptions: int,
    ioBoundPreemptions: int,
    cpuBoundDone: int,
    ioBoundDone: int)

  datatype Sim = Sim(
    clock: int,
    queue: seq<nat>,
    cpu: Option<nat>,
    idleUntil: int,
    burstEnd: int,
    remainingBursts: seq<int>,
    burstIndex: seq<int>,
    ioDone: seq<int>,
    remaining: seq<int>,
    preempted: seq<bool>,
    tau: seq<int>,
    predicted: seq<int>,
    lastReady: seq<int>,
    wait: seq<int>,
    turnaround: seq<int>,
    preemptFlag: bool,
    counters: Counters)

  /** Every per-process array has one slot per process and every index in use is valid. */
  predicate Shape(P: seq<Process>, s: Sim) {
    var n := |P|;
    && |s.remainingBursts| == n && |s.burstIndex| == n && |s.ioDone| == n
    && |s.remaining| == n && |s.preempted| == n && |s.tau| == n && |s.predicted| == n
    && |s.lastReady| == n && |s.wait| == n && |s.turnaround| == n
    && ReadyOrder.AllBelow(s.queue, n)
    && (s.cpu.Some? ==> s.cpu.value < n)
  }

  /** No process's burst count, burst index or pending I/O differs between `s` and `r`. */
  predicate SameProgress(s: Sim, r: Sim) {
    r.remainingBursts == s.remainingBursts && r.burstIndex == s.burstIndex && r.ioDone == s.ioDone
  }

  /** The preemption counters agree. */
  predicate SamePreemptions(a: Counters, b: Counters) {
    b.preemptions == a.preemptions && b.cpuBoundPreemptions == a.cpuBoundPreemptions
    && b.ioBoundPreemptions == a.ioBoundPreemptions
  }

  /** The context-switch counters agree. */
  predicate SameSwitches(a: Counters, b: Counters) {
    b.switches == a.switches && b.cpuBoundSwitches == a.cpuBoundSwitches && b.ioBoundSwitches == a.ioBoundSwitches
  }

  /** The id of every process, in index order. */
  function Ids(P: seq<Process>): (ids: seq<string>)
    ensures |ids| == |P| && forall i :: 0 <= i < |P| ==> ids[i] == P[i].id
  {
    seq(|P|, i requires 0 <= i < |P| => P[i].id)
  }

  /** `cpu_bursts[0]` of every process. */
  function FirstBursts(P: seq<Process>): (b: seq<int>)
    ensures |b| == |P| && forall i :: 0 <= i < |P| ==> b[i] == P[i].CpuBurst(0)
  {
    seq(|P|, i requires 0 <= i < |P| => P[i].CpuBurst(0))
  }

  /** C's `tcs / 2`, which truncates toward zero. */
  function Half(tcs: int): (h: int)
    ensures tcs >= 0 ==> 0 <= h && h + h <= tcs < h + h + 2
    ensures tcs < 0 ==> h <= 0 && tcs <= h + h <= tcs + 1
  {
    if tcs >= 0 then tcs / 2 else -((-tcs) / 2)
  }

  function ZeroCounters(): Counters {
    Counters(0, 0, 0, 0, 0, 0, 0, 0, 0, 0)
  }

  /**
   * The state before the first tick: nothing queued, the CPU empty, every
   * process with all of its bursts ahead of it. `initialTau` is
   * `ceil(1.0 / lambda)`; the round-robin engine starts each process's
   * remaining time at its first burst, and the SJF engine starts
   * `cpu_idle_until` at 0 where the others start it at -1.
   */
  function Init(alg: Algorithm, P: seq<Process>, initialTau: int): (s: Sim)
    ensures Shape(P, s)
    ensures s.clock == 0 && s.queue == [] && s.cpu == None && s.counters == ZeroCounters()
    ensures forall i :: 0 <= i < |P| ==>
      s.remainingBursts[i] == P[i].NumBursts() && s.burstIndex[i] == 0 && s.ioDone[i] == 0
      && !s.preempted[i] && s.lastReady[i] == P[i].arrival
    ensures forall i :: 0 <= i < |P| ==>
      && (alg.RoundRobin? ==> s.remaining[i] == P[i].CpuBurst(0))
      && (alg.SrtTau? || (alg.Sjf? && alg.alpha != -1.0) ==> s.tau[i] == initialTau)
  {
    var n := |P|;
    var tau0 := match alg
      case Sjf(alpha) => if alpha == -1.0 then 0 else initialTau
      case SrtTau(_) => initialTau
      case _ => 0;
    var bursts := seq(n, i requires 0 <= i < n => P[i].NumBursts());
    var remaining := seq(n, i requires 0 <= i < n => if alg.RoundRobin? then P[i].CpuBurst(0) else 0);
    var arrivals := seq(n, i requires 0 <= i < n => P[i].arrival);
    var zeros := seq(n, i => 0);
    Sim(
      0, [], None,
      if alg.Sjf? then 0 else -1,
      -1,
      bursts, zeros, zeros, remaining,
      seq(n, i => false),
      seq(n, i => tau0),
      zeros, arrivals, zeros, zeros,
      false,
      ZeroCounters())
  }
}
