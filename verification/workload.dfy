/**
 * The immutable description of one simulated process, and the shape of
 * what `generate_process` in main.c builds.
 */
module Workload {
  import ProcessIds

  /**
   * One process: the union of the fields the simulators read. `cpuBursts`
   * has `num_bursts` entries; `ioBursts[k]` follows `cpuBursts[k]`.
   */
  datatype Process = Process(
    id: string,
    arrival: int,
    cpuBursts: seq<int>,
    ioBursts: seq<int>,
    cpuBound: bool)
  {
    function NumBursts(): nat {
      |cpuBursts|
    }

    /** `cpu_bursts[k]`; indices outside the array read as 0. */
    function CpuBurst(k: int): int {
      if 0 <= k < |cpuBursts| then cpuBursts[k] else 0
    }

    /** `io_bursts[k]`; indices outside the array read as 0. */
    function IoBurst(k: int): int {
      if 0 <= k < |ioBursts| then ioBursts[k] else 0
    }
  }

  /** What the generator guarantees and the engines rely on. */
  predicate WellShaped(p: Process) {
    && 1 <= |p.cpuBursts| <= 32
    && |p.ioBursts| == |p.cpuBursts| - 1
    && p.arrival >= 0
    && (forall k :: 0 <= k < |p.cpuBursts| ==> p.cpuBursts[k] >= 1)
    && (forall k :: 0 <= k < |p.ioBursts| ==> p.ioBursts[k] >= 8 && p.ioBursts[k] % 8 == 0)
  }

  /**
   * `generate_process` with the randomness supplied: `arrival` and
   * `numBursts` are the already-rounded first draws, and `draws` is the
   * stream of `ceil(next_exp(...))` values the burst loop consumes, one CPU
   * burst then (except after the last) one I/O burst, scaled by 8.
   */
  method GenerateProcess(id: string, arrival: int, numBursts: nat, draws: seq<int>, cpuBound: bool)
    returns (p: Process)
    requires |draws| >= 2 * numBursts - 1
    ensures p.id == ProcessIds.CopyId(id) && p.arrival == arrival && p.cpuBound == cpuBound
    ensures |p.cpuBursts| == numBursts
    ensures |p.ioBursts| == if numBursts == 0 then 0 else numBursts - 1
    ensures forall k :: 0 <= k < numBursts ==> p.cpuBursts[k] == draws[2 * k]
    ensures forall k :: 0 <= k < |p.ioBursts| ==> p.ioBursts[k] == 8 * draws[2 * k + 1]
  {
    var cpu: seq<int> := [];
    var io: seq<int> := [];
    var next := 0;
    var i := 0;
    while i < numBursts
      invariant 0 <= i <= numBursts
      invariant |cpu| == i
      invariant |io| == if i == 0 then 0 else if i < numBursts then i else numBursts - 1
      invariant next == |cpu| + |io|
      invariant forall k :: 0 <= k < |cpu| ==> cpu[k] == draws[2 * k]
      invariant forall k :: 0 <= k < |io| ==> io[k] == 8 * draws[2 * k + 1]
    {
      cpu := cpu + [draws[next]];
      next := next + 1;
      if i < numBursts - 1 {
        io := io + [draws[next] * 8];
        next := next + 1;
      }
      i := i + 1;
    }
    p := Process(ProcessIds.CopyId(id), arrival, cpu, io, cpuBound);
  }

  /**
   * Positive draws, a burst count from 1 to 32 and a non-negative arrival
   * give a well-shaped process: every I/O burst a positive multiple of 8.
   */
  lemma GeneratedIsWellShaped(p: Process, arrival: int, numBursts: nat, draws: seq<int>)
    requires 1 <= numBursts <= 32 && arrival >= 0
    requires |draws| >= 2 * numBursts - 1
    requires forall k :: 0 <= k < |draws| ==> draws[k] >= 1
    requires p.arrival == arrival && |p.cpuBursts| == numBursts && |p.ioBursts| == numBursts - 1
    requires forall k :: 0 <= k < numBursts ==> p.cpuBursts[k] == draws[2 * k]
    requires forall k :: 0 <= k < |p.ioBursts| ==> p.ioBursts[k] == 8 * draws[2 * k + 1]
    ensures WellShaped(p)
  {
  }
}
