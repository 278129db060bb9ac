# CPU scheduling simulator — a Dafny model

This project models the core of a small C simulator of single-CPU process
scheduling. It has five scheduling engines, one function per policy, each
written as its own loop over an array of processes:

- first-come first-served (FCFS);
- round robin (RR);
- shortest job first (SJF);
- shortest remaining time with the exact burst lengths (exact SRT);
- shortest remaining time with the exponentially averaged estimate tau (estimated SRT).

Each loop advances a millisecond clock. On every tick it does four things in
the same order:

1. admits the processes arriving now, in index order;
2. takes back the processes whose I/O completes now, in index order;
3. ends the running CPU burst if it is due;
4. dispatches the head of the ready queue once the CPU is free and the
   half context switch has elapsed.

The model is functional. It has the following parts:

- `Fifo`: the linked-list FIFO, as a sequence.
- `ProcessIds`: the two-character process ids and their comparison.
- `Tau`: the tau estimates.
- `Arguments`: the argument constraints.
- `Workload`: the shape of a generated process.
- `ReadyOrder`: the three sorted ready-queue insertions, as one keyed
  insertion.
- `SimState`: the simulator state.
- `Engine`: one phase per function, `Tick` for a whole millisecond, and
  `RunFrom`/`Simulate` for the loop.

On top of the model sit the properties:

- `Safety`: every process is always in exactly one place, and the loop
  stops only when every burst of every process has run.
- `Discipline`: the FIFO policies admit processes in index order.
- `Quirks`: the surprising behaviours the C loops really have.
- `Findings`: the one source defect, the lost process of exact SRT.

Modelling conventions:

- A C `int` is a Dafny `int`. Overflow is not modelled.
- `tcs / 2` is `SimState.Half`, which truncates toward zero like C.
- A `char` is a signed byte. Ids are built from the low byte of the letter
  counter, as `char` assignment does.
- The ready queue holds process indices.
- The CPU occupant is `Option<nat>`.
- The C arrays are sequences indexed by process.
- Tau arithmetic is done on exact reals followed by a ceiling. It is not
  done in IEEE doubles and is not an uninterpreted function.

Three behaviours of the loops are easy to miss, and the model has them as
the code does:

- Round robin counts a burst as over when the remainder left after the
  slice is at most one slice (`sim_rr.h:67`).
- A round-robin process whose slice expires always goes to the tail of the
  ready queue and pays a full context switch, even when the queue is empty
  (`sim_rr.h:96-101`).
- With the CPU idle, exact SRT's I/O loop writes the remaining time of
  process 0 (`sim_srt.h:255-265`).

## Model

| member | source | states |
|---|---|---|
| Fifo.Create | queue.c:4-15 | a new queue is empty, with no front and no rear |
| Fifo.IsEmpty | queue.c:56-59 | empty exactly when there are no nodes, exactly when there is no front |
| Fifo.QueueSize | queue.c:61-64 | the stored size is the number of nodes |
| Fifo.Enqueue | queue.c:17-34 | the old contents are kept as a prefix, the new element becomes the rear, the size grows by one, and the front changes only when the queue was empty |
| Fifo.Dequeue | queue.c:36-54 | an error exactly on an empty queue; otherwise the front comes out, the rest stays in order, and the size drops by one |
| Fifo.FreeQueue | queue.c:66-71 | every node is released in order and the queue is left empty |
| Fifo.EnqueueAllAppends | queue.c:17-34 | enqueuing a sequence appends it in order |
| Fifo.FifoOrder | queue.c:17-54 | draining a queue filled from empty gives back the same sequence: first in, first out |
| ProcessIds.CompareIds | sim_srt.h:20-27 | zero exactly when the lead characters and numeric suffixes agree; negative exactly when the lead character is smaller, or equal with a smaller suffix |
| ProcessIds.CompareIdsAntisymmetric | sim_srt.h:20-27 | swapping the arguments negates the result |
| ProcessIds.CompareIdsTransitive | sim_srt.h:20-27 | "less than" under the comparison is transitive, so it is a valid tie-break order |
| ProcessIds.AssignProcessIds | main.c:78-94 | n ids are produced, and id i is the letter 'A' + i/10 (as a byte) followed by the digit i mod 10 |
| ProcessIds.IdsFollowIndexOrder | main.c:78-94 | while the letter stays 7-bit, the ids compare exactly as their indices do |
| ProcessIds.IdsDistinctBelow2560 | main.c:78-94 | the first 2560 ids are pairwise distinct as two-byte buffers (letter byte, digit) |
| ProcessIds.IdsRepeatEvery2560 | main.c:78-94 | process i + 2560 gets the same id as process i |
| ProcessIds.CString | process.h:5 | a buffer read as a C string is its prefix before the first NUL: that prefix holds no NUL, and a NUL or the end of the buffer follows it |
| ProcessIds.CopyId | main.c:16 | copying an id into the 3-byte `id` field keeps at most two characters of its C string, and all of it when it has at most two |
| ProcessIds.IdLeadIsNulExactly | main.c:81-91 | below 2560, id i starts with a NUL byte exactly when 1910 <= i < 1920, where the letter byte wraps to 0 |
| ProcessIds.CopiedIdsDistinctBelow1910 | main.c:78-94 | below 1910 the copied ids are the generated ones and pairwise distinct as C strings |
| ProcessIds.CopiedIdsCollapseFrom1910 | main.c:16 | ids 1910 to 1919 all copy to the empty C string |
| ProcessIds.GeneratedIdsDistinct | main.c:78-94 | at most 1910 generated processes have pairwise distinct ids as C strings |
| ProcessIds.IndexOf | sim_sjf.h:28-35 | compares ids as C strings, as `strcmp` does: -1 exactly when no id equals the given one as a C string; otherwise the first index whose id does |
| ProcessIds.IndexOfDistinct | sim_sjf.h:28-35 | with ids distinct as C strings, looking up process i's id gives back i |
| ProcessIds.LookupCollapsesFrom1911 | sim_sjf.h:28-35 | with 1912 or more generated processes, looking up the id of process 1911 gives 1910 |
| Tau.TauBetween | sim_srt.h:14-16 | for alpha in [0,1] the new tau lies between the previous tau and the actual burst, rounded up |
| Tau.TauAlphaOne | sim_srt.h:14-16 | with alpha = 1 the estimate is the actual burst |
| Tau.TauAlphaZero | sim_srt.h:14-16 | with alpha = 0 the estimate stays the previous tau |
| Tau.CalculateTau2 | sim_sjf.h:12-14 | with alpha = -1 the estimate is the actual burst; for alpha in [0,1] it lies between the previous tau and the burst |
| Tau.InitialTau | sim_sjf.h:109 | the first tau is the least integer not below 1/lambda, and at least 1 |
| Tau.AcceptedAlphaKeepsTauInRange | sim_sjf.h:79-82 | with any alpha the SJF check accepts, the re-estimate lies between the previous tau and the burst; -1 gives the burst itself |
| Arguments.AcceptedSwitchHalves | main.c:71-75 | an accepted switch time is even, so two halves make exactly one switch, and each half is at least 1 ms |
| Arguments.AcceptedAlphaIsNotSentinel | main.c:71-75 | the argument check never lets alpha = -1 through, although SJF accepts it |
| Arguments.AcceptedInitialTauPositive | main.c:54-76 | an accepted lambda gives an initial tau of at least 1 |
| Workload.GenerateProcess | main.c:14-37 | the id is the given id's C string cut to two characters; n CPU bursts and n - 1 I/O bursts, each I/O burst eight times its draw |
| Workload.GeneratedIsWellShaped | main.c:14-37 | with 1 to 32 bursts and positive draws, the process is well shaped, which the safety proof relies on |
| ReadyOrder.RemainingBreaksIsLess | sim_srt.h:51-57 | the C break test of the remaining-time walk is exactly the strict order on (remaining, id) |
| ReadyOrder.EnqueueSortedByRemaining | sim_srt.h:30-78 | the queue gains exactly the new process; every entry before it does not break the walk and the one after it does; a sorted queue stays sorted |
| ReadyOrder.TauBreaksIsLess | sim_srt.h:107-125 | the C break test of the tau walk is exactly the strict order on (preempted ? remaining : tau, tau, id) |
| ReadyOrder.EnqueueSortedByTau | sim_srt.h:82-149 | the same three properties for the tau ordering |
| Quirks.SjfSentinelKeyIgnoresProgress | sim_sjf.h:38-75 | with alpha = -1 every process's SJF key is its first CPU burst in every state, because the index field is forced to 0; the key never moves on to later bursts |
| Quirks.SjfKeyIsOwnTau | sim_sjf.h:28-75 | with any other alpha and distinct ids, the id lookup finds the process itself, so its key is its own current tau |
| ReadyOrder.EnqueueSjf | sim_sjf.h:38-75 | the new process goes in after every entry with a key not greater than its own and before the first strictly greater one; exactly one occurrence is added; sortedness is kept |
| ReadyOrder.InsertKeepsSorted | sim_srt.h:30-78 | inserting before the first strictly greater key keeps a sorted queue sorted |
| SimState.Half | sim_fcfs.h:96 | half the switch time, truncated toward zero as C integer division does |
| SimState.Init | sim_srt.h:170-188 | state at time 0: nothing queued or running, counters zero, every process with all of its bursts at index 0; RR starts from the first burst; tau starts at the initial estimate when one is used |
| Engine.CountPreemption | sim_srt.h:210-217 | one preemption more, credited to the class opposite to the preempting process's own class |
| Engine.CountSwitch | sim_srt.h:385-391 | one context switch more, credited to the dispatched process's own class |
| Engine.Preempt | sim_srt.h:203-224 | the newcomer is inserted by its current key; the occupant's remaining time becomes burst end - now, every other one is kept, and the occupant is inserted by that new key (exact SRT) or as preempted (estimated SRT); it is marked preempted; the CPU is freed for half a switch; one preemption is counted; the flag is set |
| Engine.ArriveExact | sim_srt.h:192-250 | an arrival preempts exactly when its burst is strictly shorter than the occupant's whole burst; otherwise its remaining time becomes its first burst and it is inserted at its sorted place by remaining time, with the CPU and the switch-out untouched |
| Engine.ArriveOne | sim_fcfs.h:40-50 | a process arriving now joins the ready queue exactly once and, outside exact SRT, leaves the CPU as it was (FCFS/RR append it at the tail); a process not arriving now changes nothing; no burst count, burst index or I/O time changes |
| Engine.ArriveOneOrder | sim_srt.h:564-576 | estimated SRT inserts an arrival at its sorted place by tau, using the remaining times from before the arrival, then sets its remaining time to its tau; SJF (the arrival loop at sim_sjf.h:121-131) inserts it at its sorted place by the SJF keys, leaving tau alone |
| Engine.IoExact | sim_srt.h:253-309 | corrected I/O return of exact SRT: the process is queued exactly once, preempting exactly when its burst is strictly shorter than the occupant's remaining time; on preemption the CPU is freed for half a switch and the occupant is marked preempted, otherwise both are untouched; its I/O is cleared |
| Engine.PlaceExact | sim_srt.h:266-303 | the placement step: preempt, with the occupant's snapshot and the half switch, or insert the process at its sorted place by remaining time |
| Engine.PlaceTau | sim_srt.h:580-642 | the same placement step by tau, with the occupant re-inserted as preempted |
| Engine.IoExactOrder | sim_srt.h:264-303 | without a preemption the queue is the sorted insertion by the remaining times just compared; with one, that insertion followed by the occupant's insertion by its snapshot |
| Engine.IoExactRemaining | sim_srt.h:263-305 | after an exact SRT I/O return, a preempted occupant (never the returning process) holds burst end - now, and every other process except the returning one holds the time just compared |
| Engine.IoExactAsWritten | sim_srt.h:253-309 | the loop as written: with the flag set and no preemption by this return, the queue and the CPU are left as they were, so the process is not queued; with the flag set and the CPU idle likewise; with the flag clear it behaves as the corrected version |
| Engine.IoTau | sim_srt.h:580-642 | the occupant's prediction is tau - elapsed (slot 0 when idle); it preempts exactly when that exceeds the newcomer's tau, counting one preemption, freeing the CPU for half a switch and marking the occupant; otherwise counters, switch-out and marks are kept; the newcomer's remaining time becomes its tau |
| Engine.IoTauOrder | sim_srt.h:580-642 | the estimated SRT I/O return inserts at the sorted place by the updated predictions; on preemption the occupant follows, as preempted and holding burst end - now; no other remaining time changes |
| Engine.IoOne | sim_sjf.h:134-146 | a process with a nonzero completion time equal to now joins the ready set and its I/O is cleared; FCFS/RR append it; SJF restarts its wait clock; nothing else changes for others |
| Engine.IoOneOrder | sim_sjf.h:135-142 | SJF inserts a process returning from I/O with `enqueue_sjf`, before the first strictly greater key and after every key not greater, leaving tau unchanged; exact SRT uses the corrected `IoExact` and estimated SRT uses `IoTau` |
| Engine.Arrivals | sim_srt.h:192-250 | the arrival loop keeps the clock, the finished count and the burst end |
| Engine.IoCompletions | sim_srt.h:253-309 | the I/O loop keeps the clock, the finished count and the burst end |
| Engine.EndBurst | sim_fcfs.h:67-97 | one burst fewer; then either an I/O block until now + tcs/2 + io with the index advanced, or termination with one more finished process |
| Engine.Release | sim_fcfs.h:94-96 | the CPU is freed and stays idle until half a switch from now; nothing else changes |
| Engine.EndSliceRr | sim_rr.h:64-105 | the burst is counted over exactly when the remainder after the slice is at most one slice, and the next burst is then loaded; otherwise the process goes to the tail of the queue |
| Engine.EndBurstSjf | sim_sjf.h:149-209 | busy time grows by the burst, tau is re-estimated unless alpha = -1, and on termination the turnaround to the end of the switch-out and burst-index + 1 class switches are recorded |
| Engine.EndBurstSrt | sim_srt.h:312-359 | busy time grows by the burst, tau is re-estimated and the prediction cleared for the estimated variant, and on termination the turnaround is now - arrival |
| Engine.Completion | sim_srt.h:312-359 | nothing happens unless a burst ends now; then the CPU is freed for half a switch and the burst ends, or RR requeues the process; no preemption is counted |
| Engine.StartRun | sim_rr.h:108-122 | RR runs min(remaining, slice) and deducts it; FCFS and SJF run the whole burst; SRT runs the saved remainder of a preempted process, or else the whole burst, and adds now - arrival to its wait |
| Engine.RunIndex | sim_sjf.h:212-214 | SJF runs under the first index whose id is the same C string as the dequeued process's; the other policies use the dequeued index |
| Engine.Dispatch | sim_srt.h:362-396 | the head leaves the queue and runs exactly when the CPU is free, the queue is non-empty and the switch-out is over; SRT counts one switch for its class |
| Engine.Tick | sim_srt.h:190-399 | one tick advances the clock by 1 and finishes at most one process, only by ending the running burst: a tick that finishes one leaves the switch-out ending half a switch after the tick's time, and a running burst that does not end now finishes nothing (exact SRT with its I/O return corrected as in "## Findings") |
| Engine.RunFrom | sim_fcfs.h:38-117 | the loop result, when reached within the fuel, has every process counted finished and a clock no earlier than the start |
| Engine.Simulate | sim_sjf.h:77-82 | rejected exactly when SJF is given an alpha other than -1 or one in [0,1] |
| Safety.GeneratedIdsAreDistinct | main.c:78-94 | at most 1910 generated processes satisfy the distinct-id part of the invariant |
| Safety.CountDoneUpdate | sim_fcfs.h:88-92 | the finished count tracks the number of processes with no bursts left |
| Safety.TickKeepsInv | sim_fcfs.h:38-117 | one tick keeps the invariant: each process is unarrived, queued once, running, blocked, or terminated; the burst index agrees with the bursts left; the counters agree |
| Safety.InitKeepsInv | sim_srt.h:170-188 | the initial state satisfies the invariant |
| Safety.RunFromKeepsInv | sim_srt.h:190-399 | the state in which the loop ends, starting from a state that satisfies the invariant, satisfies it too; each turn of the loop keeps it |
| Safety.SimulationFinishesEveryProcess | sim_srt.h:190-401 | when the loop ends, the queue is empty, the CPU idle, exactly n processes finished, and every process ran all its bursts with no I/O pending |
| Discipline.FifoArrivalsInIndexOrder | sim_rr.h:37-47 | under FCFS and RR, this tick's arrivals are appended in increasing index order and nothing else changes |
| Discipline.FifoIoInIndexOrder | sim_fcfs.h:53-64 | under FCFS and RR, this tick's I/O returns are appended in increasing index order and exactly their completion times are cleared |
| Discipline.FifoTickOrder | sim_fcfs.h:38-117 | a whole FCFS or RR tick: the queue grows by the arrivals and then the I/O returns, each in index order; a running burst that does not end keeps the CPU; an idle CPU past its switch-out takes the head of the grown queue |
| Quirks.RrSliceBounds | sim_rr.h:108-122 | the slice never overdraws the burst; the remainder is 0 exactly when the burst fitted in one slice; it is at most one slice exactly when at most two remained |
| Quirks.RrSecondSliceNeverRuns | sim_rr.h:64-122 | a burst with more than one and at most two slices left is counted complete after one slice, with part of it never run |
| Quirks.RrLoneProcessIsRequeued | sim_rr.h:96-105 | with an empty queue, an unfinished slice still sends the process out for a full switch and back into the queue |
| Quirks.IdleIoCompletionOverwritesFirstSlot | sim_srt.h:255-265 | with the CPU idle, an I/O return of another process sets process 0's remaining time to idle-until - now, and leaves the others' untouched |
| Quirks.OverwrittenResumeIsNotPositive | sim_srt.h:362-396 | a preempted process 0 resumed after that overwrite runs for a non-positive length |
| Quirks.BusyIoCompletionKeepsOthers | sim_srt.h:262-265 | with a process running, only the returning and running processes' remaining times change |
| Quirks.ArrivalTieDoesNotPreempt | sim_srt.h:196-199 | an exact SRT arrival whose burst is not strictly shorter than the occupant's whole burst leaves the CPU and the counters unchanged |
| Quirks.SjfRunsEmptyIdUnderFirstIndex | sim_sjf.h:212-215 | with 1912 or more generated processes, SJF runs process 1911 under index 1910, whose id is the same empty C string |
| Quirks.EndTimeVersusSwitchOut | sim_srt.h:752 | after the tick that finishes a process, estimated SRT reports the end of the last switch-out; the other engines report two milliseconds after that tick (sim_fcfs.h:119), the same moment only when half a switch is 2 ms |
| Quirks.TauArrivalNeverPreempts | sim_srt.h:564-576 | an estimated SRT arrival never takes the CPU or counts a preemption; it is queued once |
| Findings.ArrivalPreemptionLosesIoCompletion | sim_srt.h:192-309 | after an arrival preempts, an I/O return in the same tick is lost by the loop as written, and queued once by the corrected completion |
| Findings.FlagOutlivesTheTick | sim_srt.h:312-398 | the burst end, the dispatch and the next arrivals all leave the flag set, so the loss can also happen ticks later |
| Findings.StaleFlagLosesLaterIoCompletion | sim_srt.h:190-309 | a flag left set at the end of a tick is still set after the next tick's arrivals, and the next I/O return that does not preempt is dropped even with a process running, while the corrected completion queues it |
| Findings.CorrectionChangesOnlyStaleFlagCase | sim_srt.h:294-307 | with the flag clear, the corrected and as-written completions agree, and the process is queued once |

## Left out

- Printing: every `printf` line and the `current_time < 10000` guards, `print_queue`, `format_tau` and the `simout.txt` report.
- Statistics: the averages, CPU utilisation and the floating-point accumulators. The model keeps the integer counters the loops update: busy time, switches, preemptions, per-class counts, waits and turnarounds. It does not model the division into averages.
- Floating point: `ceil` in `calculate_tau`, `calculate_tau2` and the initial tau is applied to exact reals. Double rounding is not modelled, so results may differ from IEEE arithmetic in the last unit.
- Random generation: `next_exp`, `drand48` and the seeding are not modelled. `Workload.GenerateProcess` takes the arrival time, the burst count and the drawn values as parameters. Which processes are CPU-bound is also a parameter.
- Argument parsing: `atoi` and `atof` on the command line are not modelled, and the `exit` in `incorrectInput` becomes `Arguments.Accepts` returning false.
- `main` (main.c:96-112) checks the arguments and builds the ids, and does nothing more: it never calls `generate_process` or any of the five engines, and main.c does not include their headers. The model gives each engine its own entry point, `Engine.Simulate`, and does not model a driver that runs them one after another.
- Exact SRT's I/O return as written (sim_srt.h:294-307) is modelled only by `Engine.IoExactAsWritten` and the `Findings` lemmas about it. `Engine.IoOne` runs the corrected `Engine.IoExact` for exact SRT, so `Engine.Tick`, `Engine.RunFrom`, `Engine.Simulate` and everything in `Safety` describe the corrected engine, not the code as written (see "## Findings").
- Memory: `malloc`, `calloc` and `free` are not modelled. The queue is a value, and `Fifo.FreeQueue` returns what it released.
- Address arithmetic on process records: RR's `cpu_process - processes` and SRT's `index` field are process indices in the model.
- Engine.RunIndex: with ids distinct as C strings, SJF's lookup returns the dequeued index (`Safety` assumes such ids; at most 1910 generated processes have them). From 1911 processes on, ids 1910 to 1919 begin with a NUL byte and all read as the empty string, so the lookup for any of them gives 1910. The C code then reads the burst from the dequeued struct and the arrays at the looked-up index; the model runs everything under the looked-up index.
- ProcessIds.CompareIds: for an id whose first byte is NUL, `compare_process_ids` reads the bytes of `p.id` after it, which `snprintf` never wrote. The model reads an empty suffix, whose number is 0.
- Engine.RunFrom: bounded by a fuel count. A run that never finishes yields `OutOfFuel`; the model does not describe the C loop running forever.
- ProcessIds.IdsFollowIndexOrder: stated only below 630 processes, where the letter stays within 7-bit ASCII. Beyond that the signed `char` turns the letter negative.
- Integer overflow of the clock and the statistics counters is not modelled.
- `queue.h` and `process.h` are type declarations only and are not modelled separately.

## Findings

| source | as written | input that shows it | evidently intended | confidence | as-written member | corrected member |
|---|---|---|---|---|---|---|
| sim_srt.h:224, sim_srt.h:294-307 | exact SRT skips queuing a process returning from I/O whenever `preemption_occurred` is set. Only the I/O loop clears the flag, so a flag set by a preempting arrival is still set at the next I/O return that does not itself preempt. That process is never queued, run or finished, and the loop never ends. | process A is running a 10 ms burst; process B arrives with a 3 ms first burst and preempts A; in the same tick, process C's I/O completes. C is never queued again. | skip the insertion only when the current I/O return itself preempted (and so already queued the process) | high, not executed | Findings.ArrivalPreemptionLosesIoCompletion and Findings.StaleFlagLosesLaterIoCompletion (about Engine.IoExactAsWritten) | Engine.IoExact, with Safety.SimulationFinishesEveryProcess |
