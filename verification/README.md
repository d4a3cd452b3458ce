# Verified model of the MoE spot-serving experiment drivers

The drivers in this repository serve mixture-of-experts models on GPUs that can
be revoked at any moment, replay traces of GPU availability, and collect the
results of long experiment matrices. This project models the stateful logic
inside them and proves what it promises for every input, every interleaving and
every run.

| file | what it models |
|---|---|
| `Decoding`, `EventQueue`, `GpuRuntime`, `Recovery`, `RecoveryCounts`, `RecoveryEnd` | preemption and token-replay recovery: decoder, the event list shared by waiting threads, stream bookkeeping, snapshots, GPU ownership, and the whole protocol as a state machine |
| `Trace`, `TracePlan` | GPU-availability plans: validation by simulating slots, the capacity timeline computed by counting, flattening to one row per GPU |
| `Ledger`, `LedgerDriver` | the resumable F1/F2 experiment matrix with crashes, resumption and aliased rows |
| `Tracer`, `StageAccounting`, `OutermostExact`, `ColdStart`, `CacheStages` | the span tracer and the cold-start accounting that reads its events |
| `RouteHistogram`, `Decimal`, `Arithmetic` | expert-route histograms, their producer and their consumer |
| `Supervisor` | the job supervisor that waits for idle GPUs |
| `PromptSearch`, `RequestMetrics`, `ExpertOwnership`, `FirstFit`, `FiniteSets` | exact-length prompts, metric folds, expert partition check, first-fit allocation |
| `Wrappers` | optional values and results |

Code that updates objects or variables is written as classes and methods with
loops, each proved against a specification function; the laws are lemmas about
those functions. Times are real numbers and arithmetic is exact. Calls into the
GPU engine, shuffles, clocks and the file system are parameters: a decoder, an
arbitrary permutation, a clock function, the outcome of each GPU run, the record
of what the supervisor sees.

## What the proofs found

- A wall-clock snapshot succeeds exactly when the request has produced at least
  one and fewer than all of its tokens and the engine reports KV blocks and
  acceptable routes. A revocation that arrives earlier or later aborts the run;
  without worker faults nothing else can (`Recovery.FreezeExact`,
  `Recovery.SurvivesExactly`).
- The final sequence and delivery-count checks of a request, the back-fill check
  and the stream checks can never fail after the earlier ones.
- Waiters share one event list safely exactly when their keys are equal, differ
  in kind, or name different requests. A waiter without a request id takes events
  of the same kind that belong to others (`EventQueue.KeyingExact`).
- Reassembling a response compares only what follows the first tokens of the
  restored input, as many as the prompt had. A restored input that starts with
  another prompt of that length is accepted (`RecoveryEnd.WrongPromptAccepted`).
- The trace check that the pool maximum is exceeded can never fire.
- The contribution analysis does not look at a row's status; this is harmless,
  because every formal row that is ever stored is valid.
- Stages of a cold start can exceed the total by at most the clamped 0.01, so the
  0.02 mismatch error is unreachable. The later refinement asserts 0.000001; but
  once the worker's constructor starts after the engine, every clamp breaks it,
  however small, because the residual itself must cover the time before the
  constructor (`CacheStages.RefinementExact`, `CacheStages.ClampBreaksRefinement`).
- The outermost-span sum fits every window that contains the spans exactly when
  the spans a program really opens recurse only directly; every other program has
  a run that counts the same time twice (`OutermostExact.OutermostSumExact`).
- CUDA time of several other processes is added up although it may overlap. The
  refinement then has a negative stage exactly when the sum exceeds the time before
  the worker's entry; windows alone rule this out exactly for at most one process
  (`CacheStages.RefinementOfTraces`, `CacheStages.ProcessCountExact`).
- A refused GPU request stays refused exactly along request sequences without a
  negative request (`FirstFit.RefusalFinalExact`).
- The supervisor reads the STOP file again after leaving its polling loop. A STOP
  file that disappears in between launches the child without any idle snapshot,
  and this is the only way. A stability time of zero or less launches on a busy
  snapshot. A stable start at clock reading 0.0 counts as not started.
- The final scan of the prompt search goes beyond the binary search: it reaches
  2 * target + 65.
- The window filter for metrics drops every row when a bound is zero, so it is
  neutral exactly when both bounds are non-zero or no row is eligible anyway.

## Model

| member | source | states |
|---|---|---|
| `Decoding.GenerateReplay` | scripts/moe_recovery_actor.py:55-73 | generating after an installed prefix of the reference continues the reference exactly, for every split |
| `Decoding.GeneratePrefix` | scripts/moe_gpu_runtime.py:307-312 | a shorter greedy generation is a prefix of a longer one |
| `EventQueue.FirstHit` | scripts/moe_gpu_runtime.py:193-197 | the scan stops at the first raising or accepted event and skips none |
| `EventQueue.PollExact` | scripts/moe_gpu_runtime.py:187-201 | every outcome of a pass, said of the events: preempted if and only if the guard is cancelled; otherwise the first raising or matching event decides, and closed or blocked only when there is none |
| `EventQueue.QueueFlags` | scripts/moe_gpu_runtime.py:203-206 | on every run a request is cancelled, and the stream closed, if and only if that happened before |
| `EventQueue.CancelledReceivesNothing` | scripts/moe_gpu_runtime.py:191-192 | once a request is cancelled no wait guarded by it receives an event or moves the queue |
| `EventQueue.Demultiplex` | scripts/moe_gpu_runtime.py:170-201 | in every interleaving of arrivals, waits, cancellations and closure, what a key consumed followed by what is queued for it is what arrived for it, in order |
| `EventQueue.KeyingExact` | scripts/moe_gpu_runtime.py:187-211 | for any set of waiters, each gets exactly its own stream on every run if and only if the keys are pairwise apart |
| `EventQueue.OverlapSteals` | scripts/moe_gpu_runtime.py:208-211 | two-step run in which an overlapping selector takes another waiter's event |
| `EventQueue.SelectRemove` | scripts/moe_gpu_runtime.py:196-197 | popping an event removes exactly the head of its own stream and leaves every other stream unchanged |
| `EventQueue.ConservedOnRuns` | scripts/moe_gpu_runtime.py:170-201 | up to the first failure, returned plus queued events are exactly the arrived ones, and nothing behind the failure moves |
| `EventQueue.NothingReturnedPastFailure` | scripts/moe_gpu_runtime.py:193-197 | the returned events, with multiplicity, are among those that arrived before the first fatal or generation error |
| `GpuRuntime.GPUWorker.Wait` | scripts/moe_gpu_runtime.py:187-201 | one pass over the list under the lock has the outcome and effect that `EventQueue.PollExact` determines |
| `GpuRuntime.GPUWorker.Update` | scripts/moe_gpu_runtime.py:228-240 | an inconsistent update is refused without effect; otherwise meter, visible tokens and recorded deliveries move together and other requests are untouched |
| `GpuRuntime.GPUWorker.SnapshotRunning` | scripts/moe_gpu_runtime.py:298-339 | the token, KV-block and route checks, the back-fill entry, and cancellation of the measurement only on success |
| `GpuRuntime.BackfillExact` | scripts/run_granite_moe_replay_pilot.py:55-60 | back-fill succeeds if and only if the client saw a prefix of the committed output, and then completes it to exactly that output |
| `GpuRuntime.SnapshotExact` | scripts/moe_gpu_runtime.py:305-334 | for any engine report a snapshot is accepted if and only if the request is found with KV blocks and acceptable routes and the report continues the prompt by a proper non-empty reference prefix that extends what the client has; it carries exactly that |
| `GpuRuntime.GPUPool.Launch` | scripts/moe_gpu_runtime.py:411-417 | refused if and only if a requested GPU is in use; ownership stays exclusive |
| `GpuRuntime.GPUPool.CloseWorker` | scripts/moe_gpu_runtime.py:341-364 | releases the GPUs of one worker and touches no other |
| `GpuRuntime.GPUPool.Close` | scripts/moe_gpu_runtime.py:419-422 | every worker is closed and no GPU stays in use |
| `GpuRuntime.ActiveMembers` | scripts/moe_gpu_runtime.py:413 | a GPU is active if and only if some open worker holds it |
| `GpuRuntime.LaunchKeepsExclusive` | scripts/moe_gpu_runtime.py:413-417 | adding a worker on inactive GPUs keeps ownership exclusive |
| `Recovery.DecodeKeeps` | scripts/moe_spot_churn.py:47-60 | committing one more token keeps the protocol invariant |
| `Recovery.DeliverKeeps` | scripts/moe_gpu_runtime.py:225-248 | in every reachable state consuming an output event passes all stream and length checks |
| `Recovery.StreamChecksExact` | scripts/moe_gpu_runtime.py:36-42 | arbitrary output events pass the stream checks if and only if they are growing prefixes; recorded counts then climb strictly to the last event's length |
| `Recovery.DeliveriesExact` | scripts/moe_gpu_runtime.py:229-240 | for any accepted stream the recorded counts are exactly the positive lengths of its events |
| `RecoveryCounts.ServedCountsExact` | scripts/moe_spot_churn.py:77-79 | on every run the counts of a served request are exactly the lengths at which the client consumed an output or was back-filled, in any of its segments |
| `Recovery.FaultsExact` | scripts/moe_gpu_runtime.py:193-195 | the run fails with a worker fault if and only if the client's wait or a snapshot meets a raising event |
| `Recovery.ServingGroupHolds` | scripts/moe_gpu_runtime.py:411-417 | on every run the GPUs in use are exactly those of the last handoff, or the first group |
| `Recovery.FreezeExact` | scripts/moe_gpu_runtime.py:298-339 | a snapshot fails if and only if nothing or everything has been generated or the engine reports no KV blocks or bad routes; no token check can fail |
| `Recovery.SnapshotOutcome` | scripts/moe_gpu_runtime.py:305-334 | which of the four outcomes a snapshot of an engine on the reference has, and that a successful one holds exactly what is committed and missing |
| `Recovery.HandoffKeeps` | scripts/moe_recovery_actor.py:55-73 | the new worker continues exactly from the frozen prefix with exactly the missing tokens, on free GPUs |
| `Recovery.FinishKeeps` | scripts/moe_spot_churn.py:100-111 | the final sequence and delivery-count checks are implied |
| `Recovery.FinalChecksPass` | scripts/moe_spot_churn.py:100-111 | in every state satisfying the invariant a returned output completes the reference, all segments concatenate to it, and the counts are complete |
| `Recovery.ClimbsComplete` | scripts/moe_spot_churn.py:107-111 | counts that climb segment by segment satisfy the final count check |
| `Recovery.StepKeeps` | scripts/moe_spot_churn.py:47-111 | every step keeps the invariant; without faults it fails if and only if it is a snapshot that cannot succeed |
| `Recovery.ReplayIsTransparent` | scripts/moe_spot_churn.py:47-111 | on every interleaving with any number of revocations, each completed request equals the uninterrupted reference, its segments concatenate to it, and its counts rise strictly to n |
| `Recovery.SurvivesExactly` | scripts/moe_spot_churn.py:54-65 | without worker faults a run passes all checks if and only if every snapshot is taken in the middle of generation with KV blocks and acceptable routes |
| `Recovery.EarlyRevocationFails` | scripts/moe_gpu_runtime.py:308-312 | a revocation before the first token aborts the run |
| `Recovery.SegmentsSumToN` | scripts/moe_spot_churn.py:100-104 | segment lengths of a served request sum to exactly n |
| `Recovery.OwnershipStaysExclusive` | scripts/moe_gpu_runtime.py:411-417 | on every run no GPU belongs to two open workers |
| `RecoveryEnd.RecoveryCompletes` | scripts/moe_recovery_actor.py:55-73 | after any successful snapshot, handoff, decoding the rest and one delivery completes the request with the reference |
| `RecoveryEnd.CompletedResponseExact` | sllm/backends/vllm_response_state.py:4-11 | for every input a response is reassembled if and only if the prefix is what follows the first prompt-length tokens of the restored input |
| `RecoveryEnd.RestoredPromptExact` | sllm/backends/vllm_response_state.py:9-10 | the check together with a restored input that starts with the prompt is equivalent to prompt followed by prefix |
| `RecoveryEnd.WrongPromptAccepted` | sllm/backends/vllm_response_state.py:9-10 | any other prompt of the same length is accepted, and a shorter one with an empty prefix |
| `RecoveryEnd.SnapshotRestoresReference` | sllm/backends/vllm_response_state.py:4-11 | restoring any reachable snapshot and generating the rest reassembles the reference |
| `RecoveryEnd.RequestStream.Extend` | scripts/moe_spot_churn.py:77-79 | delivery counts are appended with the carried offset |
| `RecoveryEnd.RequestStream.Resume` | scripts/moe_spot_churn.py:77-89 | the client's variables after a handoff are those of the protocol state |
| `RecoveryEnd.RequestStream.CheckCounts` | scripts/moe_spot_churn.py:109-111 | accepts exactly the strictly increasing counts that end at n |
| `RecoveryEnd.RequestStream.Complete` | scripts/moe_spot_churn.py:100-111 | in every state satisfying the invariant the final checks pass and the served request is the reference |
| `Trace.OrderedIsStableSort` | scripts/run_k8s_moe_f1_f2.py:255-260 | grouping by instant is the stable order by (time, event index): same transitions, non-falling times, original order within an instant |
| `Trace.SortTimes` | scripts/run_k8s_moe_f1_f2.py:255 | strictly increasing, with exactly the given instants |
| `Trace.ApplyFactorises` | scripts/run_k8s_moe_f1_f2.py:257-274 | applying transitions to the slot set succeeds if and only if each slot alone alternates |
| `Trace.SimulationFactorises` | scripts/run_k8s_moe_f1_f2.py:251-277 | the timed simulation succeeds if and only if each slot's own transitions, at its own instants, alternate opposite to its initial state |
| `Trace.PathIsTotals` | scripts/run_k8s_moe_f1_f2.py:1648-1671 | counting alone gives the capacities of the set simulation |
| `Trace.TotalsExact` | scripts/run_k8s_moe_f1_f2.py:1660-1671 | the running total at an instant is the start plus all ups minus all downs up to then |
| `Trace.RenamePath` | scripts/run_k8s_moe_f1_f2.py:939-947 | an injective renaming of slots leaves success and capacity path unchanged |
| `TracePlan.TargetRoundTrip` | scripts/run_k8s_moe_f1_f2.py:163-177 | a printed selector, zero-padded or not, names its slot exactly when the slot is in the pool |
| `TracePlan.TargetExact` | scripts/run_k8s_moe_f1_f2.py:163-177 | a selector names a slot if and only if it prints that slot of the pool, zero-padded or not |
| `TracePlan.InitialExact` | scripts/run_k8s_moe_f1_f2.py:251-253 | a slot is initially available if and only if no target prints it as unavailable |
| `TracePlan.EventExact` | scripts/run_k8s_moe_f1_f2.py:218-241 | an event is accepted if and only if its kind, time, count, printed targets and grace period are as required |
| `TracePlan.CheckHeader` | scripts/run_k8s_moe_f1_f2.py:183-213 | accepts exactly the consistent headers, with format, units and pool size, and returns the initially available slots |
| `TracePlan.CheckEvent` | scripts/run_k8s_moe_f1_f2.py:218-238 | accepts exactly the well-formed events and returns their slots |
| `TracePlan.AppendEvent` | scripts/run_k8s_moe_f1_f2.py:235-249 | the signed slot-plus-one codes decode to exactly the event's transitions, indices never fall |
| `TracePlan.Collect` | scripts/run_k8s_moe_f1_f2.py:217-249 | succeeds exactly for ordered well-formed events, and decodes to all their transitions |
| `TracePlan.ApplyInstant` | scripts/run_k8s_moe_f1_f2.py:257-274 | the coded loop over one instant is the application of its transitions in index order |
| `TracePlan.Simulate` | scripts/run_k8s_moe_f1_f2.py:251-278 | the loop computes the capacity path of the slot-set simulation and never exceeds the pool |
| `TracePlan.AcceptableExact` | scripts/run_k8s_moe_f1_f2.py:251-284 | per-slot alternation plus counted capacities is equivalent to a successful simulation with the declared path |
| `TracePlan.CapacityExact` | scripts/run_k8s_moe_f1_f2.py:1648-1671 | the capacities are initial GPUs plus those added minus those whose grace period has ended, said of the plan's events alone |
| `TracePlan.ValidateTracePlan` | scripts/run_k8s_moe_f1_f2.py:180-284 | accepts if and only if the plan is well formed, every slot alternates and the declared path is what added and revoked GPUs give; the exceeds-maximum error never occurs |
| `TracePlan.CapacityEvents` | scripts/run_k8s_moe_f1_f2.py:1648-1660 | net change per instant, from GPU counts alone, is that of the slot transitions |
| `TracePlan.RunningTotals` | scripts/run_k8s_moe_f1_f2.py:1660-1671 | running totals over the sorted instants |
| `TracePlan.CapacityTimeline` | scripts/run_k8s_moe_f1_f2.py:1648-1671 | for every well-formed plan the timeline holds the capacities that the events say; for an accepted one these are the simulated and the declared ones |
| `TracePlan.TimelineMatches` | scripts/run_k8s_moe_f1_f2.py:1648-1671 | counting form refines the simulated form |
| `TracePlan.NamesInjective` | scripts/run_k8s_moe_f1_f2.py:939-947 | different slots of the pool get different worker ids |
| `TracePlan.EventRows` | scripts/run_k8s_moe_f1_f2.py:1956-1975 | row j is that of target j, with the event's time, kind and grace period and the worker at the position the selector prints; as transitions the rows are the event's |
| `TracePlan.TargetRow` | scripts/run_k8s_moe_f1_f2.py:1892-1975 | one target's row, right as text and as a transition |
| `TracePlan.PlanRows` | scripts/run_k8s_moe_f1_f2.py:1956-1975 | every target of every event has such a row behind those of all earlier targets; rows in time order, as many as the GPU counts sum to |
| `TracePlan.FlattenedPath` | scripts/run_k8s_moe_f1_f2.py:1892-1900 | the renamed plan has the declared capacity path |
| `TracePlan.BuildTrace` | scripts/run_k8s_moe_f1_f2.py:1892-1975 | these rows, naming the workers by printed position, replayed over worker ids give the declared capacity path; refused exactly when there are fewer than two workers or not as many as the pool has |
| `Ledger.ReuseTableExact` | scripts/run_k8s_moe_f1_f2.py:1729-1772 | an F1 and an F2 cell have the same treatment flags if and only if the reuse table pairs them |
| `Ledger.Latest` | scripts/run_k8s_moe_f1_f2.py:2541-2553 | finds a valid formal row of the key if and only if there is one |
| `Ledger.LatestIsLast` | scripts/run_k8s_moe_f1_f2.py:2541-2553 | the row found is the last valid formal one of its key |
| `Ledger.ReuseExact` | scripts/run_k8s_moe_f1_f2.py:2511-2573 | reuse succeeds if and only if each reused F2 cell has a row or an F1 source, and adds exactly the two F2 keys |
| `Ledger.ReuseIdempotent` | scripts/run_k8s_moe_f1_f2.py:2522-2538 | a second reuse adds nothing |
| `Ledger.ShuffledMembers` | scripts/run_k8s_moe_f1_f2.py:2576-2599 | any permutation of the registered cells contains exactly these cells |
| `Ledger.DoKeeps` | scripts/run_k8s_moe_f1_f2.py:3638-3679 | each run or reuse keeps the ledger and everything persisted consistent, and the last write is the ledger in memory |
| `Ledger.DoGrows` | scripts/run_k8s_moe_f1_f2.py:3638-3679 | no task loses a row, and an executed key has its row unless the run raised |
| `Ledger.PilotRecorded` | scripts/run_k8s_moe_f1_f2.py:3603-3628 | a pilot that did not raise is on record |
| `Ledger.ExecutedInOrder` | scripts/run_k8s_moe_f1_f2.py:3648-3661 | the rows added by a repeat are those of the missing cells, in the registered order |
| `Ledger.RepeatDone` | scripts/run_k8s_moe_f1_f2.py:3648-3679 | after a repeat in which no GPU run raised, every cell has its row; the reuse step cannot fail |
| `Ledger.InvocationSafe` | scripts/run_k8s_moe_f1_f2.py:3603-3691 | resumed from any consistent ledger an invocation is blocked only by a raising GPU run, otherwise it ends with exactly the full matrix |
| `Ledger.RowsHoldYields` | scripts/run_k8s_moe_f1_f2.py:3654-3661 | an invocation keeps the resumed ledger as a prefix, and the rows it adds, aliases aside, carry in order exactly what its successful GPU runs yielded |
| `Ledger.DiskSafe` | scripts/run_k8s_moe_f1_f2.py:3638-3691 | wherever an invocation dies, the persisted ledger is consistent |
| `Ledger.RelaunchKeeps` | scripts/run_k8s_moe_f1_f2.py:3452-3470 | a launch with another repeat count changes nothing; any other keeps the store consistent |
| `Ledger.RelaunchExact` | scripts/run_k8s_moe_f1_f2.py:3452-3691 | a launch never loses a stored row; it passes if and only if it is not refused, runs to its end and none of its GPU runs raises |
| `Ledger.LedgerSurvivesCrashes` | scripts/run_k8s_moe_f1_f2.py:3452-3691 | over any sequence of killed and resumed launches no key has two formal rows, and "passed" means exactly the full matrix with both analyses complete |
| `Ledger.CellRepeats` | scripts/run_k8s_moe_f1_f2.py:2610-2644 | in a consistent ledger a cell has as many rows as repeats if and only if it has one per repeat; its i-th sorted row is then repeat i |
| `Ledger.AnalysesExact` | scripts/run_k8s_moe_f1_f2.py:2610-2806 | for a consistent ledger each analysis is pending if and only if one of its cells lacks a repeat |
| `Ledger.AnalysesComplete` | scripts/run_k8s_moe_f1_f2.py:2780-2806 | for a complete ledger neither analysis is pending |
| `LedgerDriver.Completed` | scripts/run_k8s_moe_f1_f2.py:3638-3642 | exactly the keys with a valid formal row |
| `LedgerDriver.ReuseF1RowsForF2` | scripts/run_k8s_moe_f1_f2.py:2511-2573 | the loop computes the specified reuse, only appends, and is idempotent |
| `LedgerDriver.RunTask` | scripts/run_k8s_moe_f1_f2.py:3648-3679 | one run or reuse, deciding by the `completed` set, does what consulting the ledger would |
| `LedgerDriver.RunTasks` | scripts/run_k8s_moe_f1_f2.py:3648-3679 | the loop with its `completed` set does what consulting the ledger each time would do |
| `LedgerDriver.RunMatrix` | scripts/run_k8s_moe_f1_f2.py:3603-3679 | one invocation persists only consistent ledgers, ends unblocked only with the full matrix, and its new rows hold what the GPU runs yielded |
| `Tracer.Exec` | scripts/moe_diagnostic_trace.py:20-39 | any program, failing or not, restores the stack and only appends events |
| `Tracer.SpanTracer.OpenSpan` | scripts/moe_diagnostic_trace.py:30-33 | the id is the index of the start event, the parent the innermost open span |
| `Tracer.SpanTracer.CloseSpan` | scripts/moe_diagnostic_trace.py:36-39 | pops and records the duration since the span's own start |
| `Tracer.SpanTracer.Execute` | scripts/moe_diagnostic_trace.py:28-39 | the mutable tracer follows the specification and restores its stack even on failure |
| `Tracer.TraceWellNested` | scripts/moe_diagnostic_trace.py:28-39 | every trace is well nested as read back from its events alone, all spans are closed, ids are start indices |
| `Tracer.ScriptExact` | scripts/moe_diagnostic_trace.py:20-39 | every program records exactly what it opens, closes and notes, up to a failure |
| `Tracer.ExecTimed` | scripts/moe_diagnostic_trace.py:20-39 | every event carries the next clock reading, and a duration is the reading before it minus the start time |
| `Tracer.TraceExact` | scripts/moe_diagnostic_trace.py:20-39 | the trace of a whole program is its script read off the clock |
| `Tracer.ExecSound` | scripts/moe_diagnostic_trace.py:28-39 | every program keeps the duration invariant and adds to the current span's children at most the elapsed time |
| `Tracer.ChildrenFitInParent` | scripts/moe_diagnostic_trace.py:28-39 | with a non-decreasing clock direct children last together at most as long as their parent |
| `StageAccounting.OuterChain` | scripts/analyze_moe_phase2_diagnostics.py:256-264 | outermost spans of a name that recurses only directly follow one another without overlap |
| `StageAccounting.OutermostFit` | scripts/analyze_moe_phase2_diagnostics.py:256-264 | their durations fit into any window that contains them |
| `OutermostExact.IndirectRecursionOvercounts` | scripts/analyze_moe_phase2_diagnostics.py:256-264 | every program that opens a span of the name indirectly inside another has a run whose outermost spans lie in [0, 1] and sum to at least 2 |
| `OutermostExact.OutermostSumExact` | scripts/analyze_moe_phase2_diagnostics.py:256-264 | on all clocks and windows the outermost spans fit their window if and only if the spans the program opens recurse only directly |
| `OutermostExact.CudaThroughOther` | scripts/analyze_moe_phase2_diagnostics.py:256-264 | the concrete program that overcounts, and that it does not when a failure comes first |
| `OutermostExact.StepMeasures` | scripts/moe_diagnostic_trace.py:28-39 | on a clock that jumps once the sum is exactly the number of outermost spans open across the jump |
| `ColdStart.SpanDurations` | scripts/run_moe_architecture_diagnostics.py:64-69 | one entry per ended span name, holding the sum of its durations |
| `ColdStart.DurationsAdd` | scripts/run_moe_architecture_diagnostics.py:64-69 | durations add up over concatenation, and one event counts exactly when it ends a span of the name |
| `ColdStart.ColdBreakdown` | scripts/run_moe_architecture_diagnostics.py:84-98 | for all timestamps: a breakdown is returned if and only if the worker spans overlap by at most 0.01 and nothing runs backwards; stages sum to the total or exceed it by what the clamp removed, at most 0.01; the mismatch error never occurs |
| `ColdStart.BreakdownExact` | scripts/run_moe_architecture_diagnostics.py:84-98 | each stage lies between its two timestamps; the stages sum to the total plus what the clamp removed, and are non-negative if and only if nothing runs backwards |
| `CacheStages.OutermostSum` | scripts/analyze_moe_phase2_diagnostics.py:256-264 | sums exactly the outermost spans, refusing exactly when one is out of its window |
| `CacheStages.RefineConserves` | scripts/analyze_moe_phase2_diagnostics.py:252-293 | each new stage lies between its timestamps with its CUDA time moved out, no other stage changes, and the sum is unchanged |
| `CacheStages.RefinementExact` | scripts/analyze_moe_phase2_diagnostics.py:265-292 | the closing assertion holds if and only if the clamp removed less than 0.000001 and each new stage fits its window; with a constructor after the engine start, if and only if the residual covers the time before it and the CUDA sums fit |
| `CacheStages.ClampBreaksRefinement` | scripts/analyze_moe_phase2_diagnostics.py:265-292 | start-ups with an arbitrarily small overlap that the breakdown accepts and the refinement refuses |
| `CacheStages.WorkerSpansFit` | scripts/run_moe_architecture_diagnostics.py:85-91 | disjoint worker spans after the constructor leave a non-negative rest |
| `CacheStages.RefinementOfTraces` | scripts/analyze_moe_phase2_diagnostics.py:252-293 | for a worker and any number of other processes, each with its own clock, the refined stages sum to the total, and are non-negative if and only if the other processes' CUDA time fits before the worker's entry; always with one process |
| `CacheStages.RefinementOfLog` | scripts/analyze_moe_phase2_diagnostics.py:252-293 | the refinement accepts the log of such processes, however they interleave, if and only if their CUDA time fits before the worker's entry |
| `CacheStages.StaggeredFit` | scripts/analyze_moe_phase2_diagnostics.py:276-288 | processes whose CUDA spans take turns fit the window, however many |
| `CacheStages.ProcessCountExact` | scripts/analyze_moe_phase2_diagnostics.py:276-288 | windows alone bound the sum of n processes if and only if n is at most one or the window is empty |
| `CacheStages.OtherCuda` | scripts/analyze_moe_phase2_diagnostics.py:276-288 | the loop over the merged log adds up exactly the outermost spans of all processes but the worker, refusing exactly when one is out of place |
| `CacheStages.MergedSum` | scripts/analyze_moe_phase2_diagnostics.py:276-288 | however the processes interleave in the log, the sum is that of the processes' own outermost spans |
| `CacheStages.MergedWithin` | scripts/analyze_moe_phase2_diagnostics.py:287 | the merged spans are in place if and only if those of each process are |
| `CacheStages.RefinedCacheStages` | scripts/analyze_moe_phase2_diagnostics.py:252-293 | on the merged log of all processes it succeeds if and only if the spans of every process are in place and the closing assertion holds, never changing the sum |
| `RouteHistogram.ParseKeyOf` | scripts/check_granite_native_freeze.py:30-48 | printed route keys parse back to their layer and expert |
| `RouteHistogram.ParseKeyExact` | scripts/check_granite_native_freeze.py:32-38 | a key parses to a layer and an expert if and only if it prints them, zero-padded or not |
| `RouteHistogram.KeyInjective` | scripts/run_granite_moe_tp_canary.py:23-49 | different routes have different keys |
| `RouteHistogram.TallyCount` | scripts/run_granite_moe_tp_canary.py:23-49 | each key is counted exactly as often as it was routed |
| `RouteHistogram.TallySum` | scripts/check_granite_native_freeze.py:30-48 | layer totals of a tally are the numbers of routed keys of the layer |
| `RouteHistogram.TallyRows` | scripts/run_granite_moe_tp_canary.py:23-49 | the nested loops tally all routed keys and count nothing invalid exactly for well-formed rows |
| `RouteHistogram.AuditRoutes` | scripts/run_granite_moe_tp_canary.py:23-49 | verified if and only if the payload is non-empty and every token routes to topK different known experts in every layer |
| `RouteHistogram.LayerTotals` | scripts/check_granite_native_freeze.py:30-48 | succeeds exactly when all entries are good, with exact totals per layer |
| `RouteHistogram.EntryExact` | scripts/check_granite_native_freeze.py:32-44 | an entry is good if and only if its key prints a layer and an expert within bounds and its count is positive |
| `RouteHistogram.ValidateRouteHistogram` | scripts/check_granite_native_freeze.py:25-52 | accepts exactly live metadata whose histogram has good entries and equal positive layer totals divisible by topK; every layer total is the returned count times topK |
| `RouteHistogram.RouteAgreement` | scripts/check_granite_native_freeze.py:25-52 | every well-routed payload's histogram is acceptable and its layer totals are rows times topK |
| `RouteHistogram.AuditThenValidate` | scripts/check_granite_native_freeze.py:25-52 | a payload is verified if and only if it is well routed; the freeze check then accepts it if and only if the flags say the routes are live, recovering the number of rows |
| `RouteHistogram.ExpertCountExact` | scripts/run_granite_moe_tp_canary.py:23-49 | for every payload each expert of each layer is counted exactly as often as the payload names it there |
| `RouteHistogram.ExpertCountBound` | scripts/run_granite_moe_tp_canary.py:23-49 | no expert is counted more often than there are rows |
| `Supervisor.RunKeepsIdle` | scripts/run_5070_pilot_when_idle.py:215-249 | on every run each launch decided by idleness directly follows an unbroken idle series of the required length |
| `Supervisor.StopLaunchExact` | scripts/run_5070_pilot_when_idle.py:216-251 | a child is launched out of a stop request if and only if the request vanishes right after the poll that saw it |
| `Supervisor.ChildStartsOnlyWhenIdle` | scripts/run_5070_pilot_when_idle.py:192-310 | with a positive stability time and no vanishing stop, every child starts only after such a series |
| `Supervisor.StabilityTimeExact` | scripts/run_5070_pilot_when_idle.py:222-249 | for stop requests that stay, launches are protected in every world if and only if the stability time is positive |
| `Supervisor.NoStabilityTimeLaunches` | scripts/run_5070_pilot_when_idle.py:232-248 | otherwise one busy snapshot launches |
| `Supervisor.VanishingStopLaunches` | scripts/run_5070_pilot_when_idle.py:217-250 | the run that launches without any snapshot |
| `Supervisor.JobsRunOnceInOrder` | scripts/run_5070_pilot_when_idle.py:192-310 | at most one child per job, only after all earlier jobs were seen valid; "complete" only if all were |
| `Supervisor.LooksExact` | scripts/run_5070_pilot_when_idle.py:192-310 | on every run the log holds exactly what the looks at the world found: valid results, with exit code zero after a child; launches without a stop request; idle snapshots with every GPU within the limit. Blocked if and only if a result or a child failed, stopped if and only if the top of a job saw a stop request |
| `Supervisor.CompleteExact` | scripts/run_5070_pilot_when_idle.py:192-310 | complete if and only if every job had a look that found it valid |
| `Supervisor.PollsOnlyPending` | scripts/run_5070_pilot_when_idle.py:213-251 | GPUs are polled and a child is launched only while the last result read was pending |
| `Supervisor.TakeSnapshot` | scripts/run_5070_pilot_when_idle.py:222-248 | one snapshot moves the idle series and decides as the run does |
| `Supervisor.Poll` | scripts/run_5070_pilot_when_idle.py:213-249 | the polling loop follows the run and leaves it where it ended |
| `Supervisor.RunJob` | scripts/run_5070_pilot_when_idle.py:193-304 | the loop of one job follows the run to its end, whose log and outcomes `Supervisor.LooksExact` ties to the world |
| `Supervisor.Supervise` | scripts/run_5070_pilot_when_idle.py:192-310 | the nested loops have the log and outcome of the run: idle before every launch, jobs once and in order, and complete, blocked and stopped exactly as the world says |
| `PromptSearch.ExactChatPrompt` | scripts/run_k8s_moe_f1_f2.py:976-993 | a returned prompt has exactly the target count; for a monotone counter one is found if and only if there is one up to 2 * target + 65 |
| `PromptSearch.ContentInjective` | scripts/run_k8s_moe_f1_f2.py:961-966 | prompts of different requests differ for all indices and paddings |
| `PromptSearch.ContentText` | scripts/run_k8s_moe_f1_f2.py:961-966 | the text of a prompt: nonce, instruction, and one repetition of the padding at a time |
| `PromptSearch.ExactChatPrompts` | scripts/run_k8s_moe_f1_f2.py:996-1011 | all prompts exact and pairwise different; for a monotone counter they exist if and only if each request is solvable |
| `Decimal.ParsePrint` | scripts/check_granite_native_freeze.py:30-40 | decimal numerals round-trip |
| `Decimal.ParseExact` | scripts/check_granite_native_freeze.py:36 | exactly the zero-padded numerals of a number parse to it |
| `Decimal.PaddedInjective` | scripts/run_k8s_moe_f1_f2.py:961-966 | zero-padded numerals determine their number, beyond the pad width too |
| `RequestMetrics.KeptIsLatest` | scripts/analyze_spotserve_benchmark.py:185-219 | the fold keeps the last row of maximal in-window timestamp, nothing exactly when there is none |
| `RequestMetrics.MatchingRequestMetrics` | scripts/analyze_spotserve_benchmark.py:185-219 | the dictionary loop computes that fold for every request |
| `RequestMetrics.InWindowExact` | scripts/analyze_spotserve_benchmark.py:227-250 | the window filter keeps order and multiplicity |
| `RequestMetrics.InWindowOne` | scripts/analyze_spotserve_benchmark.py:227-250 | it keeps a row if and only if its timestamp is at most five seconds outside the requests |
| `RequestMetrics.PrefilterNeutral` | scripts/analyze_spotserve_benchmark.py:227-250 | filtering by the window first leaves the fold unchanged if and only if both bounds are non-zero or no row is eligible; a zero bound drops everything |
| `RequestMetrics.AddEvidence` | scripts/analyze_spotserve_benchmark.py:460-502 | adding one source keeps the per-request maximum of all reports so far |
| `RequestMetrics.TrueRestoreEvidence` | scripts/analyze_spotserve_benchmark.py:460-502 | the two sources together give the per-request maximum |
| `RequestMetrics.EvidenceOrderFree` | scripts/analyze_spotserve_benchmark.py:460-502 | the result depends only on the set of reports: not on order, source or repetition |
| `ExpertOwnership.ValidateLayer` | scripts/run_moe_ep_shape_screen.py:64-83 | accepts if and only if every expert has exactly one owner and the ranks are 0 to n - 1 |
| `ExpertOwnership.OrderIndependent` | scripts/run_moe_ep_shape_screen.py:64-83 | the answer does not depend on the order of the ranks |
| `ExpertOwnership.TwoRanks` | scripts/run_moe_architecture_diagnostics.py:55-60 | for two ranks it is the pairwise disjoint-and-complete check |
| `FirstFit.FirstReady` | scripts/run_scheduler_benchmark.py:32-41 | the first ready node with enough GPUs, none exactly when there is none |
| `FirstFit.GpusConserved` | scripts/run_scheduler_benchmark.py:44-54 | free GPUs lost are exactly those granted, so the clamp never bites; nodes that are not ready never change |
| `FirstFit.OnlySelectedChanges` | scripts/run_scheduler_benchmark.py:32-54 | a request takes its GPUs from the first fitting node and changes no other |
| `FirstFit.RefusalIsFinal` | scripts/run_scheduler_benchmark.py:69-110 | once refused, every later request at least as large is refused, while no request is negative |
| `FirstFit.NegativeRequestReopens` | scripts/run_scheduler_benchmark.py:44-54 | right after the first negative request of any sequence a full node grants what it had refused |
| `FirstFit.RefusalFinalExact` | scripts/run_scheduler_benchmark.py:69-110 | refusals are final for all clusters along all prefixes of a request sequence if and only if none of its requests is negative |
| `FirstFit.SelectionAt` | scripts/run_scheduler_benchmark.py:69-110 | each request gets the first ready node of the state that all earlier requests left |
| `FirstFit.RunPolicy` | scripts/run_scheduler_benchmark.py:57-110 | the loop leaves exactly that state and selects exactly these nodes |

## Left out

- Times of deliveries, the trace-lateness limit, JIT-warning checks and latency figures of a request; they do not influence the token stream.
- Fields of a snapshot that are only reported: digests, computed tokens, freeze mode.
- The recovery planner and executor, and whether the runtime evidence matches the plan; a handoff may go to any GPU group.
- GpuRuntime.GPUPool.Launch: a launch is one atomic step, because worker construction between the check and the append is process start-up.
- GpuRuntime.GPUWorker.Wait: one pass under the lock; the surrounding wait-with-timeout loop only repeats the pass.
- Engine output and its transport are one first-in-first-out queue per worker; an output event always carries the cumulative tokens of its request.
- `validate_frozen_prefix`, which repeats checks of the snapshot for the fixed 256-token boundary.
- Unusual integer spellings in selectors and keys, and the core-probe form of the flattened trace.
- TracePlan.BuildTrace: worker ids are given as the sorted list of distinct ids; sorting them is not modelled.
- The pilot gate, hardware gates and reports between the ledger writes of the driver; a pilot-only launch is a launch that ends after its pilot writes.
- F2 treatments with a `_replay` suffix, which are not part of the formal matrix.
- Seeded shuffles; an order is any permutation of the registered cells.
- RouteHistogram.AuditRoutes: a missing payload and the digest of the routes are not modelled.
- CacheStages.RefinedCacheStages: the log is taken as complete for each process; a log that lacks start events makes the source raise a key error.
- Totals and GPU-event lists of the tracer beside its span events.
- Supervisor: state-file reports every 30 seconds; a run is a finite record of what the supervisor sees, since its loops need not end.
- Weight, device and routing gates beside the expert-ownership check.
- The risk-aware scheduler policy, latency statistics, and the long lists of summed migration and replanning metrics.
- Rendering of reports and plots, process launching, sockets and file formats.
