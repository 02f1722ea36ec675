# Banker's Algorithm safety check, modelled in Dafny

This project models `runBankersAlgorithm`, the safety check of Dijkstra's
Banker's Algorithm used by the visualiser.

**Inputs.** The function takes:
- an allocation matrix (one row per process, one column per resource type);
- a maximum-demand matrix;
- an available vector.

**How it runs.** It works on local copies of allocation and available, plus a
`work` vector, a derived `need` matrix (max - allocation, zero for finished
processes) and a `finish` array. It repeats passes over the processes in
index order. A process is scheduled when it is unfinished and its need row
fits in `work` component by component. Scheduling process `i` does this, in
order:
1. records a "before" snapshot;
2. adds the allocation row to `work` and to `available`;
3. zeroes the row and marks the process finished;
4. recomputes `need`;
5. records an "after" snapshot carrying the need row it satisfied (`requested`).

The run stops when every process is sequenced or a pass schedules nobody. It
returns `{safe, sequence, steps}`.

**Modules.** The model has five of them:

- `Vectors` (vectors.dfy): resource vectors and matrices as values. Also
  column sums, the resources released by a list of processes, and a count of
  finish flags, each with the lemmas the proofs need.
- `SafetySpec` (safety_spec.dfy): the run as pure functions on values. These
  are the snapshot, state and outcome datatypes and `NeedOf`, `Eligible`,
  `Init`, `Execute`, `Pass`, `Loop` and `Simulate`. This is the reference the
  imperative code is proved to compute.
- `BankerAlgorithm` (banker.dfy): the function as the source writes it. The
  local copies live in `array2<int>`, `array<int>` and `array<bool>` and are
  updated in place. There is a `while` loop guarded by `madeProgress`, nested
  `for` loops in `recomputeNeed`, `canExecute` and the release, and snapshots
  taken as values. Each method is proved equal to the matching reference
  function.
- `SafetyProofs` (safety_proofs.dfy): what the run guarantees. There is a
  state invariant kept by every scheduling step, then lemmas about the
  outcome. It also relates the run to the textbook definition of a safe
  ordering: with non-negative allocations, the run reports a safe state
  exactly when some ordering of all processes is safe.
- `GreedyOrder` (greedy.dfy): the scheduling order stated on the caller's
  matrices alone. It has no need matrix, flags or snapshots. The run's
  sequence is proved to be this order.
- `Scenarios` (scenarios.dfy): the sample data of the visualiser, which the
  run schedules as P1, P3, P4, P0, P2. Also the smallest stuck run and the
  smallest successful run.

Throughout, `A0`, `M` and `V0` are the caller's allocation, max and available.
`n = |A0|` is the number of processes and `m = |V0|` the number of resource
types.

**Not modifying the caller's inputs.** `RunBankersAlgorithm` has no `modifies`
clause, so Dafny guarantees that the caller's arrays are unchanged. The
method copies them into fresh arrays before any update.

**Determinism.** Its result is stated equal to the function `Simulate` of the
inputs, so two calls on equal inputs return equal results.

## Model

| member | source | states |
|---|---|---|
| BankerAlgorithm.RunBankersAlgorithm | js/bankerAlgorithm.js:11-105 | the returned `safe`, `sequence` and `steps` equal `Simulate` of the caller's matrices; `safe` holds iff every process is in `sequence`; there are two snapshots per sequenced process; `sequence` is a safe ordering; when unsafe, no process left out fits the pool the sequenced ones leave |
| BankerAlgorithm.Setup | js/bankerAlgorithm.js:12-36 | the fresh local copies, with `work` equal to available, no process finished and `need` computed, form the reference initial state `Init` |
| BankerAlgorithm.RecomputeNeed | js/bankerAlgorithm.js:28-34 | after the nested loops, `needLocal` holds max - allocation for unfinished rows and zeros for finished rows (`NeedOf`) |
| BankerAlgorithm.CanExecute | js/bankerAlgorithm.js:38-43 | the answer is true iff every cell of the need row is at most `work` and the process is unfinished; the early `return false` loop is proved to give exactly this |
| BankerAlgorithm.ReleaseIntoWork | js/bankerAlgorithm.js:63-65 | `work` becomes old `work` plus the allocation row of the process, cell by cell |
| BankerAlgorithm.ReleaseAllocation | js/bankerAlgorithm.js:72-80 | `availableLocal` becomes old available plus the old allocation row, via the scratch copy; that row becomes zero and every other row is unchanged |
| BankerAlgorithm.ExecuteProcess | js/bankerAlgorithm.js:52-93 | the local arrays, sequence and steps after scheduling a process equal the reference `Execute` of the state before |
| BankerAlgorithm.SchedulePass | js/bankerAlgorithm.js:48-95 | one `for` pass leaves the state that the reference `Pass` gives; `madeProgress` is true iff the pass appended to the sequence |
| SafetySpec.Pass | js/bankerAlgorithm.js:50-95 | a pass keeps every dimension and only appends to the sequence and to the steps |
| SafetySpec.Loop | js/bankerAlgorithm.js:47-96 | the repeated passes keep every dimension and only append to the sequence and to the steps |
| SafetyProofs.ExecuteInv | js/bankerAlgorithm.js:52-93 | scheduling an eligible process keeps the run invariant: sequence and flags agree, rows as described below, `work == available ==` pool, resources conserved, and one well-formed turn per sequenced process |
| SafetyProofs.PassInv | js/bankerAlgorithm.js:50-95 | a whole pass keeps the run invariant |
| SafetyProofs.LoopInv | js/bankerAlgorithm.js:47-96 | the repeated passes keep the run invariant |
| SafetyProofs.PassWithoutProgress | js/bankerAlgorithm.js:47-51 | a pass that appends nothing changes nothing, and found every unfinished process ineligible |
| SafetyProofs.LoopEndsStuck | js/bankerAlgorithm.js:45-96 | the run ends with every process sequenced, or with no unfinished process eligible |
| SafetyProofs.SequenceIsDistinct | js/bankerAlgorithm.js:67-68 | the sequence has no repeats, names only processes `0..n-1`, and is at most `n` long |
| SafetyProofs.SafeIffAllSequenced | js/bankerAlgorithm.js:98 | `safe` holds iff every process `0..n-1` is in the sequence |
| SafetyProofs.StepsComeInPairs | js/bankerAlgorithm.js:53-93 | `|steps| == 2 * |sequence|`; for the k-th sequenced process, step 2k is its snapshot with `completed = false` and no `requested`, and step 2k+1 is its snapshot with `completed = true` |
| SafetyProofs.RequestedFitsWork | js/bankerAlgorithm.js:81-89 | `requested` in the k-th "after" snapshot is max - allocation of that process, and fits in the `work` of the matching "before" snapshot |
| SafetyProofs.SnapshotsConsistent | js/bankerAlgorithm.js:53-93 | snapshot t shows the state after the first (t+1)/2 sequenced processes: rows, `work`, `available` and conservation as below |
| SafetyProofs.WorkEqualsAvailable | js/bankerAlgorithm.js:62-80 | in every snapshot `work` and `available` are the same vector |
| SafetyProofs.ResourcesConserved | js/bankerAlgorithm.js:72-80 | in every snapshot, available plus each column sum of allocation equals the caller's available plus the caller's column sum |
| SafetyProofs.FinishedRowsStayZero | js/bankerAlgorithm.js:28-34 | in every snapshot, the allocation and need rows of already-sequenced processes are zero; the others are the caller's row and max - allocation |
| SafetyProofs.NeedNonNegative | js/bankerAlgorithm.js:31 | when allocation never exceeds max, every need cell of every snapshot is non-negative |
| SafetyProofs.WorkAtLeastAvailable | js/bankerAlgorithm.js:62-65 | with non-negative allocations, `work` in every snapshot is at least the caller's available |
| SafetyProofs.WorkNeverDecreases | js/bankerAlgorithm.js:62-65 | with non-negative allocations, `work` in any snapshot is at most `work` in any later snapshot |
| SafetyProofs.SequenceIsSafeOrder | js/bankerAlgorithm.js:38-51 | the sequence is a safe ordering: no repeats, and each process's max - allocation fits the caller's available plus what the processes before it released |
| SafetyProofs.UnsafeMeansStuck | js/bankerAlgorithm.js:45-98 | when unsafe, some process is left out, and no process left out fits the pool the sequenced ones leave |
| SafetyProofs.SafeOrderMeansSafe | js/bankerAlgorithm.js:45-98 | with non-negative allocations, if any ordering of all processes is safe, the run reports safe |
| SafetyProofs.SafeIffSafeOrderExists | js/bankerAlgorithm.js:11-105 | with non-negative allocations, `safe` holds iff a safe ordering of all processes exists (the textbook definition of a safe state) |
| SafetyProofs.AllFitRunInIndexOrder | js/bankerAlgorithm.js:47-51 | with non-negative allocations, if every process's need fits the caller's available, the run is safe and the sequence is `0, 1, ..., n-1` |
| GreedyOrder.PassIsScan | js/bankerAlgorithm.js:50-95 | from any reachable state, a pass takes exactly the processes a scan takes on the caller's matrices, and leaves `work` equal to the scan's pool |
| GreedyOrder.LoopIsGreedy | js/bankerAlgorithm.js:47-96 | the repeated passes take exactly the processes that the repeated scans take |
| GreedyOrder.SimulateIsGreedy | js/bankerAlgorithm.js:45-98 | the run's sequence is the greedy order from the caller's available; `safe` holds iff that order takes all n processes |
| Scenarios.SampleFirstScan | js/ui.js:86-102 | on the sample data, the first scan takes P1, P3, P4 and leaves the pool at [7, 4, 5] |
| Scenarios.SampleSecondScan | js/ui.js:86-102 | on the sample data, the second scan takes P0 and P2 and leaves the pool at [10, 5, 7] |
| Scenarios.SampleIsSafe | js/ui.js:86-102 | the sample data is safe with sequence [1, 3, 4, 0, 2] and ten snapshots |
| Scenarios.SingleProcessStuck | js/bankerAlgorithm.js:38-43 | one process whose need exceeds available: unsafe, with empty sequence and no snapshots |
| Scenarios.SingleProcessRuns | js/bankerAlgorithm.js:51-93 | one process with allocation equal to max: safe, sequence [0], two snapshots with `work` [0] then [1] and `requested` [0] |

## Left out

- js/animation.js, js/main.js and js/ui.js are not part of this model. They
  draw on a canvas, wire up the DOM, run timers and parse input fields. Only
  the sample data in js/ui.js is used, as a scenario.
- The `module.exports` guard at the end of js/bankerAlgorithm.js is left out.
  It only loads the module and has no behaviour.
- BankerAlgorithm.RunBankersAlgorithm requires rectangular inputs:
  `allocation` and `max` are n × m and `available` has m entries. The source
  does not check this. On ragged input, JavaScript reads `undefined`, computes
  `NaN`, and every comparison with it is false. That behaviour is not
  modelled.
- Numbers are unbounded integers. JavaScript numbers are doubles, so
  fractional entries and integers beyond 2^53 are not modelled. The
  visualiser only passes `parseInt` results.
- The snapshots' `JSON.parse(JSON.stringify(...))` deep copies are modelled
  as immutable values. A snapshot cannot alias the working arrays because
  it is a value.
- The "before" snapshot has no `requested` field in the source. Here it is
  `None`, and the "after" snapshot carries `Some(row)`.
- SafetyProofs.WorkAtLeastAvailable, SafetyProofs.WorkNeverDecreases,
  SafetyProofs.SafeOrderMeansSafe, SafetyProofs.SafeIffSafeOrderExists and
  SafetyProofs.AllFitRunInIndexOrder assume non-negative allocations. With a
  negative allocation, releasing a process shrinks the pool, so `work` can
  drop, and a different order could succeed where the greedy scan does not.
- The `for` pass in the source does not stop once every process is finished.
  Its remaining iterations skip because `finish[i]` is set. The model keeps
  this: `Pass` always scans to n.
- Where `work` and `available` differ: it is sometimes stated that `work` is
  at least `available` in every snapshot. The code keeps the two equal, since
  both start from the caller's available and grow by the same row at every
  completion. The model proves equality (SafetyProofs.WorkEqualsAvailable).
