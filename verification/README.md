# Banker's algorithm safety check, modelled in Dafny

This project models the core of a small C program that runs the Banker's
algorithm. The program reads a snapshot: an `available` vector with one entry
per resource type, a `max` claim matrix and an `allocation` matrix with one
row per process. It derives `need = max - allocation` and then decides
whether the system is in a safe state. The model covers two parts of
`src/bankers_algorithm.c`:

- the need computation at the end of `read_input`, as a pure function of
  `max` and `allocation`;
- the safety check `is_safe_state`.

The check works like this. It copies `available` into `work`. It then runs a
do-while of full scans in ascending process order. Each scan stops at the
first unfinished process whose need fits in `work` in every column. That
process releases its allocation into `work`, is marked finished, and is
appended to `safe_sequence`. The loop ends when a scan finds nobody, or when
the iteration counter exceeds `2 * N`. The verdict is "safe" exactly when
every process finished.

The C program is fixed at 5 processes and 3 resource types. The model takes
both dimensions from its inputs: N = `|need|` and R = `|available|`. The
shape of the matrices is the only precondition.

## Layout

- `resources.dfy` (`Resources`): vectors, matrices, `Fits` (need <= work in
  every column), `AddRow`, and flag counts and column sums with their lemmas.
- `orders.dfy` (`Orders`): completion orders, defined without reference to
  the checker. `Released` is `available` plus the allocation rows of an
  order. `ValidOrder` is local validity. `SafeOrder` is a valid permutation
  of all processes. `GreedyRun` means valid, lowest-index-first and stuck at
  the end. The module proves conservation, monotonicity and uniqueness of
  the greedy run.
- `greedy.dfy` (`Greedy`): the check as a pure function. `FirstEligible` is
  one scan. `Choose` is one release step. `Run` repeats scans until nobody is
  eligible. `Check` returns the verdict.
- `safestate.dfy` (`SafeState`): the check as the C routine runs it, with
  one method per loop. `IsSafeState` is proved equal to `Greedy.Check`.
- `need.dfy` (`Need`): the need matrix.
- `theorems.dfy` (`Theorems`): determinism, completeness and the empty-run
  case.
- `examples.dfy` (`Examples`): concrete snapshots.

## Where the code differs from the usual presentation

- The classic 5x3 snapshot has available `[3,3,2]` and need rows
  `[7,4,3],[1,2,2],[6,0,0],[0,1,1],[4,3,1]`. The common presentation of
  this snapshot keeps scanning forward after each pick and lists P1, P3,
  P4, P0, P2. The C code restarts every scan at `i = 0` (line 150): the
  `break` at line 175 leaves the `for` loop, and the next do-while pass
  starts again from process 0. This gives P1, P3, P0, P2, P4. The model
  follows the code: `Examples.TextbookSnapshot` proves the code's order.
  `Examples.TextbookOtherSafeSequence` proves that the forward-scanning
  order is also a safe sequence, but not the one the check returns.
- One could read the `2 * N` cap (lines 182-185) as only a guard against
  an endless loop. The model keeps it exactly as written.
  `SafeState.IsSafeState` proves that the result equals the uncapped
  `Greedy.Check`. It also proves that the cap is reached only when N = 0.
  In that case the cap is reached in the same pass that finds nobody, so
  it never changes the outcome.
- `is_safe_state` takes `max` as a parameter but never reads it. The model's
  method does not take it.
- Negative entries are not rejected anywhere in the C program. Negative need
  (allocation above max) is handled: such a column fits any non-negative
  work. Negative allocation breaks completeness:
  `Examples.NegativeAllocationBreaksCompleteness` gives a two-process
  snapshot that the check declares unsafe although a safe sequence exists.
  For this reason `Theorems.SafeIffSafeSequenceExists` assumes
  non-negative allocations.

## Model

| member | source | states |
|---|---|---|
| `Need.CalculateNeed` | src/bankers_algorithm.c:119-124 | The result has the shape of `max`, and every entry equals `max[i][j] - allocation[i][j]`, with no clamping at zero. |
| `Need.NeedRestoresMax` | src/bankers_algorithm.c:119-124 | Round trip: adding the need back onto each allocation row gives that process's max row. |
| `Need.NegativeNeedMeansOverAllocation` | src/bankers_algorithm.c:119-124 | A need entry is negative exactly when allocation exceeds max there. Such an entry fits any non-negative work column. |
| `SafeState.CanAllocate` | src/bankers_algorithm.c:152-159 | The result is true exactly when `need[i][j] <= work[j]` holds in every column. |
| `SafeState.Release` | src/bankers_algorithm.c:164-167 | Every work column rises by exactly `allocation[i][j]`, and the length is unchanged. |
| `SafeState.ScanOnce` | src/bankers_algorithm.c:149-178 | A scan finds a process exactly when some unfinished process fits, and it takes the lowest such index. It then adds that allocation to work, sets only that flag and appends the index. If it finds nobody, the state is unchanged. |
| `SafeState.AllDone` | src/bankers_algorithm.c:188-194 | The verdict is true exactly when every finish flag is set. |
| `SafeState.IsSafeState` | src/bankers_algorithm.c:130-195 | The returned verdict and sequence equal the uncapped greedy check. The sequence is a greedy run. The verdict is safe exactly when the sequence is a safe sequence. The number of passes is the sequence length plus one, and it exceeds 2N exactly when N = 0. |
| `Greedy.StartIsConsistent` | src/bankers_algorithm.c:133-140 | Work starts equal to `available`, with no flag set and an empty sequence. This satisfies every invariant of the check. |
| `Greedy.FirstEligible` | src/bankers_algorithm.c:150-161 | One scan returns the lowest index at or after `from` whose process is unfinished and fits. If no such process exists, it returns none. |
| `Greedy.ChooseKeepsConsistent` | src/bankers_algorithm.c:165-171 | Choosing the first eligible process keeps the invariants. The flags are exactly the processes in the sequence. Work equals `available` plus their allocations. The sequence stays distinct, valid and lowest-first. The count of finished processes rises by exactly one. |
| `Greedy.Run` | src/bankers_algorithm.c:148-186 | The repeated scan ends in a consistent state where no process is eligible. Earlier choices stay in place: the starting sequence is a prefix of the final one. |
| `Greedy.Check` | src/bankers_algorithm.c:130-195 | The sequence is a greedy run (valid, lowest-first, stuck at the end). The verdict is safe exactly when the sequence covers all N processes, and in that case it is a permutation of 0..N-1 with local validity. |
| `Orders.ReleasedIsHeld` | src/bankers_algorithm.c:165-167 | Conservation: the work left by any distinct sequence is `available` plus the allocation column sum over the processes in it, in any order. |
| `Orders.SafeOrderReleasesEverything` | src/bankers_algorithm.c:165-167 | After a complete safe sequence, work equals `available` plus the total allocation of every column. |
| `Orders.ReleasedMonotone` | src/bankers_algorithm.c:165-167 | With non-negative allocations, a sequence whose processes all appear in another releases no more, column by column. |
| `Orders.GreedyRunUnique` | src/bankers_algorithm.c:150-175 | Determinism: two greedy runs of the same snapshot are equal. |
| `Theorems.CheckIsTheGreedyRun` | src/bankers_algorithm.c:148-186 | The check returns the greedy run of the snapshot, whichever greedy run is given. |
| `Theorems.GreedyCompletes` | src/bankers_algorithm.c:148-194 | With non-negative allocations, if any safe sequence exists, the greedy run finishes all N processes. |
| `Theorems.SafeIffSafeSequenceExists` | src/bankers_algorithm.c:130-195 | With non-negative allocations, the check says safe exactly when a safe sequence exists. |
| `Theorems.EmptyRunIffNothingFits` | src/bankers_algorithm.c:150-159 | The check takes nobody exactly when no need fits in `available`. If N > 0, the verdict is then unsafe. |
| `Examples.TextbookSnapshot` | src/bankers_algorithm.c:130-195 | On the classic 5x3 snapshot, need is the expected matrix, and the check returns safe with P1, P3, P0, P2, P4. |
| `Examples.TextbookOtherSafeSequence` | src/bankers_algorithm.c:161-175 | P1, P3, P4, P0, P2 is also a safe sequence for that snapshot, but it is not the one the check returns. |
| `Examples.NothingAvailable` | src/bankers_algorithm.c:150-159 | With available `[0,0,0]` and a need matrix whose every entry is positive, no process fits, and the check is unsafe with an empty sequence. |
| `Examples.NegativeAllocationBreaksCompleteness` | src/bankers_algorithm.c:165-167 | With a negative allocation, the check can say unsafe although a safe sequence exists. |

## Left out

- `read_input` file handling (lines 79-118, 126-127): `fopen`, `fscanf`,
  error messages and `exit(1)` on a missing or malformed field are libc I/O.
  Only the need loop at lines 119-124 is modelled.
- `main`, `print_matrix`, `print_array` and `print_usage` (lines 22-77,
  197-225): argument checks, exit codes and formatted output.
- The `printf` trace inside `is_safe_state` (lines 142-144, 162, 173-174,
  183), including the "Maximum iterations reached" warning. Only the
  pass count that decides the warning is modelled.
- C `int` overflow in `work[j] += allocation[i][j]` and in
  `max[i][j] - allocation[i][j]`: the model uses unbounded integers. The C
  code has no overflow guard.
- The fixed dimensions `NUM_PROCESSES = 5` and `NUM_RESOURCES = 3`
  (lines 9-10): the model works for any N and R.
- The entries of `safe_sequence` past `safe_count`: the C code never writes
  them. The model returns only the filled prefix.
