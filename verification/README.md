# Sequential sample-size estimator

A model of the sequential A/B-test sample-size estimator in
`sequential_sampling.py`. The estimator treats the stream of conversions as a
+/-1 random walk. For a barrier `z` it adds up first-passage probabilities
step by step (`n = z, z + 2, ...`), once under the null hypothesis (success
probability one half) and once under the alternative. It stops at the first
step where a decision can be made. It does three things:

- **Accumulator** (`compute_required_sample_size`, module `Accumulator`):
  sizes one barrier. It returns the first `n` at which the alternative sum
  passes `power` while the null sum is still below `alpha`. It returns
  nothing when the sums break down (NaN), when power is reached with the
  null sum too high, or when the range runs out.
- **Barrier search** (`search_optimal_z`, module `BarrierSearch`): a binary
  search over barriers of one parity. The midpoint is biased towards `z_min`.
  Each pass repeats the accumulation for the midpoint and narrows
  `[z_min, z_max]` at its first decision. An exit test after each pass reads
  the loop variable `n` that the inner loop leaves behind.
- **Estimator** (`estimate_sequential_sample_size`, module `SampleSize`):
  derives the alternative's success probability from the baseline rate and
  the effect. It searches the odd barriers `1 .. 4999` and the even barriers
  `2 .. 5000`, sizes both, and reports the smaller sample size with its
  barrier.

Python floats are modelled as `Float = Num(real) | NaN` (module `Floats`).
NaN absorbs additions, and comparisons with NaN are false. The series term
`weight * exp(-log_beta(k, n + 1 - k) + ...)` is a parameter
`term: (z, n, p) -> Float`. Every property below therefore holds for any
term. The properties that rely on the terms being non-negative (the sums
never decrease) say so with `NonNegative(term)`.

The search as written can fail to return, in three ways:

- It loops forever when a pass decides nothing and its last `n` falls one
  short of `max_conversions`.
- It loops forever when a pass has an empty range and the exit test reads a
  stale `n`, left below `max_conversions` by an earlier pass.
- It reads an unbound `n` when the first midpoint lies beyond
  `max_conversions`.

The model represents these outcomes as the results `Diverges` and `Unbound`.
The exit test `n >= max_conversions` at `sequential_sampling.py:84` exists to
end the search once a pass has run out of steps. Module `CorrectedSearch`
makes it do that in every case, and the estimator uses the corrected search
(see "## Findings").

## Model

| member | source | states |
|---|---|---|
| Accumulator.Steps | sequential_sampling.py:25 | the number of steps of `range(z, max_conversions + 1, 2)`; it is zero exactly when `z > max_conversions`, and otherwise the last step is within `max_conversions` and the next one beyond it |
| Accumulator.BetaArgs | sequential_sampling.py:26-28 | for `1 <= z <= n` of one parity, `k = (n + z) / 2` is a whole number with `1 <= k <= n` and `n + 1 - k >= 1`; the Beta function is then evaluated in its domain, and `weight = z / n / k` never divides by zero |
| Accumulator.CdfNaNIff | sequential_sampling.py:30-33 | a running sum (`null_cdf`, `alt_cdf`, the function `Cdf`) is NaN exactly when one of the terms added so far is NaN, so the `isnan` test after each step catches the first NaN term |
| Accumulator.Classify | sequential_sampling.py:33-40 | the tests of one step, in the source's order: a NaN sum is a breakdown whatever the thresholds say; an acceptance exactly when `alt_cdf > power` and `null_cdf < alpha`; power reached with `null_cdf >= alpha` is a rejection; `null_cdf > alpha` below power is the search's infeasible verdict; otherwise undecided |
| Accumulator.FirstStop | sequential_sampling.py:33-40 | the step a scan returns at: within range, stopping (when in range), and no earlier step stops |
| Accumulator.FirstStopIs | sequential_sampling.py:33-40 | a stopping step with no earlier stop is the first stop; with no stop in range, the scan runs to the end |
| Accumulator.RequiredSampleSize | sequential_sampling.py:11-42 | a returned size `n` is in `z .. max_conversions`, has the parity of `z`, and is the step where power is first reached while `null_cdf < alpha`, with no earlier step returning; the result is undefined exactly when no step is such an acceptance |
| Accumulator.RequiredSampleSizeIsSmallest | sequential_sampling.py:12-16 | with non-negative terms, whenever some step in range has `alt_cdf > power` and `null_cdf < alpha`, a size is returned and it is no larger than that step's `n`: the returned size is the smallest `n` meeting both conditions |
| Accumulator.AcceptsUnique | sequential_sampling.py:36-40 | at most one step can be accepted, so the returned size is determined |
| Accumulator.UndefinedOutcomes | sequential_sampling.py:33-42 | an undefined size has exactly three causes: the range runs out before power is reached, a sum becomes NaN first, or power is first reached with `null_cdf` not below `alpha` |
| Accumulator.ComputeRequiredSampleSize | sequential_sampling.py:11-42 | the step-by-step loop returns exactly RequiredSampleSize |
| Accumulator.CdfNonNegative | sequential_sampling.py:30-31 | with non-negative terms, every running sum is NaN or non-negative |
| Accumulator.CdfMonotone | sequential_sampling.py:30-31 | with non-negative terms, the running sums never decrease, and once NaN they stay NaN |
| BarrierSearch.Midpoint | sequential_sampling.py:55 | `z_min + 2 * ((z_max - z_min) // 4)` keeps the parity of `z_min`, lies in `[z_min, z_max]` in the lower half of the range, and lies below `z_max` when the range is not empty |
| BarrierSearch.Pass | sequential_sampling.py:62-82 | a pass that decides leaves `n` at the first deciding step, and the verdict is that step's verdict; an undecided pass saw no decision in range and leaves `n` at the last step, or untouched when the range is empty |
| BarrierSearch.PassStopsAt | sequential_sampling.py:62-82 | a pass whose earlier steps are undecided stops at the first deciding step, or runs the whole range |
| BarrierSearch.Narrow | sequential_sampling.py:74-82 | a feasible verdict lowers `z_max` to `z`, an infeasible one raises `z_min` to `z + 2`, anything else keeps both; a decision strictly shrinks the range and keeps the bounds ordered and of one parity |
| BarrierSearch.Iterate | sequential_sampling.py:57-87 | a turn of the outer loop either shrinks the range or leaves both bounds; the bounds stay ordered and of one parity, and a returned pair lies within them |
| BarrierSearch.FixedPointRepeats | sequential_sampling.py:57-87 | a turn that moves neither bound is followed by the same turn again, so the loop repeats it forever |
| BarrierSearch.Loop | sequential_sampling.py:57-89 | the outer `while` loop run to its end, with `Diverges` for a turn that repeats itself; once some pass has bound `n`, the exit test can no longer read an unbound `n` |
| BarrierSearch.Search | sequential_sampling.py:44-89 | from ordered bounds of one parity, a returned `(z, z_max)` lies within them, keeps their parity, and has `z == z_max` when the loop condition ends the loop |
| BarrierSearch.LoopBounds | sequential_sampling.py:57-89 | a returned `(z, z_max)` satisfies `z_min <= z <= z_max <= ` the initial `z_max`, both values keep the initial parity, and `z == z_max` when the loop condition ends the loop |
| BarrierSearch.FeasiblePassAgrees | sequential_sampling.py:74-76 | a pass that lowers `z_max` to `z` at step `n` agrees with the accumulator, which returns that same `n` for `z` |
| BarrierSearch.SizedBarrierPassFeasible | sequential_sampling.py:74-76 | with non-negative terms, when the accumulator sizes a barrier, a pass at that barrier judges it feasible |
| BarrierSearch.InfeasiblePassAgrees | sequential_sampling.py:74-82 | with non-negative terms, a pass that raises `z_min` past `z` agrees with the accumulator, which returns no size for `z` |
| BarrierSearch.LoopSizesUpperBound | sequential_sampling.py:57-89 | a returned `z_max` below the initial one can be sized by the accumulator |
| BarrierSearch.RaisedAboveRejected | sequential_sampling.py:77-82 | with non-negative terms, a turn that raises `z_min` to `z` leaves the barrier `z - 2` unsizable |
| BarrierSearch.LoopRaisingTurn | sequential_sampling.py:57-87 | a loop that ends normally at a barrier above its starting `z_min` has a turn that raised `z_min` to it |
| BarrierSearch.LoopRejectsBelow | sequential_sampling.py:57-89 | with non-negative terms, on normal loop exit at a barrier above the starting `z_min`, the barrier two below cannot be sized |
| BarrierSearch.LoopFindsLowestBracketed | sequential_sampling.py:57-89 | with non-negative terms, on normal loop exit at a barrier that moved both bounds, the accumulator sizes that barrier and cannot size the one two below: the search found the lowest feasible barrier it bracketed |
| BarrierSearch.LoopTerminatesOnMatchingParity | sequential_sampling.py:57-89 | when the barriers share the parity of `max_conversions` and do not exceed it, the search always returns a pair |
| BarrierSearch.SearchUnboundIff | sequential_sampling.py:55-84 | the exit test reads an unbound `n` exactly when the loop is entered with a first midpoint beyond `max_conversions` |
| BarrierSearch.RepeatingTurnIff | sequential_sampling.py:57-87 | a turn goes on without moving a bound exactly when the pass runs its whole range undecided and its last `n` is one short of `max_conversions`, or its range is empty and the stale `n` from an earlier pass is below `max_conversions` |
| BarrierSearch.StaleCountDiverges | sequential_sampling.py:62-85 | a turn with an empty range, entered with a stale `n` below `max_conversions`, repeats forever |
| BarrierSearch.UndecidedOffParityDiverges | sequential_sampling.py:62-85 | an undecided pass at a midpoint whose parity differs from `max_conversions` ends at `n = max_conversions - 1`, fails the exit test and moves no bound, so the search never returns |
| BarrierSearch.RunPass | sequential_sampling.py:58-82 | the inner loop leaves `n`, the NaN state of the sums and the narrowed bounds exactly as Pass and Narrow describe |
| BarrierSearch.SearchOptimalZ | sequential_sampling.py:44-89 | the step-by-step search returns Search's value, a returned pair within the initial bounds and of their parity, a pair whenever the barriers share the parity of `max_conversions` and do not exceed it, and `Unbound` exactly when the first midpoint exceeds `max_conversions` |
| CorrectedSearch.IterateCorrected | sequential_sampling.py:84-85 | a corrected turn either returns a pair or strictly shrinks the range, and its bounds stay ordered and of one parity |
| CorrectedSearch.LoopCorrected | sequential_sampling.py:57-89 | the corrected loop always returns a pair |
| CorrectedSearch.SearchCorrected | sequential_sampling.py:44-89 | the corrected search always returns a pair |
| CorrectedSearch.IterateCorrectedAgrees | sequential_sampling.py:84-85 | a corrected turn differs from the turn as written only where that turn would repeat itself or read an unbound `n`; a corrected turn that goes on is the turn as written |
| CorrectedSearch.LoopCorrectedAgrees | sequential_sampling.py:57-89 | whenever the search as written returns a pair, the corrected search returns the same pair |
| CorrectedSearch.LoopCorrectedBounds | sequential_sampling.py:57-89 | the corrected result lies within the initial bounds and keeps their parity, with `z == z_max` on normal loop exit |
| CorrectedSearch.LoopCorrectedSizesUpperBound | sequential_sampling.py:74-76 | a corrected result's `z_max` below the initial one can be sized by the accumulator |
| CorrectedSearch.LoopCorrectedRaisingTurn | sequential_sampling.py:77-82 | a corrected loop that ends normally above its starting `z_min` has a turn that raised `z_min` to the result |
| CorrectedSearch.LoopCorrectedRejectsBelow | sequential_sampling.py:57-89 | with non-negative terms, on normal exit above the starting `z_min`, the barrier two below the result cannot be sized |
| CorrectedSearch.LoopCorrectedFindsLowestBracketed | sequential_sampling.py:57-89 | with non-negative terms, on normal exit of the corrected loop at a barrier that moved both bounds, the accumulator sizes that barrier and cannot size the one two below |
| CorrectedSearch.SearchOptimalZCorrected | sequential_sampling.py:44-89 | the corrected step-by-step search returns SearchCorrected's value, within the initial bounds and of their parity |
| SampleSize.ImpliedAltP | sequential_sampling.py:98 | the alternative probability `p` satisfies `p * (2 * baseline + effect) == baseline`; it is one half exactly when the effect is zero, lies in `(0, 1)` for positive rates, and lies below one half for a positive effect |
| SampleSize.Select | sequential_sampling.py:108-111 | the report is one of the two candidates; it is undefined exactly when both sizes are, a defined report is no larger than either defined candidate, and ties and an undefined even size go to the odd candidate |
| SampleSize.OddBarrier | sequential_sampling.py:101 | the barrier found by the odd search is odd and lies in `1 .. 4999` |
| SampleSize.EvenBarrier | sequential_sampling.py:102 | the barrier found by the even search is even and lies in `2 .. 5000` |
| SampleSize.EstimateFor | sequential_sampling.py:101-111 | the reported barrier is one of the two search results and lies in `1 .. 5000`; a reported size is the accumulator's answer for that barrier, lies in `barrier .. 800000`, and is no larger than either defined candidate; the report is undefined exactly when neither barrier can be sized |
| SampleSize.EstimateSequentialSampleSize | sequential_sampling.py:91-111 | the step-by-step estimator returns EstimateFor; its barrier lies in `1 .. 5000`, and a reported size is the accumulator's answer for it |
| SearchFindings.OddSearchDiverges | sequential_sampling.py:84 | on the odd range `1 .. 4999` with `max_conversions = 800000` and terms too small to decide, the search as written never returns |
| SearchFindings.OddSearchCorrected | sequential_sampling.py:84 | on the same input the corrected search returns `(2499, 4999)` after one pass |
| SearchFindings.StaleSearchDiverges | sequential_sampling.py:84 | `search_optimal_z(1, 101, ..., max_conversions=60)`, whose first pass at 51 finds `null_cdf > alpha` at `n = 51`, never returns; the corrected search returns `(77, 101)` |
| SearchFindings.ShortRangeUnbound | sequential_sampling.py:55-84 | `search_optimal_z(1, 5, ..., max_conversions=2)` reads an unbound `n`; the corrected search returns `(3, 5)` |

## Left out

- Floating-point rounding and infinities are not modelled: a finite float is an exact real. `Float` keeps only NaN, which is how the source detects breakdown.
- `log_beta`, `math.lgamma`, `math.log` and `math.exp` are not modelled. The series term they compute is a parameter `term` of every operation, so the numeric values of the sums are not computed.
- The script lines after the functions (`sequential_sampling.py:114-126`) are not modelled: fixed inputs and `print`.
- Accumulator.ComputeRequiredSampleSize, BarrierSearch.SearchOptimalZ and CorrectedSearch.SearchOptimalZCorrected: the `ValueError` that `math.log` raises for a probability outside `(0, 1)` is modelled as the precondition `InDomain`, not as an error result.
- Accumulator.ComputeRequiredSampleSize: the `ZeroDivisionError` or `ValueError` for a barrier `z <= 0` within range is modelled as a precondition, not as an error result.
- BarrierSearch.SearchOptimalZ and CorrectedSearch.SearchOptimalZCorrected do not model the `ZeroDivisionError` (midpoint 0, as in `search_optimal_z(0, 2, ...)`) or the `ValueError` from `lgamma` (negative midpoint) that a pass over a non-empty range raises. They have no error result: such a pass adds whatever the `term` parameter gives. The estimator never reaches this case, because its searches start at 1 and 2.
- Accumulator.RequiredSampleSize: its contract does not say that the returned size is the smallest `n` meeting both conditions. That holds only for non-negative terms, and RequiredSampleSizeIsSmallest proves it under that hypothesis.
- SampleSize.EstimateSequentialSampleSize: the `ZeroDivisionError` for a zero baseline rate, or for `1 + (baseline + effect) / baseline == 0`, is a precondition. So is a probability outside `(0, 1)`, for which `math.log` fails.
- The endless loop of `search_optimal_z` is not run: the model returns `Diverges` where a turn would repeat itself (FixedPointRepeats proves that it does). The `UnboundLocalError` is the result `Unbound`.
- The inner loop of a search pass is the method BarrierSearch.RunPass. It returns the sums, bounds and `n` that the outer loop reads next, rather than sharing local variables with it.
- The estimator calls the corrected search (CorrectedSearch.SearchOptimalZCorrected), not the search as written. On every input where the search as written returns a pair, the two agree (CorrectedSearch.LoopCorrectedAgrees).

## Findings

| source | as written | input that shows it | evidently intended | confidence | as-written member | corrected member |
|---|---|---|---|---|---|---|
| sequential_sampling.py:84 | the exit test `n >= max_conversions` misses an undecided pass whose last `n` is `max_conversions - 1`; no bound moves, so the same pass repeats forever | the odd search of the estimator, `search_optimal_z(1, 4999, ...)` with `max_conversions = 800000`, when the pass at the first midpoint 2499 decides nothing (an alternative too weak for either sum to reach its threshold) | a pass that decides nothing has run its whole range, and the search returns the current pair | not executed | SearchFindings.OddSearchDiverges | CorrectedSearch.LoopCorrectedAgrees |
| sequential_sampling.py:84 | when a pass's range is empty, the exit test reads the `n` an earlier pass left; when that `n` is below `max_conversions` and no bound moves, the same turn repeats forever | `search_optimal_z(1, 101, alpha=0.05, power=0.8, ..., max_conversions=60)` when the pass at 51 finds `null_cdf > alpha` at its first step: `z_min` becomes 53, the next midpoint 77 exceeds 60, and the stale `n = 51` fails the exit test | a pass with nothing left to scan ends the search with the current pair | not executed | SearchFindings.StaleSearchDiverges | CorrectedSearch.SearchCorrected |
| sequential_sampling.py:84 | when the first midpoint exceeds `max_conversions`, the inner loop never binds `n`, and the exit test raises `UnboundLocalError` | `search_optimal_z(1, 5, alpha, power, null_p, alt_p, max_conversions=2)` | the search returns the current pair | not executed | SearchFindings.ShortRangeUnbound | CorrectedSearch.SearchCorrected |
