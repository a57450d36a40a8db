/** The hitting-probability accumulator: for one barrier `z` it adds, step by
    step, the first-passage series terms of a +/-1 random walk under the null
    and the alternative success probability, and stops at the first step where
    a decision can be made (`compute_required_sample_size`). */
module Accumulator {
  import opened Floats

  /** The series term added at step `n` for barrier `z` under success
      probability `p`, that is `weight * exp(-log_beta(k, n + 1 - k) +
      (k - z) * log(p) + k * log(1 - p))` with `k = (n + z) / 2` and
      `weight = z / n / k`. Its floating-point evaluation (log-gamma, log,
      exp) is not modelled: the estimator receives it as a parameter. */
  type Term = (int, int, real) -> Float

  /** The thresholds and the two hypotheses of one estimation run. */
  datatype Test = Test(alpha: real, power: real, nullP: real, altP: real)

  /** `math.log(p)` and `math.log(1 - p)` are defined for both hypotheses;
      the estimator evaluates all four before its first step. */
  predicate InDomain(t: Test)
  {
    0.0 < t.nullP < 1.0 && 0.0 < t.altP < 1.0
  }

  /** Every finite term is non-negative: `weight > 0` for `z >= 1` and
      `exp(...) > 0`. */
  ghost predicate NonNegative(term: Term)
  {
    forall z, n, p :: NonNegativeAt(term, z, n, p)
  }

  /** The term at step `n` for barrier `z` under `p` is NaN or non-negative. */
  ghost predicate NonNegativeAt(term: Term, z: int, n: int, p: real)
  {
    term(z, n, p).Num? ==> 0.0 <= term(z, n, p).v
  }

  /** The number of steps `n = z, z + 2, ...` in `range(z, maxN + 1, 2)`. */
  function Steps(z: int, maxN: int): (r: nat)
    ensures r == 0 <==> maxN < z
    ensures r > 0 ==> z + 2 * (r - 1) <= maxN < z + 2 * r
  {
    if maxN < z then 0 else (maxN - z) / 2 + 1
  }

  /** The two arguments `k` and `n + 1 - k` that step `n` hands to
      `log_beta`: `k` is a whole number and both are at least 1, so the Beta
      function is always evaluated in its domain and `weight = z / n / k`
      never divides by zero. */
  function BetaArgs(z: int, n: int): (ab: (int, int))
    requires 1 <= z <= n && (n - z) % 2 == 0
    ensures 2 * ab.0 == n + z && ab.0 + ab.1 == n + 1
    ensures 1 <= ab.0 <= n && 1 <= ab.1
  {
    var k := (n + z) / 2;
    (k, n + 1 - k)
  }

  /** The term added at step `i` (that is at `n = z + 2i`) is NaN. */
  ghost predicate NaNTermAt(term: Term, z: int, p: real, i: int)
  {
    term(z, z + 2 * i, p).NaN?
  }

  /** The running sum after the first `count` steps for barrier `z` under `p`. */
  function Cdf(term: Term, z: int, p: real, count: nat): Float
  {
    if count == 0 then Num(0.0)
    else Add(Cdf(term, z, p, count - 1), term(z, z + 2 * (count - 1), p))
  }

  /** A running sum is NaN exactly when one of the terms added so far is
      NaN, so the `isnan` test after each step catches the first NaN term. */
  lemma {:induction false} CdfNaNIff(term: Term, z: int, p: real, count: nat)
    ensures Cdf(term, z, p, count).NaN? <==> exists i :: 0 <= i < count && NaNTermAt(term, z, p, i)
  {
    if count > 0 {
      CdfNaNIff(term, z, p, count - 1);
      assert NaNTermAt(term, z, p, count - 1) <==> term(z, z + 2 * (count - 1), p).NaN?;
      assert (exists i :: 0 <= i < count && NaNTermAt(term, z, p, i)) <==>
             (exists i :: 0 <= i < count - 1 && NaNTermAt(term, z, p, i)) || NaNTermAt(term, z, p, count - 1);
    }
  }

  /** What the two running sums say once a step's terms have been added. */
  datatype Verdict =
    | Breakdown                           // one of the sums is NaN
    | PowerReached(nullBelowAlpha: bool)  // alt_cdf > power; whether null_cdf < alpha
    | NullExceeded                        // alt_cdf <= power and null_cdf > alpha
    | Undecided                           // neither threshold crossed

  /** The tests of one step, in the order the estimator makes them. A NaN
      sum is a breakdown whatever the thresholds say; a step is an acceptance
      exactly when both conditions hold at once (`alt_cdf > power` and
      `null_cdf < alpha`); it is undecided exactly when both sums are numbers
      and neither threshold is crossed. */
  function Classify(nullCdf: Float, altCdf: Float, t: Test): (v: Verdict)
    ensures v.Breakdown? <==> nullCdf.NaN? || altCdf.NaN?
    ensures v == PowerReached(true) <==> Above(altCdf, t.power) && Below(nullCdf, t.alpha)
    ensures v == PowerReached(false) <==> Above(altCdf, t.power) && nullCdf.Num? && nullCdf.v >= t.alpha
    ensures v.NullExceeded? <==> altCdf.Num? && altCdf.v <= t.power && Above(nullCdf, t.alpha)
    ensures v.Undecided? <==> nullCdf.Num? && altCdf.Num? && altCdf.v <= t.power && nullCdf.v <= t.alpha
  {
    if nullCdf.NaN? || altCdf.NaN? then Breakdown
    else if Above(altCdf, t.power) then PowerReached(Below(nullCdf, t.alpha))
    else if Above(nullCdf, t.alpha) then NullExceeded
    else Undecided
  }

  /** The verdict after step `j`, that is after adding the terms for `n = z + 2j`. */
  function VerdictAt(term: Term, t: Test, z: int, j: nat): Verdict
  {
    Classify(Cdf(term, z, t.nullP, j + 1), Cdf(term, z, t.altP, j + 1), t)
  }

  /** The verdicts on which `compute_required_sample_size` returns. */
  predicate AccumulatorStops(v: Verdict)
  {
    v.Breakdown? || v.PowerReached?
  }

  /** The verdicts on which a pass of the barrier search breaks out. */
  predicate PassStops(v: Verdict)
  {
    !v.Undecided?
  }

  /** Which of the two scans over the steps is meant: the accumulator's or
      one pass of the barrier search. */
  datatype Scan = Accumulating | Searching

  /** Whether `v` ends the scan. */
  predicate Stops(scan: Scan, v: Verdict)
  {
    if scan.Accumulating? then AccumulatorStops(v) else PassStops(v)
  }

  /** The first step at or after `from` (and before `steps`) whose verdict
      stops the scan, or `steps` when there is none. */
  function FirstStop(term: Term, t: Test, z: int, steps: nat, scan: Scan, from: nat): (j: nat)
    requires from <= steps
    decreases steps - from
    ensures from <= j <= steps
    ensures j < steps ==> Stops(scan, VerdictAt(term, t, z, j))
    ensures forall i :: from <= i < j ==> !Stops(scan, VerdictAt(term, t, z, i))
  {
    if from == steps || Stops(scan, VerdictAt(term, t, z, from)) then from
    else FirstStop(term, t, z, steps, scan, from + 1)
  }

  /** A step that stops the scan, with no stopping step between `from` and
      it, is the first stop; when no step in range stops, the scan runs to
      the end. */
  lemma {:induction false} FirstStopIs(term: Term, t: Test, z: int, steps: nat, scan: Scan, from: nat, j: nat)
    requires from <= j <= steps
    requires j < steps ==> Stops(scan, VerdictAt(term, t, z, j))
    requires forall i :: from <= i < j ==> !Stops(scan, VerdictAt(term, t, z, i))
    ensures FirstStop(term, t, z, steps, scan, from) == j
    decreases j - from
  {
    if from < j {
      FirstStopIs(term, t, z, steps, scan, from + 1, j);
    }
  }

  /** Step `j` is where the accumulator returns a sample size: it is in
      range, no earlier step stopped the scan, power is reached there and
      null_cdf is then below alpha. */
  ghost predicate Accepts(term: Term, t: Test, z: int, maxN: int, j: nat)
  {
    && j < Steps(z, maxN)
    && VerdictAt(term, t, z, j) == PowerReached(true)
    && forall i :: 0 <= i < j ==> !AccumulatorStops(VerdictAt(term, t, z, i))
  }

  /** At most one step is an acceptance: each one is the first stop. */
  lemma AcceptsUnique(term: Term, t: Test, z: int, maxN: int, j: nat, k: nat)
    requires Accepts(term, t, z, maxN, j) && Accepts(term, t, z, maxN, k)
    ensures j == k
  {
  }

  /** The value of `compute_required_sample_size(z, ...)`: the sample size of
      the first step that stops the scan, when that step is an acceptance. */
  function RequiredSampleSize(term: Term, t: Test, z: int, maxN: int): (r: Option<int>)
    ensures r.Some? ==> z <= r.value <= maxN && (r.value - z) % 2 == 0
    ensures r.Some? ==> Accepts(term, t, z, maxN, (r.value - z) / 2)
    ensures r.None? <==> forall j: nat :: !Accepts(term, t, z, maxN, j)
  {
    var steps := Steps(z, maxN);
    var j := FirstStop(term, t, z, steps, Accumulating, 0);
    if j < steps && VerdictAt(term, t, z, j) == PowerReached(true) then
      assert Accepts(term, t, z, maxN, j);
      Some(z + 2 * j)
    else
      assert forall k: nat :: !Accepts(term, t, z, maxN, k) by {
        forall k: nat | Accepts(term, t, z, maxN, k) ensures false {
          FirstStopIs(term, t, z, steps, Accumulating, 0, k);
        }
      }
      None
  }

  /** With non-negative terms the returned size is the smallest one: when
      some step in range has `alt_cdf > power` and `null_cdf < alpha`, a size
      is returned, and it is no larger than that step's `n`. An earlier stop
      cannot hide such a step, because a NaN, or a `null_cdf` at or above
      `alpha`, persists to every later step. */
  lemma RequiredSampleSizeIsSmallest(term: Term, t: Test, z: int, maxN: int, j: nat)
    requires NonNegative(term) && j < Steps(z, maxN)
    requires Above(Cdf(term, z, t.altP, j + 1), t.power) && Below(Cdf(term, z, t.nullP, j + 1), t.alpha)
    ensures RequiredSampleSize(term, t, z, maxN).Some?
    ensures RequiredSampleSize(term, t, z, maxN).value <= z + 2 * j
  {
    var f := FirstStop(term, t, z, Steps(z, maxN), Accumulating, 0);
    assert AccumulatorStops(VerdictAt(term, t, z, j));
    CdfMonotone(term, z, t.nullP, f + 1, j + 1);
    CdfMonotone(term, z, t.altP, f + 1, j + 1);
    assert VerdictAt(term, t, z, f) == PowerReached(true);
  }

  /** An undefined result has exactly three causes: the range is exhausted
      before power is reached, the sums break down first, or power is first
      reached while null_cdf is not below alpha. */
  lemma UndefinedOutcomes(term: Term, t: Test, z: int, maxN: int)
    requires RequiredSampleSize(term, t, z, maxN).None?
    ensures || (forall i :: 0 <= i < Steps(z, maxN) ==> !AccumulatorStops(VerdictAt(term, t, z, i)))
            || (exists j :: FirstAccumulatorStop(term, t, z, maxN, j) && VerdictAt(term, t, z, j).Breakdown?)
            || (exists j :: FirstAccumulatorStop(term, t, z, maxN, j) && VerdictAt(term, t, z, j) == PowerReached(false))
  {
    var steps := Steps(z, maxN);
    var j := FirstStop(term, t, z, steps, Accumulating, 0);
    if j < steps {
      assert FirstAccumulatorStop(term, t, z, maxN, j);
    }
  }

  /** Step `j` is the first step, within range, on which the accumulator returns. */
  ghost predicate FirstAccumulatorStop(term: Term, t: Test, z: int, maxN: int, j: nat)
  {
    && j < Steps(z, maxN)
    && AccumulatorStops(VerdictAt(term, t, z, j))
    && forall i :: 0 <= i < j ==> !AccumulatorStops(VerdictAt(term, t, z, i))
  }

  /** `compute_required_sample_size`: walk `n = z, z + 2, ..., <= maxN`, add
      one term per hypothesis, and return at the first step where power is
      reached (with `n` when null_cdf is below alpha) or a sum is NaN. */
  method ComputeRequiredSampleSize(term: Term, t: Test, z: int, maxN: int) returns (r: Option<int>)
    requires InDomain(t)
    requires 1 <= z || maxN < z
    ensures r == RequiredSampleSize(term, t, z, maxN)
  {
    var nullCdf, altCdf := Num(0.0), Num(0.0);
    var n := z;
    ghost var j: nat := 0;
    while n <= maxN
      invariant n == z + 2 * j && j <= Steps(z, maxN)
      invariant nullCdf == Cdf(term, z, t.nullP, j) && altCdf == Cdf(term, z, t.altP, j)
      invariant forall i :: 0 <= i < j ==> !AccumulatorStops(VerdictAt(term, t, z, i))
    {
      nullCdf := Add(nullCdf, term(z, n, t.nullP));
      altCdf := Add(altCdf, term(z, n, t.altP));
      if nullCdf.NaN? || altCdf.NaN? {
        FirstStopIs(term, t, z, Steps(z, maxN), Accumulating, 0, j);
        return None;
      }
      if altCdf.v > t.power {
        FirstStopIs(term, t, z, Steps(z, maxN), Accumulating, 0, j);
        if nullCdf.v < t.alpha {
          return Some(n);
        }
        return None;
      }
      n, j := n + 2, j + 1;
    }
    FirstStopIs(term, t, z, Steps(z, maxN), Accumulating, 0, j);
    return None;
  }

  /** Every running sum of non-negative terms is NaN or a non-negative number. */
  lemma {:induction false} CdfNonNegative(term: Term, z: int, p: real, count: nat)
    requires NonNegative(term)
    ensures Cdf(term, z, p, count).Num? ==> 0.0 <= Cdf(term, z, p, count).v
  {
    if count > 0 {
      CdfNonNegative(term, z, p, count - 1);
      assert NonNegativeAt(term, z, z + 2 * (count - 1), p);
    }
  }

  /** The running sums never decrease, and once NaN they stay NaN. */
  lemma {:induction false} CdfMonotone(term: Term, z: int, p: real, c1: nat, c2: nat)
    requires NonNegative(term) && c1 <= c2
    ensures Cdf(term, z, p, c1).NaN? ==> Cdf(term, z, p, c2).NaN?
    ensures Cdf(term, z, p, c2).Num? ==> Cdf(term, z, p, c1).Num? && Cdf(term, z, p, c1).v <= Cdf(term, z, p, c2).v
  {
    if c1 < c2 {
      CdfMonotone(term, z, p, c1, c2 - 1);
      assert NonNegativeAt(term, z, z + 2 * (c2 - 1), p);
    }
  }
}
