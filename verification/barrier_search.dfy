/** The barrier search (`search_optimal_z`): a binary search over barriers of
    one parity. Each pass re-runs the accumulation for the current midpoint
    `z` and narrows `[zMin, zMax]` by the first decision it meets. */
module BarrierSearch {
  import opened Floats
  import opened Accumulator

  /** `z_min + 2 * ((z_max - z_min) // 4)`. Python's `//` floors; for the
      positive divisor 4 that is Dafny's Euclidean `/`. The step keeps the
      parity of `zMin` and the point lies in the lower half of the range. */
  function Midpoint(zMin: int, zMax: int): (z: int)
    ensures z % 2 == zMin % 2
    ensures zMin <= zMax ==> zMin <= z <= zMax && 2 * (z - zMin) <= zMax - zMin
    ensures zMin < zMax ==> z < zMax
  {
    zMin + 2 * ((zMax - zMin) / 4)
  }

  /** What one pass of the inner loop leaves behind: its verdict and the
      loop variable `n`, which Python keeps after the loop (`None` while it
      has never been bound). */
  datatype PassResult = PassResult(verdict: Verdict, last: Option<int>)

  /** Step `j` is where a pass breaks out: it is in range, it decides, and
      every earlier step was undecided. */
  ghost predicate DecidesAt(term: Term, t: Test, z: int, maxN: int, j: nat)
  {
    && j < Steps(z, maxN)
    && PassStops(VerdictAt(term, t, z, j))
    && forall i :: 0 <= i < j ==> VerdictAt(term, t, z, i).Undecided?
  }

  /** One pass of the inner loop for barrier `z`, entered with `n` bound to
      `stale` by the previous pass. */
  function Pass(term: Term, t: Test, z: int, maxN: int, stale: Option<int>): (r: PassResult)
    ensures !r.verdict.Undecided? ==>
              && r.last.Some? && z <= r.last.value && r.last.value % 2 == z % 2
              && DecidesAt(term, t, z, maxN, (r.last.value - z) / 2)
              && r.verdict == VerdictAt(term, t, z, (r.last.value - z) / 2)
    ensures r.verdict.Undecided? ==> forall i :: 0 <= i < Steps(z, maxN) ==> VerdictAt(term, t, z, i).Undecided?
    ensures r.verdict.Undecided? && Steps(z, maxN) == 0 ==> r.last == stale
    ensures r.verdict.Undecided? && Steps(z, maxN) > 0 ==>
              r.last.Some? && r.last.value % 2 == z % 2 && r.last.value <= maxN < r.last.value + 2
  {
    var steps := Steps(z, maxN);
    var j := FirstStop(term, t, z, steps, Searching, 0);
    if j < steps then PassResult(VerdictAt(term, t, z, j), Some(z + 2 * j))
    else PassResult(Undecided, if steps == 0 then stale else Some(z + 2 * (steps - 1)))
  }

  /** A pass whose steps before `j` are all undecided, and whose step `j`
      decides unless `j` is the end of the range, breaks out at `j`. */
  lemma PassStopsAt(term: Term, t: Test, z: int, maxN: int, stale: Option<int>, j: nat)
    requires j <= Steps(z, maxN)
    requires j < Steps(z, maxN) ==> !VerdictAt(term, t, z, j).Undecided?
    requires forall i :: 0 <= i < j ==> VerdictAt(term, t, z, i).Undecided?
    ensures Pass(term, t, z, maxN, stale) ==
              if j < Steps(z, maxN) then PassResult(VerdictAt(term, t, z, j), Some(z + 2 * j))
              else PassResult(Undecided, if j == 0 then stale else Some(z + 2 * (j - 1)))
  {
    FirstStopIs(term, t, z, Steps(z, maxN), Searching, 0, j);
  }

  /** The new bounds after a pass at the midpoint of `[zMin, zMax]`: a
      feasible verdict lowers `zMax` to `z`, an infeasible one raises `zMin`
      to `z + 2`, anything else leaves both. A decided pass keeps the order
      and the parity of the bounds and strictly shrinks the range. */
  function Narrow(zMin: int, zMax: int, v: Verdict): (b: (int, int))
    requires zMin < zMax
    ensures v.PowerReached? || v.NullExceeded? ==> b.1 - b.0 < zMax - zMin
    ensures !(v.PowerReached? || v.NullExceeded?) ==> b == (zMin, zMax)
    ensures zMin <= b.0 && b.1 <= zMax
    ensures zMax % 2 == zMin % 2 ==> b.0 <= b.1 && b.0 % 2 == zMin % 2 && b.1 % 2 == zMin % 2
  {
    var z := Midpoint(zMin, zMax);
    match v
    case PowerReached(true) => (zMin, z)
    case PowerReached(false) => (z + 2, zMax)
    case NullExceeded => (z + 2, zMax)
    case _ => (zMin, zMax)
  }

  /** How a search ends. `Converged` when the loop condition fails;
      `EarlyExit` when the exit test after a pass fires (a NaN, or `n` has
      reached `max_conversions`). */
  datatype Exit = Converged | EarlyExit

  /** The outcome of `search_optimal_z`: the pair `(z, z_max)` it returns,
      `Diverges` when its loop never ends, and `Unbound` when it reads the
      loop variable `n` before any pass bound it (an `UnboundLocalError`). */
  datatype SearchResult = Found(z: int, zMax: int, exit: Exit) | Diverges | Unbound

  /** The variables the outer loop carries from one pass to the next. */
  datatype State = State(zMin: int, zMax: int, last: Option<int>)

  /** The bounds keep their order and their common parity. */
  ghost predicate WellFormed(s: State)
  {
    s.zMin <= s.zMax && s.zMax % 2 == s.zMin % 2
  }

  datatype Iteration = Done(result: SearchResult) | Next(state: State)

  /** One turn of the outer loop: the loop test, a pass at the midpoint, the
      narrowing, and the exit test (`isnan(null_cdf) or isnan(alt_cdf) or
      n >= max_conversions`, which reads `n`). A turn that goes on either
      shrinks the range or leaves both bounds as they were. */
  function Iterate(term: Term, t: Test, maxN: int, s: State): (it: Iteration)
    ensures it.Next? ==> s.zMin < s.zMax
    ensures it.Next? ==>
              || (it.state.zMin == s.zMin && it.state.zMax == s.zMax)
              || it.state.zMax - it.state.zMin < s.zMax - s.zMin
    ensures it.Next? && WellFormed(s) ==>
              WellFormed(it.state) && s.zMin <= it.state.zMin && it.state.zMax <= s.zMax
              && it.state.zMin % 2 == s.zMin % 2
    ensures it.Done? && it.result.Found? && WellFormed(s) ==>
              && s.zMin <= it.result.z <= it.result.zMax <= s.zMax
              && it.result.z % 2 == s.zMin % 2 && it.result.zMax % 2 == s.zMin % 2
              && (it.result.exit == Converged ==> it.result.z == it.result.zMax)
    ensures it.Done? && it.result.Found? && it.result.exit == Converged ==>
              s.zMax <= s.zMin && it.result == Found(Midpoint(s.zMin, s.zMax), s.zMax, Converged)
  {
    if s.zMin >= s.zMax then Done(Found(Midpoint(s.zMin, s.zMax), s.zMax, Converged))
    else
      var z := Midpoint(s.zMin, s.zMax);
      var p := Pass(term, t, z, maxN, s.last);
      var b := Narrow(s.zMin, s.zMax, p.verdict);
      if p.verdict.Breakdown? then Done(Found(z, b.1, EarlyExit))
      else if p.last.None? then Done(Unbound)
      else if p.last.value >= maxN then Done(Found(z, b.1, EarlyExit))
      else Next(State(b.0, b.1, p.last))
  }

  /** A turn that goes on without moving either bound hands the next turn a
      state from which it computes exactly the same state again: the source's
      `while` loop repeats that pass forever. */
  lemma FixedPointRepeats(term: Term, t: Test, maxN: int, s: State)
    requires Iterate(term, t, maxN, s).Next?
    requires Iterate(term, t, maxN, s).state.zMin == s.zMin
    requires Iterate(term, t, maxN, s).state.zMax == s.zMax
    ensures Iterate(term, t, maxN, Iterate(term, t, maxN, s).state) == Iterate(term, t, maxN, s)
  {
    var s' := Iterate(term, t, maxN, s).state;
    var z := Midpoint(s.zMin, s.zMax);
    assert Pass(term, t, z, maxN, s.last).verdict.Undecided?;
  }

  /** The outer loop run to its end from state `s`; `Diverges` stands for
      a turn that repeats itself (FixedPointRepeats). Once some pass has
      bound `n`, the exit test can no longer read an unbound `n`. */
  function Loop(term: Term, t: Test, maxN: int, s: State): (r: SearchResult)
    ensures s.last.Some? ==> !r.Unbound?
    decreases s.zMax - s.zMin
  {
    match Iterate(term, t, maxN, s)
    case Done(r) => r
    case Next(s') =>
      if s'.zMin == s.zMin && s'.zMax == s.zMax then Diverges
      else Loop(term, t, maxN, s')
  }

  /** The value of `search_optimal_z(zMin, zMax, ...)`. From ordered bounds
      of one parity, a returned pair lies within them and keeps their parity,
      and on normal loop exit `z == z_max`. */
  function Search(term: Term, t: Test, maxN: int, zMin: int, zMax: int): (r: SearchResult)
    ensures r.Found? && zMin <= zMax && zMax % 2 == zMin % 2 ==>
              && zMin <= r.z <= r.zMax <= zMax
              && r.z % 2 == zMin % 2 && r.zMax % 2 == zMin % 2
              && (r.exit == Converged ==> r.z == r.zMax)
  {
    if zMin <= zMax && zMax % 2 == zMin % 2 then
      LoopBounds(term, t, maxN, State(zMin, zMax, None));
      Loop(term, t, maxN, State(zMin, zMax, None))
    else Loop(term, t, maxN, State(zMin, zMax, None))
  }

  /** From ordered bounds of one parity, a returned barrier lies within the
      bounds and has their parity, and so does the returned `z_max`; the
      barrier never exceeds the returned `z_max`, and on normal loop exit
      the two are equal. */
  lemma {:induction false} LoopBounds(term: Term, t: Test, maxN: int, s: State)
    requires WellFormed(s)
    ensures var r := Loop(term, t, maxN, s);
            r.Found? ==>
              && s.zMin <= r.z <= r.zMax <= s.zMax
              && r.z % 2 == s.zMin % 2 && r.zMax % 2 == s.zMin % 2
              && (r.exit == Converged ==> r.z == r.zMax)
    decreases s.zMax - s.zMin
  {
    match Iterate(term, t, maxN, s)
    case Done(r) =>
    case Next(s') =>
      if s'.zMin != s.zMin || s'.zMax != s.zMax {
        LoopBounds(term, t, maxN, s');
      }
  }

  /** A pass that judges its barrier feasible at step `n` agrees with the
      accumulator: `compute_required_sample_size` for that barrier returns
      the same `n`. */
  lemma FeasiblePassAgrees(term: Term, t: Test, z: int, maxN: int, stale: Option<int>)
    requires Pass(term, t, z, maxN, stale).verdict == PowerReached(true)
    ensures RequiredSampleSize(term, t, z, maxN) == Pass(term, t, z, maxN, stale).last
  {
    var n := Pass(term, t, z, maxN, stale).last.value;
    var j := (n - z) / 2;
    assert Accepts(term, t, z, maxN, j);
    var k := (RequiredSampleSize(term, t, z, maxN).value - z) / 2;
    AcceptsUnique(term, t, z, maxN, j, k);
  }

  /** With non-negative terms the converse holds too: when the accumulator
      sizes a barrier, a pass at that barrier judges it feasible, at the same
      step. An earlier `null_cdf > alpha` would persist to that step. */
  lemma SizedBarrierPassFeasible(term: Term, t: Test, z: int, maxN: int, stale: Option<int>)
    requires NonNegative(term) && RequiredSampleSize(term, t, z, maxN).Some?
    ensures Pass(term, t, z, maxN, stale).verdict == PowerReached(true)
  {
    var j := (RequiredSampleSize(term, t, z, maxN).value - z) / 2;
    assert Accepts(term, t, z, maxN, j);
    var p := Pass(term, t, z, maxN, stale);
    if !p.verdict.Undecided? {
      var f := (p.last.value - z) / 2;
      if f < j {
        CdfMonotone(term, z, t.nullP, f + 1, j + 1);
      }
    }
  }

  /** A pass that judges its barrier infeasible agrees with the accumulator,
      which returns no sample size for it. When power came first this holds
      outright; when null_cdf passed alpha first it relies on the sums never
      decreasing. */
  lemma InfeasiblePassAgrees(term: Term, t: Test, z: int, maxN: int, stale: Option<int>)
    requires NonNegative(term)
    requires Pass(term, t, z, maxN, stale).verdict in {PowerReached(false), NullExceeded}
    ensures RequiredSampleSize(term, t, z, maxN).None?
  {
    var p := Pass(term, t, z, maxN, stale);
    var j := (p.last.value - z) / 2;
    forall k: nat ensures !Accepts(term, t, z, maxN, k) {
      if k < j {
        assert VerdictAt(term, t, z, k).Undecided?;
      } else if j < k {
        if p.verdict == PowerReached(false) {
          assert AccumulatorStops(VerdictAt(term, t, z, j));
        } else {
          CdfMonotone(term, z, t.nullP, j + 1, k + 1);
          assert !Below(Cdf(term, z, t.nullP, k + 1), t.alpha);
        }
      }
    }
  }

  /** Every `z_max` the search lowers to was judged feasible by a pass, so
      the accumulator returns a sample size for the returned `z_max` unless
      it is the bound the search started from. */
  lemma {:induction false} LoopSizesUpperBound(term: Term, t: Test, maxN: int, s: State)
    ensures var r := Loop(term, t, maxN, s);
            r.Found? && r.zMax != s.zMax ==> RequiredSampleSize(term, t, r.zMax, maxN).Some?
    decreases s.zMax - s.zMin
  {
    match Iterate(term, t, maxN, s)
    case Done(r) =>
      if r.Found? && r.zMax != s.zMax {
        var z := Midpoint(s.zMin, s.zMax);
        FeasiblePassAgrees(term, t, z, maxN, s.last);
      }
    case Next(s') =>
      if s'.zMin != s.zMin || s'.zMax != s.zMax {
        LoopSizesUpperBound(term, t, maxN, s');
        if s'.zMax != s.zMax {
          FeasiblePassAgrees(term, t, Midpoint(s.zMin, s.zMax), maxN, s.last);
        }
      }
  }

  /** Step `s` is a turn that goes on and raises `z_min` to `z`. */
  ghost predicate RaisesTo(term: Term, t: Test, maxN: int, s: State, z: int)
  {
    var it := Iterate(term, t, maxN, s);
    it.Next? && it.state.zMin == z && z != s.zMin
  }

  /** With non-negative terms, a turn that raises `z_min` to `z` does so
      just above a barrier the accumulator cannot size. */
  lemma {:induction false} RaisedAboveRejected(term: Term, t: Test, maxN: int, s: State, r: SearchResult)
    requires NonNegative(term) && r.Found? && RaisesTo(term, t, maxN, s, r.z)
    ensures RequiredSampleSize(term, t, r.z - 2, maxN).None?
  {
    var mid := Midpoint(s.zMin, s.zMax);
    var p := Pass(term, t, mid, maxN, s.last);
    assert p.verdict in {PowerReached(false), NullExceeded};
    InfeasiblePassAgrees(term, t, mid, maxN, s.last);
  }

  /** When the loop run from `s` ends normally with result `r` at a barrier
      other than the starting `z_min`, some turn on the way raised `z_min` to
      that barrier. */
  lemma {:induction false} LoopRaisingTurn(term: Term, t: Test, maxN: int, s: State, r: SearchResult) returns (s': State)
    requires WellFormed(s) && r == Loop(term, t, maxN, s)
    requires r.Found? && r.exit == Converged && r.z != s.zMin
    ensures RaisesTo(term, t, maxN, s', r.z)
    decreases s.zMax - s.zMin
  {
    var it := Iterate(term, t, maxN, s);
    if it.Done? {
      assert false;
    } else if r.z == it.state.zMin {
      s' := s;
    } else {
      s' := LoopRaisingTurn(term, t, maxN, it.state, r);
    }
  }

  /** With non-negative terms, every `z_min` the search raises to sits just
      above a barrier the accumulator cannot size; so when the loop run from
      `s` ends normally with result `r`, the barrier two below the returned
      one has no sample size, unless the search never moved `z_min`. */
  lemma {:induction false} LoopRejectsBelow(term: Term, t: Test, maxN: int, s: State, r: SearchResult)
    requires NonNegative(term) && WellFormed(s) && r == Loop(term, t, maxN, s)
    ensures r.Found? && r.exit == Converged && r.z != s.zMin ==> RequiredSampleSize(term, t, r.z - 2, maxN).None?
  {
    if r.Found? && r.exit == Converged && r.z != s.zMin {
      var s' := LoopRaisingTurn(term, t, maxN, s, r);
      RaisedAboveRejected(term, t, maxN, s', r);
    }
  }

  /** With non-negative terms, when the loop from `s` ends normally at a
      barrier that moved both bounds, that barrier is the lowest feasible one
      the search bracketed: the accumulator sizes it and cannot size the
      barrier two below. */
  lemma {:induction false} LoopFindsLowestBracketed(term: Term, t: Test, maxN: int, s: State, r: SearchResult)
    requires NonNegative(term) && WellFormed(s) && r == Loop(term, t, maxN, s)
    ensures r.Found? && r.exit == Converged && r.z != s.zMin && r.zMax != s.zMax ==>
              && RequiredSampleSize(term, t, r.z, maxN).Some?
              && RequiredSampleSize(term, t, r.z - 2, maxN).None?
  {
    if r.Found? && r.exit == Converged && r.z != s.zMin && r.zMax != s.zMax {
      LoopBounds(term, t, maxN, s);
      LoopSizesUpperBound(term, t, maxN, s);
      LoopRejectsBelow(term, t, maxN, s, r);
    }
  }

  /** Two numbers of one parity less than 2 apart are equal. */
  lemma SameParityClose(a: int, b: int)
    requires a % 2 == b % 2 && a <= b < a + 2
    ensures a == b
  {
  }

  /** When the barriers share the parity of `max_conversions` and none
      exceeds it, every pass either decides or runs to `n == max_conversions`,
      so the search always returns a pair. */
  lemma {:induction false} LoopTerminatesOnMatchingParity(term: Term, t: Test, maxN: int, s: State)
    requires WellFormed(s) && s.zMax <= maxN && maxN % 2 == s.zMin % 2
    ensures Loop(term, t, maxN, s).Found?
    decreases s.zMax - s.zMin
  {
    if s.zMin < s.zMax {
      var z := Midpoint(s.zMin, s.zMax);
      var p := Pass(term, t, z, maxN, s.last);
      if p.verdict.Undecided? {
        SameParityClose(p.last.value, maxN);
      }
      var it := Iterate(term, t, maxN, s);
      if it.Next? {
        LoopTerminatesOnMatchingParity(term, t, maxN, it.state);
      }
    }
  }

  /** The search reads an unbound `n` exactly when its loop is entered with
      a first midpoint beyond `max_conversions`, so that the first pass runs
      over an empty range. */
  lemma SearchUnboundIff(term: Term, t: Test, maxN: int, zMin: int, zMax: int)
    ensures Search(term, t, maxN, zMin, zMax).Unbound? <==> zMin < zMax && maxN < Midpoint(zMin, zMax)
  {
    var s := State(zMin, zMax, None);
    if zMin < zMax {
      var z := Midpoint(zMin, zMax);
      var p := Pass(term, t, z, maxN, None);
      if maxN < z {
        assert p == PassResult(Undecided, None);
      } else {
        assert p.last.Some?;
      }
    }
  }

  /** A turn moves neither bound and goes on, so that the loop repeats it
      forever, in exactly two ways: the pass runs its whole non-empty range
      undecided and its last step `n = max_conversions - 1` falls one short
      (the barrier and `max_conversions` differ in parity), or the range is
      empty and the exit test reads a stale `n` below `max_conversions`, left
      by an earlier pass. */
  lemma RepeatingTurnIff(term: Term, t: Test, maxN: int, s: State)
    ensures (var it := Iterate(term, t, maxN, s);
             it.Next? && it.state.zMin == s.zMin && it.state.zMax == s.zMax)
            <==>
            (&& s.zMin < s.zMax
             && var z := Midpoint(s.zMin, s.zMax);
                || (&& z <= maxN && z % 2 != maxN % 2
                    && forall i :: 0 <= i < Steps(z, maxN) ==> VerdictAt(term, t, z, i).Undecided?)
                || (maxN < z && s.last.Some? && s.last.value < maxN))
  {
    if s.zMin < s.zMax {
      var z := Midpoint(s.zMin, s.zMax);
      var p := Pass(term, t, z, maxN, s.last);
      if z <= maxN && p.verdict.Undecided? && z % 2 == maxN % 2 {
        SameParityClose(p.last.value, maxN);
      }
    }
  }

  /** The stale-`n` way to loop forever: a turn whose range is empty, entered
      with `n` left below `max_conversions` by an earlier pass, moves no bound
      and fails the exit test. */
  lemma StaleCountDiverges(term: Term, t: Test, maxN: int, s: State)
    requires s.zMin < s.zMax && maxN < Midpoint(s.zMin, s.zMax)
    requires s.last.Some? && s.last.value < maxN
    ensures Loop(term, t, maxN, s) == Diverges
  {
    RepeatingTurnIff(term, t, maxN, s);
  }

  /** A pass that decides nothing over a range whose last step `n` falls
      one short of `max_conversions` (the barrier and `max_conversions` differ
      in parity) leaves both bounds as they were and fails the exit test `n >=
      max_conversions`: the search repeats that pass forever. */
  lemma {:induction false} UndecidedOffParityDiverges(term: Term, t: Test, maxN: int, zMin: int, zMax: int)
    requires zMin < zMax
    requires Midpoint(zMin, zMax) <= maxN && maxN % 2 != Midpoint(zMin, zMax) % 2
    requires forall i :: 0 <= i < Steps(Midpoint(zMin, zMax), maxN) ==>
               VerdictAt(term, t, Midpoint(zMin, zMax), i).Undecided?
    ensures Search(term, t, maxN, zMin, zMax) == Diverges
  {
    var z := Midpoint(zMin, zMax);
    PassStopsAt(term, t, z, maxN, None, Steps(z, maxN));
    var it := Iterate(term, t, maxN, State(zMin, zMax, None));
    assert it == Next(State(zMin, zMax, Some(maxN - 1)));
  }

  /** The inner `for` loop of one pass of `search_optimal_z` at barrier
      `z`: it adds one term per hypothesis at each step `n`, and at the first
      decision lowers `z_max` to `z` or raises `z_min` to `z + 2` and breaks.
      It hands back what the outer loop reads afterwards: the two sums, the
      bounds and the loop variable `n`. */
  method RunPass(term: Term, t: Test, z: int, maxN: int, zMin: int, zMax: int, stale: Option<int>)
    returns (nullCdf: Float, altCdf: Float, newMin: int, newMax: int, lastN: Option<int>)
    requires zMin < zMax && z == Midpoint(zMin, zMax)
    ensures var p := Pass(term, t, z, maxN, stale);
            && lastN == p.last
            && ((nullCdf.NaN? || altCdf.NaN?) <==> p.verdict.Breakdown?)
            && (newMin, newMax) == Narrow(zMin, zMax, p.verdict)
  {
    ghost var verdict := Undecided;
    nullCdf, altCdf := Num(0.0), Num(0.0);
    newMin, newMax, lastN := zMin, zMax, stale;
    var n := z;
    ghost var j: nat := 0;
    while n <= maxN
      invariant n == z + 2 * j && j <= Steps(z, maxN)
      invariant nullCdf == Cdf(term, z, t.nullP, j) && altCdf == Cdf(term, z, t.altP, j)
      invariant forall i :: 0 <= i < j ==> VerdictAt(term, t, z, i).Undecided?
      invariant lastN == if j == 0 then stale else Some(n - 2)
      invariant newMin == zMin && newMax == zMax
    {
      nullCdf := Add(nullCdf, term(z, n, t.nullP));
      altCdf := Add(altCdf, term(z, n, t.altP));
      lastN := Some(n);
      if nullCdf.NaN? || altCdf.NaN? {
        verdict := Breakdown;
        break;
      }
      if altCdf.v > t.power {
        if nullCdf.v < t.alpha {
          newMax := z;
        } else {
          newMin := z + 2;
        }
        verdict := PowerReached(nullCdf.v < t.alpha);
        break;
      } else if nullCdf.v > t.alpha {
        newMin := z + 2;
        verdict := NullExceeded;
        break;
      }
      n, j := n + 2, j + 1;
    }
    if verdict.Undecided? && 0 < j {
      assert VerdictAt(term, t, z, j - 1).Undecided?;
    }
    PassStopsAt(term, t, z, maxN, stale, j);
    assert Pass(term, t, z, maxN, stale) == PassResult(verdict, lastN);
  }

  /** `search_optimal_z`, step by step: the outer loop over midpoints, whose
      inner loop (RunPass) leaves the loop variable `n` behind for the exit
      test and for the next pass. Where the source's loop would repeat the
      same pass forever the method returns `Diverges` (FixedPointRepeats). */
  method SearchOptimalZ(term: Term, t: Test, zMin: int, zMax: int, maxN: int) returns (r: SearchResult)
    requires InDomain(t)
    ensures r == Search(term, t, maxN, zMin, zMax)
    ensures r.Found? && zMin <= zMax && zMax % 2 == zMin % 2 ==>
              && zMin <= r.z <= r.zMax <= zMax
              && r.z % 2 == zMin % 2 && r.zMax % 2 == zMin % 2
              && (r.exit == Converged ==> r.z == r.zMax)
    ensures zMin <= zMax && zMax % 2 == zMin % 2 && zMax <= maxN && maxN % 2 == zMin % 2 ==> r.Found?
    ensures r.Unbound? <==> zMin < zMax && maxN < Midpoint(zMin, zMax)
  {
    if zMin <= zMax && zMax % 2 == zMin % 2 && zMax <= maxN && maxN % 2 == zMin % 2 {
      LoopTerminatesOnMatchingParity(term, t, maxN, State(zMin, zMax, None));
    }
    SearchUnboundIff(term, t, maxN, zMin, zMax);
    var low, high := zMin, zMax;
    var z := Midpoint(low, high);
    var lastN: Option<int> := None;
    while low < high
      invariant z == Midpoint(low, high)
      invariant Loop(term, t, maxN, State(low, high, lastN)) == Search(term, t, maxN, zMin, zMax)
      decreases high - low
    {
      var low0, high0 := low, high;
      var nullCdf, altCdf;
      nullCdf, altCdf, low, high, lastN := RunPass(term, t, z, maxN, low, high, lastN);
      if nullCdf.NaN? || altCdf.NaN? {
        return Found(z, high, EarlyExit);
      }
      if lastN.None? {
        return Unbound;
      }
      if lastN.value >= maxN {
        return Found(z, high, EarlyExit);
      }
      if low == low0 && high == high0 {
        return Diverges;
      }
      z := Midpoint(low, high);
    }
    return Found(z, high, Converged);
  }
}
