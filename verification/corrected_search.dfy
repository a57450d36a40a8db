/** The barrier search with its exit test corrected: a pass that decides
    nothing has run its whole range, so the search returns instead of
    repeating the pass. Where the search as written returns a pair, the
    corrected search returns the same pair; it never loops forever and never
    reads an unbound `n`. */
module CorrectedSearch {
  import opened Floats
  import opened Accumulator
  import opened BarrierSearch

  /** One turn of the corrected outer loop: the exit test also fires when the
      pass was undecided, and then it does not read `n`. Every turn that goes
      on strictly shrinks the range. */
  function IterateCorrected(term: Term, t: Test, maxN: int, s: State): (it: Iteration)
    ensures it.Done? ==> it.result.Found?
    ensures it.Next? ==> it.state.zMax - it.state.zMin < s.zMax - s.zMin
    ensures it.Next? && WellFormed(s) ==>
              WellFormed(it.state) && s.zMin <= it.state.zMin && it.state.zMax <= s.zMax
              && it.state.zMin % 2 == s.zMin % 2
    ensures it.Done? && WellFormed(s) ==>
              && s.zMin <= it.result.z <= it.result.zMax <= s.zMax
              && it.result.z % 2 == s.zMin % 2 && it.result.zMax % 2 == s.zMin % 2
              && (it.result.exit == Converged ==> it.result.z == it.result.zMax && s.zMax <= s.zMin)
  {
    if s.zMin >= s.zMax then Done(Found(Midpoint(s.zMin, s.zMax), s.zMax, Converged))
    else
      var z := Midpoint(s.zMin, s.zMax);
      var p := Pass(term, t, z, maxN, s.last);
      var b := Narrow(s.zMin, s.zMax, p.verdict);
      if p.verdict.Breakdown? || p.verdict.Undecided? then Done(Found(z, b.1, EarlyExit))
      else if p.last.value >= maxN then Done(Found(z, b.1, EarlyExit))
      else Next(State(b.0, b.1, p.last))
  }

  /** The corrected outer loop run to its end: it always returns a pair. */
  function LoopCorrected(term: Term, t: Test, maxN: int, s: State): (r: SearchResult)
    ensures r.Found?
    decreases s.zMax - s.zMin
  {
    match IterateCorrected(term, t, maxN, s)
    case Done(r) => r
    case Next(s') => LoopCorrected(term, t, maxN, s')
  }

  /** The value of the corrected `search_optimal_z(zMin, zMax, ...)`. */
  function SearchCorrected(term: Term, t: Test, maxN: int, zMin: int, zMax: int): (r: SearchResult)
    ensures r.Found?
  {
    LoopCorrected(term, t, maxN, State(zMin, zMax, None))
  }

  /** A turn differs from the turn as written only where the pass was
      undecided: the turn as written then goes on with unchanged bounds or
      reads an unbound `n`, and the corrected one returns. */
  lemma IterateCorrectedAgrees(term: Term, t: Test, maxN: int, s: State)
    ensures var it := Iterate(term, t, maxN, s);
            || IterateCorrected(term, t, maxN, s) == it
            || (it.Next? && it.state.zMin == s.zMin && it.state.zMax == s.zMax)
            || it == Done(Unbound)
    ensures IterateCorrected(term, t, maxN, s).Next? ==> IterateCorrected(term, t, maxN, s) == Iterate(term, t, maxN, s)
  {
    if s.zMin < s.zMax {
      var z := Midpoint(s.zMin, s.zMax);
      var p := Pass(term, t, z, maxN, s.last);
      if p.verdict.Undecided? && p.last.Some? && p.last.value >= maxN {
        assert IterateCorrected(term, t, maxN, s) == Iterate(term, t, maxN, s);
      }
    }
  }

  /** Wherever the search as written returns a pair, the corrected search
      returns the same pair. */
  lemma {:induction false} LoopCorrectedAgrees(term: Term, t: Test, maxN: int, s: State)
    requires Loop(term, t, maxN, s).Found?
    ensures LoopCorrected(term, t, maxN, s) == Loop(term, t, maxN, s)
    decreases s.zMax - s.zMin
  {
    IterateCorrectedAgrees(term, t, maxN, s);
    var it := Iterate(term, t, maxN, s);
    if it.Next? {
      LoopCorrectedAgrees(term, t, maxN, it.state);
    }
  }

  /** From ordered bounds of one parity, the returned barrier and `z_max`
      lie within the bounds and share their parity; the barrier never exceeds
      `z_max`, and on normal loop exit the two are equal. */
  lemma {:induction false} LoopCorrectedBounds(term: Term, t: Test, maxN: int, s: State)
    requires WellFormed(s)
    ensures var r := LoopCorrected(term, t, maxN, s);
            && s.zMin <= r.z <= r.zMax <= s.zMax
            && r.z % 2 == s.zMin % 2 && r.zMax % 2 == s.zMin % 2
            && (r.exit == Converged ==> r.z == r.zMax)
    decreases s.zMax - s.zMin
  {
    var it := IterateCorrected(term, t, maxN, s);
    if it.Next? {
      LoopCorrectedBounds(term, t, maxN, it.state);
    }
  }

  /** The returned `z_max`, when the search moved it, was judged feasible
      by a pass, so the accumulator returns a sample size for it. */
  lemma {:induction false} LoopCorrectedSizesUpperBound(term: Term, t: Test, maxN: int, s: State)
    ensures var r := LoopCorrected(term, t, maxN, s);
            r.zMax != s.zMax ==> RequiredSampleSize(term, t, r.zMax, maxN).Some?
    decreases s.zMax - s.zMin
  {
    var it := IterateCorrected(term, t, maxN, s);
    if s.zMin < s.zMax {
      var z := Midpoint(s.zMin, s.zMax);
      if Pass(term, t, z, maxN, s.last).verdict == PowerReached(true) {
        FeasiblePassAgrees(term, t, z, maxN, s.last);
      }
    }
    if it.Next? {
      LoopCorrectedSizesUpperBound(term, t, maxN, it.state);
    }
  }

  /** When the corrected loop run from `s` ends normally with result `r` at
      a barrier other than the starting `z_min`, some turn on the way raised
      `z_min` to that barrier. */
  lemma {:induction false} LoopCorrectedRaisingTurn(term: Term, t: Test, maxN: int, s: State, r: SearchResult)
    returns (s': State)
    requires WellFormed(s) && r == LoopCorrected(term, t, maxN, s)
    requires r.exit == Converged && r.z != s.zMin
    ensures RaisesTo(term, t, maxN, s', r.z)
    decreases s.zMax - s.zMin
  {
    var it := IterateCorrected(term, t, maxN, s);
    if it.Done? {
      assert false;
    } else if r.z == it.state.zMin {
      IterateCorrectedAgrees(term, t, maxN, s);
      s' := s;
    } else {
      s' := LoopCorrectedRaisingTurn(term, t, maxN, it.state, r);
    }
  }

  /** With non-negative terms, when the corrected loop run from `s` ends
      normally with result `r` at a barrier above the starting `z_min`, the
      accumulator cannot size the barrier just below it: the search has found
      the lowest feasible barrier it could bracket. */
  lemma {:induction false} LoopCorrectedRejectsBelow(term: Term, t: Test, maxN: int, s: State, r: SearchResult)
    requires NonNegative(term) && WellFormed(s) && r == LoopCorrected(term, t, maxN, s)
    ensures r.exit == Converged && r.z != s.zMin ==> RequiredSampleSize(term, t, r.z - 2, maxN).None?
  {
    if r.exit == Converged && r.z != s.zMin {
      var s' := LoopCorrectedRaisingTurn(term, t, maxN, s, r);
      RaisedAboveRejected(term, t, maxN, s', r);
    }
  }

  /** With non-negative terms, when the corrected loop from `s` ends
      normally at a barrier that moved both bounds, that barrier is the lowest
      feasible one the search bracketed: the accumulator sizes it and cannot
      size the barrier two below. */
  lemma {:induction false} LoopCorrectedFindsLowestBracketed(term: Term, t: Test, maxN: int, s: State, r: SearchResult)
    requires NonNegative(term) && WellFormed(s) && r == LoopCorrected(term, t, maxN, s)
    ensures r.exit == Converged && r.z != s.zMin && r.zMax != s.zMax ==>
              && RequiredSampleSize(term, t, r.z, maxN).Some?
              && RequiredSampleSize(term, t, r.z - 2, maxN).None?
  {
    if r.exit == Converged && r.z != s.zMin && r.zMax != s.zMax {
      LoopCorrectedBounds(term, t, maxN, s);
      LoopCorrectedSizesUpperBound(term, t, maxN, s);
      LoopCorrectedRejectsBelow(term, t, maxN, s, r);
    }
  }

  /** The corrected `search_optimal_z`: the loop of SearchOptimalZ whose exit
      test also fires when a pass moved neither bound. */
  method SearchOptimalZCorrected(term: Term, t: Test, zMin: int, zMax: int, maxN: int) returns (r: SearchResult)
    requires InDomain(t)
    ensures r == SearchCorrected(term, t, maxN, zMin, zMax)
    ensures zMin <= zMax && zMax % 2 == zMin % 2 ==>
              && zMin <= r.z <= r.zMax <= zMax
              && r.z % 2 == zMin % 2 && r.zMax % 2 == zMin % 2
              && (r.exit == Converged ==> r.z == r.zMax)
  {
    if zMin <= zMax && zMax % 2 == zMin % 2 {
      LoopCorrectedBounds(term, t, maxN, State(zMin, zMax, None));
    }
    var low, high := zMin, zMax;
    var z := Midpoint(low, high);
    var lastN: Option<int> := None;
    while low < high
      invariant z == Midpoint(low, high)
      invariant LoopCorrected(term, t, maxN, State(low, high, lastN)) == SearchCorrected(term, t, maxN, zMin, zMax)
      decreases high - low
    {
      var low0, high0 := low, high;
      var nullCdf, altCdf;
      nullCdf, altCdf, low, high, lastN := RunPass(term, t, z, maxN, low, high, lastN);
      if nullCdf.NaN? || altCdf.NaN? || (low == low0 && high == high0) {
        return Found(z, high, EarlyExit);
      }
      if lastN.value >= maxN {
        return Found(z, high, EarlyExit);
      }
      z := Midpoint(low, high);
    }
    return Found(z, high, Converged);
  }
}
