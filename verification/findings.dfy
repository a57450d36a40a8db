/** Two inputs on which `search_optimal_z` as written does not return, and
    what the corrected search returns on them instead. */
module SearchFindings {
  import opened Floats
  import opened Accumulator
  import opened BarrierSearch
  import opened CorrectedSearch
  import opened SampleSize

  /** A series term of 1e-7 at every step: a walk so weak that neither
      hypothesis gets near its threshold within `MAX_CONVERSIONS` steps. */
  function TinyTerm(z: int, n: int, p: real): Float
  {
    Num(0.0000001)
  }

  /** After `count` steps the running sum of TinyTerm is `count * 1e-7`. */
  lemma {:induction false} TinyCdf(z: int, p: real, count: nat)
    ensures Cdf(TinyTerm, z, p, count) == Num(count as real * 0.0000001)
  {
    if count > 0 {
      TinyCdf(z, p, count - 1);
    }
  }

  /** Under TinyTerm no step of barrier 2499 decides: after at most 398751
      steps both sums are below 0.04. */
  lemma TinyUndecided(t: Test, i: nat)
    requires t.alpha == 0.05 && t.power == 0.8
    requires i < Steps(2499, MAX_CONVERSIONS)
    ensures VerdictAt(TinyTerm, t, 2499, i).Undecided?
  {
    TinyCdf(2499, t.nullP, i + 1);
    TinyCdf(2499, t.altP, i + 1);
  }

  /** The odd search of `estimate_sequential_sample_size`, on the range
      `1 .. 4999` with the default `MAX_CONVERSIONS`, never returns under
      TinyTerm: its first midpoint 2499 is odd, the pass runs undecided to
      `n = 799999`, the exit test `n >= 800000` fails, neither bound moves,
      and the same pass repeats. */
  lemma OddSearchDiverges(altP: real)
    ensures Search(TinyTerm, Test(0.05, 0.8, NULL_P, altP), MAX_CONVERSIONS, 1, MAX_BARRIER - 1) == Diverges
  {
    var t := Test(0.05, 0.8, NULL_P, altP);
    assert Midpoint(1, MAX_BARRIER - 1) == 2499;
    forall i | 0 <= i < Steps(2499, MAX_CONVERSIONS)
      ensures VerdictAt(TinyTerm, t, 2499, i).Undecided?
    {
      TinyUndecided(t, i);
    }
    UndecidedOffParityDiverges(TinyTerm, t, MAX_CONVERSIONS, 1, MAX_BARRIER - 1);
  }

  /** On the same input the corrected search stops after that one pass and
      returns the midpoint with the unchanged upper bound. */
  lemma OddSearchCorrected(altP: real)
    ensures SearchCorrected(TinyTerm, Test(0.05, 0.8, NULL_P, altP), MAX_CONVERSIONS, 1, MAX_BARRIER - 1)
              == Found(2499, MAX_BARRIER - 1, EarlyExit)
  {
    var t := Test(0.05, 0.8, NULL_P, altP);
    assert Midpoint(1, MAX_BARRIER - 1) == 2499;
    forall i | 0 <= i < Steps(2499, MAX_CONVERSIONS)
      ensures VerdictAt(TinyTerm, t, 2499, i).Undecided?
    {
      TinyUndecided(t, i);
    }
    PassStopsAt(TinyTerm, t, 2499, MAX_CONVERSIONS, None, Steps(2499, MAX_CONVERSIONS));
  }

  /** `search_optimal_z(1, 5, ..., max_conversions=2)`: the first midpoint 3
      exceeds `max_conversions`, the inner loop never binds `n`, and the exit
      test reads it. The corrected search returns `(3, 5)` instead. */
  lemma ShortRangeUnbound(term: Term, t: Test)
    ensures Search(term, t, 2, 1, 5) == Unbound
    ensures SearchCorrected(term, t, 2, 1, 5) == Found(3, 5, EarlyExit)
  {
    SearchUnboundIff(term, t, 2, 1, 5);
    assert Midpoint(1, 5) == 3;
    PassStopsAt(term, t, 3, 2, None, 0);
  }

  /** A series term of 0.1 at every step: after the first step `null_cdf`
      is already above an `alpha` of 0.05 while `alt_cdf` is below a `power`
      of 0.8. */
  function HeavyTerm(z: int, n: int, p: real): Float
  {
    Num(0.1)
  }

  /** `search_optimal_z(1, 101, ..., max_conversions=60)` under HeavyTerm:
      the pass at 51 finds `null_cdf > alpha` at `n = 51` and raises `z_min`
      to 53; the next midpoint 77 lies beyond 60, so its range is empty, the
      exit test reads the stale `n = 51`, no bound moves, and the same turn
      repeats forever. The corrected search returns `(77, 101)` instead. */
  lemma StaleSearchDiverges(altP: real)
    ensures Search(HeavyTerm, Test(0.05, 0.8, NULL_P, altP), 60, 1, 101) == Diverges
    ensures SearchCorrected(HeavyTerm, Test(0.05, 0.8, NULL_P, altP), 60, 1, 101) == Found(77, 101, EarlyExit)
  {
    var t := Test(0.05, 0.8, NULL_P, altP);
    assert Midpoint(1, 101) == 51 && Midpoint(53, 101) == 77;
    assert Cdf(HeavyTerm, 51, t.nullP, 1) == Num(0.1) && Cdf(HeavyTerm, 51, t.altP, 1) == Num(0.1);
    assert VerdictAt(HeavyTerm, t, 51, 0) == NullExceeded;
    PassStopsAt(HeavyTerm, t, 51, 60, None, 0);
    PassStopsAt(HeavyTerm, t, 77, 60, Some(51), 0);
    StaleCountDiverges(HeavyTerm, t, 60, State(53, 101, Some(51)));
  }
}
