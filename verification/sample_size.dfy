/** The estimator's entry point (`estimate_sequential_sample_size`): it
    derives the alternative success probability from the baseline rate and
    the effect, searches for a barrier among the odd and among the even
    barriers, sizes both, and reports the smaller sample size. */
module SampleSize {
  import opened Floats
  import opened Accumulator
  import opened BarrierSearch
  import opened CorrectedSearch

  /** The largest step `n` any scan reaches. */
  const MAX_CONVERSIONS: int := 800000

  /** The upper end of the even barrier range; the odd range ends one below. */
  const MAX_BARRIER: int := 5000

  /** The success probability under the null hypothesis: even odds. */
  const NULL_P: real := 0.5

  /** `1 / (1 + (baseline + effect) / baseline)`: the success probability of
      the walk under the alternative, that is the baseline's share of the two
      groups' rates together. No effect gives even odds, a positive effect a
      probability below one half. */
  function ImpliedAltP(baselineRate: real, effectSize: real): (p: real)
    requires baselineRate != 0.0 && 2.0 * baselineRate + effectSize != 0.0
    ensures p * (2.0 * baselineRate + effectSize) == baselineRate
    ensures p == NULL_P <==> effectSize == 0.0
    ensures 0.0 < baselineRate && 0.0 < baselineRate + effectSize ==> 0.0 < p < 1.0
    ensures 0.0 < baselineRate && 0.0 < effectSize ==> p < NULL_P
  {
    var d := 2.0 * baselineRate + effectSize;
    var q := (baselineRate + effectSize) / baselineRate;
    QuotientTimesDivisor(baselineRate + effectSize, baselineRate);
    assert (1.0 + q) * baselineRate == d;
    var p := 1.0 / (1.0 + q);
    QuotientTimesDivisor(1.0, 1.0 + q);
    assert p * d == baselineRate by {
      assert p * d == (p * (1.0 + q)) * baselineRate;
    }
    ShareBounds(p, baselineRate, d);
    p
  }

  /** Real division by a non-zero divisor is undone by multiplying back. */
  lemma QuotientTimesDivisor(x: real, y: real)
    requires y != 0.0
    ensures (x / y) * y == x
  {
  }

  /** Multiplying by a non-negative factor keeps an order. */
  lemma ScaledOrder(x: real, c: real, y: real)
    requires c <= x && 0.0 <= y
    ensures c * y <= x * y
  {
    assert 0.0 <= (x - c) * y;
    assert (x - c) * y == x * y - c * y;
  }

  /** The share `p` with `p * d == b` of a non-zero part `b`: one half exactly
      when the whole is twice the part, a proper fraction when a positive
      part is less than the whole, and below one half when it is less than
      half the whole. */
  lemma ShareBounds(p: real, b: real, d: real)
    requires p * d == b && b != 0.0
    ensures p == 0.5 <==> d == 2.0 * b
    ensures 0.0 < b < d ==> 0.0 < p < 1.0
    ensures 0.0 < b && 2.0 * b < d ==> p < 0.5
  {
    if p == 0.5 {
      assert d == 2.0 * b;
    }
    if d == 2.0 * b {
      assert (2.0 * p - 1.0) * b == 2.0 * (p * d) - 2.0 * b - b + b;
      ProductZero(2.0 * p - 1.0, b);
    }
    if 0.0 < b < d {
      if p <= 0.0 {
        ScaledOrder(0.0, p, d);
      }
      if 1.0 <= p {
        ScaledOrder(p, 1.0, d);
      }
    }
    if 0.0 < b && 2.0 * b < d && 0.5 <= p {
      ScaledOrder(p, 0.5, d);
    }
  }

  /** A product with a non-zero factor is zero only when the other factor is. */
  lemma ProductZero(x: real, y: real)
    requires x * y == 0.0 && y != 0.0
    ensures x == 0.0
  {
    QuotientTimesDivisor(x * y, y);
  }

  /** The thresholds and the two hypotheses the estimator works with. */
  function Hypotheses(alpha: real, power: real, baselineRate: real, effectSize: real): Test
    requires baselineRate != 0.0 && 2.0 * baselineRate + effectSize != 0.0
  {
    Test(alpha, power, NULL_P, ImpliedAltP(baselineRate, effectSize))
  }

  /** What the estimator reports: a sample size (undefined when neither
      barrier can be sized) and the barrier it belongs to. */
  datatype Estimate = Estimate(sampleSize: Option<int>, barrier: int)

  /** The choice between the odd and the even candidate: the even one when
      the odd size is undefined or the even size is strictly smaller, the odd
      one otherwise (an undefined even size compares as not smaller). */
  function Select(oddN: Option<int>, oddZ: int, evenN: Option<int>, evenZ: int): (e: Estimate)
    ensures e == Estimate(oddN, oddZ) || e == Estimate(evenN, evenZ)
    ensures e.sampleSize.None? <==> oddN.None? && evenN.None?
    ensures e.sampleSize.Some? ==>
              && (oddN.Some? ==> e.sampleSize.value <= oddN.value)
              && (evenN.Some? ==> e.sampleSize.value <= evenN.value)
    ensures oddN.None? ==> e == Estimate(evenN, evenZ)
    ensures oddN.Some? && (evenN.None? || oddN.value <= evenN.value) ==> e == Estimate(oddN, oddZ)
  {
    if oddN.None? || (evenN.Some? && evenN.value < oddN.value) then Estimate(evenN, evenZ)
    else Estimate(oddN, oddZ)
  }

  /** The barrier found among the odd barriers `1 .. MAX_BARRIER - 1`: an
      odd barrier in that range. */
  function OddBarrier(term: Term, t: Test): (z: int)
    ensures 1 <= z <= MAX_BARRIER - 1
    ensures z % 2 == 1
  {
    var s := State(1, MAX_BARRIER - 1, None);
    LoopCorrectedBounds(term, t, MAX_CONVERSIONS, s);
    var r := LoopCorrected(term, t, MAX_CONVERSIONS, s);
    assert r.z % 2 == s.zMin % 2 && s.zMin == 1;
    r.z
  }

  /** The barrier found among the even barriers `2 .. MAX_BARRIER`: an even
      barrier in that range. */
  function EvenBarrier(term: Term, t: Test): (z: int)
    ensures 2 <= z <= MAX_BARRIER
    ensures z % 2 == 0
  {
    var s := State(2, MAX_BARRIER, None);
    LoopCorrectedBounds(term, t, MAX_CONVERSIONS, s);
    var r := LoopCorrected(term, t, MAX_CONVERSIONS, s);
    assert r.z % 2 == s.zMin % 2 && s.zMin == 2;
    r.z
  }

  /** The value of `estimate_sequential_sample_size` for the hypotheses `t`.
      The reported barrier is one of the two search results; a reported
      sample size is the accumulator's answer for the reported barrier,
      within `barrier .. MAX_CONVERSIONS`, and no larger than the other
      candidate's; it is undefined exactly when neither barrier can be
      sized. */
  function EstimateFor(term: Term, t: Test): (e: Estimate)
    ensures e.barrier == OddBarrier(term, t) || e.barrier == EvenBarrier(term, t)
    ensures 1 <= e.barrier <= MAX_BARRIER
    ensures e.sampleSize.Some? ==>
              && e.sampleSize == RequiredSampleSize(term, t, e.barrier, MAX_CONVERSIONS)
              && e.barrier <= e.sampleSize.value <= MAX_CONVERSIONS
    ensures e.sampleSize.Some? ==>
              && (RequiredSampleSize(term, t, OddBarrier(term, t), MAX_CONVERSIONS).Some? ==>
                    e.sampleSize.value <= RequiredSampleSize(term, t, OddBarrier(term, t), MAX_CONVERSIONS).value)
              && (RequiredSampleSize(term, t, EvenBarrier(term, t), MAX_CONVERSIONS).Some? ==>
                    e.sampleSize.value <= RequiredSampleSize(term, t, EvenBarrier(term, t), MAX_CONVERSIONS).value)
    ensures e.sampleSize.None? <==>
              && RequiredSampleSize(term, t, OddBarrier(term, t), MAX_CONVERSIONS).None?
              && RequiredSampleSize(term, t, EvenBarrier(term, t), MAX_CONVERSIONS).None?
  {
    var oddZ, evenZ := OddBarrier(term, t), EvenBarrier(term, t);
    Select(RequiredSampleSize(term, t, oddZ, MAX_CONVERSIONS), oddZ,
           RequiredSampleSize(term, t, evenZ, MAX_CONVERSIONS), evenZ)
  }

  /** `estimate_sequential_sample_size`: two barrier searches, two sample
      sizes, and the smaller of the two. */
  method EstimateSequentialSampleSize(term: Term, alpha: real, power: real, baselineRate: real, effectSize: real)
    returns (e: Estimate)
    requires baselineRate != 0.0 && 2.0 * baselineRate + effectSize != 0.0
    requires 0.0 < ImpliedAltP(baselineRate, effectSize) < 1.0
    ensures e == EstimateFor(term, Hypotheses(alpha, power, baselineRate, effectSize))
    ensures 1 <= e.barrier <= MAX_BARRIER
    ensures e.sampleSize.Some? ==>
              e.sampleSize == RequiredSampleSize(term, Hypotheses(alpha, power, baselineRate, effectSize), e.barrier, MAX_CONVERSIONS)
  {
    var t := Hypotheses(alpha, power, baselineRate, effectSize);
    assert InDomain(t);
    var odd := SearchOptimalZCorrected(term, t, 1, MAX_BARRIER - 1, MAX_CONVERSIONS);
    var even := SearchOptimalZCorrected(term, t, 2, MAX_BARRIER, MAX_CONVERSIONS);
    var oddN := ComputeRequiredSampleSize(term, t, odd.z, MAX_CONVERSIONS);
    var evenN := ComputeRequiredSampleSize(term, t, even.z, MAX_CONVERSIONS);
    e := Select(oddN, odd.z, evenN, even.z);
  }
}
