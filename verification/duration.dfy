/** Test duration and its inverse: `calculateTestDuration` divides the
    per-arm sample size by the limiting arm's daily visitors and rounds up;
    `calculateMDEFromDuration` multiplies a number of days by the same
    daily visitors and asks the inverse solver for the effect. */
module Duration {
  import opened Numerics
  import opened SampleSize
  import opened MdeInverse
  import opened Distributions

  /** The daily visitors of the arm that limits the test: the smallest
      share of the traffic when every slider was read and they differ, an
      equal share of `variantCount` otherwise. */
  function DailyVisitors(visitors: real, variantCount: int, info: DistributionInfo): real
    requires 0 < variantCount
  {
    if info.isUnequal && |info.distributions| == variantCount then visitors * info.lowestPercentage
    else visitors / variantCount as real
  }

  /** With positive visitors and a positive smallest share the limiting
      arm receives visitors every day. */
  lemma DailyVisitorsPositive(visitors: real, variantCount: int, info: DistributionInfo)
    requires 0 < variantCount && 0.0 < visitors && 0.0 < info.lowestPercentage
    ensures 0.0 < DailyVisitors(visitors, variantCount, info)
  {
    if info.isUnequal && |info.distributions| == variantCount {
      assert 0.0 < visitors * info.lowestPercentage;
    }
  }

  /** `calculateTestDuration`: no days without visitors; otherwise the
      sample size over the daily visitors, rounded up. A limiting arm
      without visitors gives JavaScript's Infinity or NaN. */
  function TestDuration(sampleSize: real, visitors: real, variantCount: int, info: DistributionInfo): (days: Extended<int>)
    requires 0 < variantCount
    ensures visitors <= 0.0 ==> days == Finite(0)
    ensures days.NonFinite? <==> 0.0 < visitors && DailyVisitors(visitors, variantCount, info) == 0.0
    ensures 0.0 < visitors && 0.0 < DailyVisitors(visitors, variantCount, info) ==>
              days.Finite?
              && sampleSize <= days.value as real * DailyVisitors(visitors, variantCount, info)
              && (days.value - 1) as real * DailyVisitors(visitors, variantCount, info) < sampleSize
  {
    if visitors <= 0.0 then Finite(0)
    else
      var daily := DailyVisitors(visitors, variantCount, info);
      if daily == 0.0 then NonFinite
      else
        var d := Ceil(sampleSize / daily);
        if 0.0 < daily then CeilDivision(sampleSize, daily); Finite(d) else Finite(d)
  }

  /** Rounding a quotient up gives the least multiple count covering the dividend. */
  lemma CeilDivision(n: real, daily: real)
    requires 0.0 < daily
    ensures n <= Ceil(n / daily) as real * daily
    ensures (Ceil(n / daily) - 1) as real * daily < n
  {
    BelowQuotient((Ceil(n / daily) - 1) as real, n, daily);
    AboveQuotient(Ceil(n / daily) as real, n, daily);
  }

  lemma BelowQuotient(a: real, n: real, d: real)
    requires 0.0 < d && a < n / d
    ensures a * d < n
  {
    MultiplyStrict(a, n / d, d);
  }

  lemma AboveQuotient(a: real, n: real, d: real)
    requires 0.0 < d && n / d <= a
    ensures n <= a * d
  {
    MultiplyOrdered(n / d, a, d);
  }

  lemma MultiplyOrdered(a: real, b: real, k: real)
    requires a <= b && 0.0 < k
    ensures a * k <= b * k
  {
  }

  lemma MultiplyStrict(a: real, b: real, k: real)
    requires a < b && 0.0 < k
    ensures a * k < b * k
  {
  }

  /** The duration is the least whole number of days whose visitors reach
      the sample size. */
  lemma DurationIsLeast(sampleSize: real, visitors: real, variantCount: int, info: DistributionInfo, days: int)
    requires 0 < variantCount && 0.0 < visitors && 0.0 < DailyVisitors(visitors, variantCount, info)
    requires sampleSize <= days as real * DailyVisitors(visitors, variantCount, info)
    ensures TestDuration(sampleSize, visitors, variantCount, info).value <= days
  {
    var daily := DailyVisitors(visitors, variantCount, info);
    var d := TestDuration(sampleSize, visitors, variantCount, info).value;
    if days < d {
      MultiplyOrdered(days as real, (d - 1) as real, daily);
    }
  }

  /** The sample `calculateMDEFromDuration` credits to each arm after `days` days. */
  function SampleForDays(days: real, visitors: real, variantCount: int, info: DistributionInfo): real
    requires 0 < variantCount
  {
    days * DailyVisitors(visitors, variantCount, info)
  }

  /** The visitors per day after the traffic-flow percentage is applied. */
  function EffectiveVisitors(visitors: real, trafficFlow: real): real {
    visitors * (trafficFlow / 100.0)
  }

  /** `calculateMDEFromDuration`: the effect detectable with the sample the
      limiting arm collects in `days` days. The parameters' variant count
      is the one the daily visitors are divided by. */
  function MDEFromDuration(m: MathLib, days: real, visitors: real, trafficFlow: real,
                           info: DistributionInfo, params: InverseParams): (r: Result<Extended<real>>)
    requires Lawful(m)
    requires 0 < params.variantCount
    ensures r.Ok? <==> ZScores(m, InverseArgs(m, params)).Ok?
    ensures r.Ok? && r.value.Finite? && BufferFactor(params.buffer) == 0.0 ==> r.value.value == 0.0
    ensures r.Ok? && r.value.Finite? && UsesQuadratic(params.t) && (params.isRelative ==> 0.0 < params.baseline) ==>
              BufferFactor(params.buffer) != 0.0 && 0.0 < r.value.value
    ensures r.Ok? && r.value.Finite? && !UsesQuadratic(params.t) && BufferFactor(params.buffer) != 0.0 ==>
              0.0 < SampleForDays(days, EffectiveVisitors(visitors, trafficFlow), params.variantCount, info)
                    / BufferFactor(params.buffer)
  {
    MDEFromSampleSize(m, SampleForDays(days, EffectiveVisitors(visitors, trafficFlow), params.variantCount, info), params)
  }

  /** Duration and MDE-from-duration are inverse on whole days: the sample
      credited to `days` whole days needs exactly `days` days. */
  lemma DurationOfDaysSample(days: nat, visitors: real, variantCount: int, info: DistributionInfo)
    requires 0 < variantCount && 0.0 < visitors && 0.0 < DailyVisitors(visitors, variantCount, info)
    ensures TestDuration(SampleForDays(days as real, visitors, variantCount, info), visitors, variantCount, info)
         == Finite(days)
  {
    var daily := DailyVisitors(visitors, variantCount, info);
    CancelFactor(days as real, daily);
    assert SampleForDays(days as real, visitors, variantCount, info) / daily == days as real;
  }
}
