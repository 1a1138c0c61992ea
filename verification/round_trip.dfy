/** MDE -> sample size -> MDE: the inverse solver gives back the entered
    effect from the forward solver's unrounded sample size, for each of the
    four recognised test types. */
module RoundTrip {
  import opened Numerics
  import opened TestTypes
  import opened SampleSize
  import opened EffectModel
  import opened MdeInverse

  /** The parameters of the inverse solver matching a forward call. */
  function InverseFor(baseline: real, alpha: real, power: real, variantCount: int, buffer: real,
                      t: TestType, correction: Correction, isRelative: bool): InverseParams {
    InverseParams(baseline, alpha, power, variantCount, buffer, t, correction, isRelative)
  }

  /** The forward sample size before rounding, for the effect `calculateMDE` derives. */
  function ForwardSize(m: MathLib, baseline: real, mde: real, isRelative: bool, alpha: real, power: real,
                       variantCount: int, buffer: real, t: TestType, correction: Correction): Result<Extended<real>>
    requires Lawful(m)
    requires 0.0 < baseline
  {
    var e := CalculateMDE(baseline, mde, isRelative, t);
    UnroundedSampleSize(m, e.baselineRate, e.relMDE.value, alpha, power, variantCount, buffer, t, correction)
  }

  /** The absolute effect rate * relMDE is the entered effect, signed by the test's direction. */
  lemma AbsoluteEffectRecovered(baseline: real, mde: real, isRelative: bool, t: TestType)
    requires 0.0 < baseline
    ensures var e := CalculateMDE(baseline, mde, isRelative, t);
            e.baselineRate * e.relMDE.value == Direction(t) * AbsoluteEffect(e.baselineRate, mde, isRelative)
  {
    var e := CalculateMDE(baseline, mde, isRelative, t);
    assert e.relMDE.value * e.baselineRate == e.targetRate - e.baselineRate;
  }

  /** The forward size for the entered effect, with the absolute effect named. */
  lemma ForwardSizeUnfold(m: MathLib, baseline: real, mde: real, isRelative: bool, alpha: real, power: real,
                          variantCount: int, buffer: real, t: TestType, correction: Correction, x: real)
    requires Lawful(m)
    requires 0.0 < baseline
    requires x == Direction(t) * AbsoluteEffect(baseline / 100.0, mde, isRelative)
    requires ZScores(m, ForwardArgs(m, alpha, power, variantCount, t, correction)).Ok?
    ensures var z := ZScores(m, ForwardArgs(m, alpha, power, variantCount, t, correction)).value;
            ForwardSize(m, baseline, mde, isRelative, alpha, power, variantCount, buffer, t, correction)
            == Ok(SizeForZ(z.0 + z.1, baseline / 100.0, x, buffer, t))
  {
    var e := CalculateMDE(baseline, mde, isRelative, t);
    AbsoluteEffectRecovered(baseline, mde, isRelative, t);
    UnroundedUnfold(m, e.baselineRate, e.relMDE.value, alpha, power, variantCount, buffer, t, correction, x);
  }

  /** Un-buffering undoes buffering. */
  lemma Unbuffer(r: real, buffer: real)
    requires BufferFactor(buffer) != 0.0
    ensures Buffered(r, buffer) / BufferFactor(buffer) == r
  {
    CancelFactor(r, BufferFactor(buffer));
  }

  /** Scaling the absolute effect back to the entered percentage. */
  lemma PercentRecovered(rate: real, mde: real, isRelative: bool)
    requires 0.0 < rate
    ensures ToPercent(Finite(AbsoluteEffect(rate, mde, isRelative)), rate, isRelative) == Finite(mde)
  {
    if isRelative {
      CancelFactor(mde / 100.0, rate);
      assert rate * (mde / 100.0) / rate == mde / 100.0;
    }
  }

  /** The z-scores of the inverse solver equal the forward ones for the recognised types. */
  lemma SameQuantiles(m: MathLib, alpha: real, power: real, variantCount: int, buffer: real,
                      t: TestType, correction: Correction, baseline: real, isRelative: bool)
    requires !t.Other?
    ensures InverseArgs(m, InverseFor(baseline, alpha, power, variantCount, buffer, t, correction, isRelative))
         == ForwardArgs(m, alpha, power, variantCount, t, correction)
  {
    QuantileArgsAgree(t, AdjustAlpha(m, alpha, variantCount, correction), power);
  }

  /** A positive entered effect is a positive absolute effect on a positive baseline. */
  lemma PositiveEffect(rate: real, mde: real, isRelative: bool)
    requires 0.0 < rate && 0.0 < mde
    ensures 0.0 < AbsoluteEffect(rate, mde, isRelative)
  {
    if isRelative {
      assert 0.0 < rate * (mde / 100.0);
    }
  }

  /** The inverse solver on a buffered requirement, with its quantiles named. */
  lemma InverseOfBuffered(m: MathLib, params: InverseParams, zSum: real, req: real)
    requires Lawful(m)
    requires ZScores(m, InverseArgs(m, params)).Ok?
    requires ZScores(m, InverseArgs(m, params)).value.0 + ZScores(m, InverseArgs(m, params)).value.1 == zSum
    requires BufferFactor(params.buffer) != 0.0
    ensures UsesQuadratic(params.t) ==>
              MDEFromSampleSize(m, Buffered(req, params.buffer), params)
              == Ok(ToPercent(QuadraticMDE(m, Square(zSum), req, params.baseline / 100.0), params.baseline / 100.0, params.isRelative))
    ensures !UsesQuadratic(params.t) ==>
              MDEFromSampleSize(m, Buffered(req, params.buffer), params)
              == Ok(ToPercent(MarginMDE(m, zSum, req, params.baseline / 100.0), params.baseline / 100.0, params.isRelative))
  {
    MDEFromSampleSizeUnfold(m, Buffered(req, params.buffer), params, zSum);
    Unbuffer(req, params.buffer);
    ProportionUnfold(m, params.t, zSum, Buffered(req, params.buffer), params.buffer, params.baseline / 100.0, req);
  }

  /** The forward half: the unrounded size is the buffered requirement
      for the named absolute effect and z sum. */
  lemma ForwardStage(m: MathLib, baseline: real, mde: real, isRelative: bool, alpha: real, power: real,
                     variantCount: int, buffer: real, t: TestType, correction: Correction,
                     zSum: real, p: real, x: real)
    requires Lawful(m)
    requires !t.Other?
    requires p == baseline / 100.0 && Epsilon <= p <= 1.0 - Epsilon
    requires x == Direction(t) * AbsoluteEffect(p, mde, isRelative) && x != 0.0
    requires UsesQuadratic(t) ==> Epsilon <= p + x <= 1.0 - Epsilon
    requires ZScores(m, ForwardArgs(m, alpha, power, variantCount, t, correction)).Ok?
    requires ZScores(m, ForwardArgs(m, alpha, power, variantCount, t, correction)).value.0
           + ZScores(m, ForwardArgs(m, alpha, power, variantCount, t, correction)).value.1 == zSum
    ensures UsesQuadratic(t) ==>
              ForwardSize(m, baseline, mde, isRelative, alpha, power, variantCount, buffer, t, correction)
              == Ok(Finite(Buffered(Requirement(zSum, Variance(p), Variance(p + x), x), buffer)))
    ensures !UsesQuadratic(t) ==>
              ForwardSize(m, baseline, mde, isRelative, alpha, power, variantCount, buffer, t, correction)
              == Ok(Finite(Buffered(Requirement(zSum, Variance(p), Variance(p), x), buffer)))
  {
    ForwardSizeUnfold(m, baseline, mde, isRelative, alpha, power, variantCount, buffer, t, correction, x);
    assert Variances(t, p, p + x).0 == Variance(p);
  }

  /** The quadratic recovers the effect from the forward requirement. */
  lemma RequirementInverts(m: MathLib, zSum: real, p: real, x: real)
    requires Lawful(m)
    requires 0.0 < p && 0.0 < x && p + x < 1.0 && zSum != 0.0
    ensures QuadraticMDE(m, Square(zSum), Requirement(zSum, Variance(p), Variance(p + x), x), p) == Finite(x)
  {
    RequirementTimesSquare(zSum, Variance(p), Variance(p + x), x);
    SquarePositive(zSum);
    QuadraticInverts(m, Square(zSum), p, x, Requirement(zSum, Variance(p), Variance(p + x), x));
  }

  /** The inverse half for "one-sided" and "two-sided": from the buffered
      requirement of a positive absolute effect the entered percentage comes back. */
  lemma QuadraticInverseStage(m: MathLib, params: InverseParams, zSum: real, p: real, x: real, mde: real)
    requires Lawful(m)
    requires UsesQuadratic(params.t)
    requires p == params.baseline / 100.0
    requires 0.0 < p && 0.0 < x && p + x < 1.0 && zSum != 0.0
    requires x == AbsoluteEffect(p, mde, params.isRelative)
    requires BufferFactor(params.buffer) != 0.0
    requires ZScores(m, InverseArgs(m, params)).Ok?
    requires ZScores(m, InverseArgs(m, params)).value.0 + ZScores(m, InverseArgs(m, params)).value.1 == zSum
    ensures MDEFromSampleSize(m, Buffered(Requirement(zSum, Variance(p), Variance(p + x), x), params.buffer), params)
         == Ok(Finite(mde))
  {
    InverseOfBuffered(m, params, zSum, Requirement(zSum, Variance(p), Variance(p + x), x));
    RequirementInverts(m, zSum, p, x);
    PercentRecovered(p, mde, params.isRelative);
  }

  /** The inverse half for "non-inferiority" and "equivalence": the forward
      effect `x` is the margin `a` or its negation. */
  lemma MarginInverseStage(m: MathLib, params: InverseParams, zSum: real, p: real, a: real, x: real, mde: real)
    requires Lawful(m)
    requires !UsesQuadratic(params.t)
    requires p == params.baseline / 100.0
    requires 0.0 < p < 1.0 && 0.0 < a && 0.0 < zSum
    requires a == AbsoluteEffect(p, mde, params.isRelative)
    requires x == a || x == -a
    requires BufferFactor(params.buffer) != 0.0
    requires ZScores(m, InverseArgs(m, params)).Ok?
    requires ZScores(m, InverseArgs(m, params)).value.0 + ZScores(m, InverseArgs(m, params)).value.1 == zSum
    ensures MDEFromSampleSize(m, Buffered(Requirement(zSum, Variance(p), Variance(p), x), params.buffer), params)
         == Ok(Finite(mde))
  {
    InverseOfBuffered(m, params, zSum, Requirement(zSum, Variance(p), Variance(p), x));
    MarginRequirementInverts(m, zSum, p, a, x);
    PercentRecovered(p, mde, params.isRelative);
  }

  /** The margin formula recovers the margin's magnitude from the margin
      tests' requirement. */
  lemma MarginRequirementInverts(m: MathLib, zSum: real, p: real, a: real, x: real)
    requires Lawful(m)
    requires 0.0 < p < 1.0 && 0.0 < a && 0.0 < zSum
    requires x == a || x == -a
    ensures MarginMDE(m, zSum, Requirement(zSum, Variance(p), Variance(p), x), p) == Finite(a)
  {
    RequirementTimesSquare(zSum, Variance(p), Variance(p), x);
    assert Square(x) == Square(a) by {
      SquareAbs(x);
    }
    MarginInverts(m, zSum, p, a, Requirement(zSum, Variance(p), Variance(p), x));
  }

  /** "one-sided" and "two-sided": for a positive entered effect whose
      baseline and target lie within the clipping bounds, a non-zero z sum
      and a buffer other than -100 %, the inverse solver applied to the
      forward solver's unrounded sample size returns the entered effect. */
  lemma RoundTripQuadratic(m: MathLib, baseline: real, mde: real, isRelative: bool, alpha: real, power: real,
                           variantCount: int, buffer: real, t: TestType, correction: Correction)
    requires Lawful(m)
    requires t.OneSided? || t.TwoSided?
    requires 0.0 < mde
    requires Epsilon <= baseline / 100.0
    requires CalculateMDE(baseline, mde, isRelative, t).targetRate <= 1.0 - Epsilon
    requires BufferFactor(buffer) != 0.0
    requires ZScores(m, ForwardArgs(m, alpha, power, variantCount, t, correction)).Ok?
    requires ZScores(m, ForwardArgs(m, alpha, power, variantCount, t, correction)).value.0
           + ZScores(m, ForwardArgs(m, alpha, power, variantCount, t, correction)).value.1 != 0.0
    ensures ForwardSize(m, baseline, mde, isRelative, alpha, power, variantCount, buffer, t, correction).Ok?
    ensures ForwardSize(m, baseline, mde, isRelative, alpha, power, variantCount, buffer, t, correction).value.Finite?
    ensures MDEFromSampleSize(m, ForwardSize(m, baseline, mde, isRelative, alpha, power, variantCount, buffer, t, correction).value.value,
                              InverseFor(baseline, alpha, power, variantCount, buffer, t, correction, isRelative))
         == Ok(Finite(mde))
  {
    var p := baseline / 100.0;
    var x := AbsoluteEffect(p, mde, isRelative);
    PositiveEffect(p, mde, isRelative);
    assert CalculateMDE(baseline, mde, isRelative, t).targetRate == p + x;
    var z := ZScores(m, ForwardArgs(m, alpha, power, variantCount, t, correction)).value;
    ForwardStage(m, baseline, mde, isRelative, alpha, power, variantCount, buffer, t, correction, z.0 + z.1, p, x);
    SameQuantiles(m, alpha, power, variantCount, buffer, t, correction, baseline, isRelative);
    QuadraticInverseStage(m, InverseFor(baseline, alpha, power, variantCount, buffer, t, correction, isRelative),
                          z.0 + z.1, p, x, mde);
  }

  /** "non-inferiority" and "equivalence": for a positive entered effect, a
      baseline within the clipping bounds, a positive z sum and a buffer
      other than -100 %, the inverse solver returns the entered effect; for
      non-inferiority the forward effect is the negated margin and the
      inverse gives back its magnitude. */
  lemma RoundTripMargin(m: MathLib, baseline: real, mde: real, isRelative: bool, alpha: real, power: real,
                        variantCount: int, buffer: real, t: TestType, correction: Correction)
    requires Lawful(m)
    requires t.NonInferiority? || t.Equivalence?
    requires 0.0 < mde
    requires Epsilon <= baseline / 100.0 <= 1.0 - Epsilon
    requires BufferFactor(buffer) != 0.0
    requires ZScores(m, ForwardArgs(m, alpha, power, variantCount, t, correction)).Ok?
    requires 0.0 < ZScores(m, ForwardArgs(m, alpha, power, variantCount, t, correction)).value.0
                 + ZScores(m, ForwardArgs(m, alpha, power, variantCount, t, correction)).value.1
    ensures ForwardSize(m, baseline, mde, isRelative, alpha, power, variantCount, buffer, t, correction).Ok?
    ensures ForwardSize(m, baseline, mde, isRelative, alpha, power, variantCount, buffer, t, correction).value.Finite?
    ensures MDEFromSampleSize(m, ForwardSize(m, baseline, mde, isRelative, alpha, power, variantCount, buffer, t, correction).value.value,
                              InverseFor(baseline, alpha, power, variantCount, buffer, t, correction, isRelative))
         == Ok(Finite(mde))
  {
    var p := baseline / 100.0;
    var a := AbsoluteEffect(p, mde, isRelative);
    PositiveEffect(p, mde, isRelative);
    var z := ZScores(m, ForwardArgs(m, alpha, power, variantCount, t, correction)).value;
    ForwardStage(m, baseline, mde, isRelative, alpha, power, variantCount, buffer, t, correction, z.0 + z.1, p, Direction(t) * a);
    SameQuantiles(m, alpha, power, variantCount, buffer, t, correction, baseline, isRelative);
    MarginInverseStage(m, InverseFor(baseline, alpha, power, variantCount, buffer, t, correction, isRelative),
                       z.0 + z.1, p, a, Direction(t) * a, mde);
  }
}
