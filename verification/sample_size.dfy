/** `calculateSampleSize`: the forward solver. It corrects alpha for
    multiple comparisons, picks the two normal quantiles by test type, clips
    the rates away from 0 and 1, chooses a variance model by test type and
    returns the buffered per-variant sample size, rounded up. */
module SampleSize {
  import opened Numerics
  import opened NormalQuantile
  import opened TestTypes

  /** Rates are clipped to [Epsilon, 1 - Epsilon] before their variance is taken. */
  const Epsilon: real := 1.0e-12

  /** The significance level each comparison against the control is run at.
      Corrections apply only beyond one comparison (more than two variants);
      "none" and every unrecognised correction leave alpha unchanged. */
  function AdjustAlpha(m: MathLib, alpha: real, variantCount: int, correction: Correction): (adjusted: real)
    ensures variantCount <= 2 || correction.NoCorrection? || correction.UnknownCorrection? ==> adjusted == alpha
    ensures 2 < variantCount && correction.Bonferroni? ==> adjusted * (variantCount - 1) as real == alpha
    ensures 2 < variantCount && correction.Bonferroni? && 0.0 <= alpha ==> adjusted <= alpha
    ensures 2 < variantCount && correction.Sidak? ==>
              1.0 - adjusted == Pow(m, 1.0 - alpha, 1.0 / (variantCount - 1) as real)
  {
    if variantCount > 2 then
      var comparisons := (variantCount - 1) as real;
      match correction
      case Bonferroni =>
        DivideByAtLeastOne(alpha, comparisons);
        alpha / comparisons
      case Sidak => 1.0 - Pow(m, 1.0 - alpha, 1.0 / comparisons)
      case _ => alpha
    else
      alpha
  }

  /** Dividing a non-negative number by something at least 1 does not increase it. */
  lemma DivideByAtLeastOne(x: real, d: real)
    requires 1.0 <= d
    ensures (x / d) * d == x
    ensures 0.0 <= x ==> x / d <= x
  {
    if 0.0 <= x {
      assert x / d * d == x;
      assert x / d * 1.0 <= x / d * d;
    }
  }

  /** The probabilities whose normal quantiles are zAlpha and zBeta in the
      forward solver. "one-sided" and "non-inferiority" are one-tailed on
      alpha, "equivalence" also takes the two-sided power quantile, and every
      other test type is treated as two-sided. */
  function ForwardQuantileArgs(t: TestType, adjustedAlpha: real, power: real): (args: (real, real))
    ensures t.Equivalence? ==> args == (1.0 - adjustedAlpha, (1.0 + power) / 2.0)
    ensures t.OneSided? || t.NonInferiority? ==> args == (1.0 - adjustedAlpha, power)
    ensures t.TwoSided? || t.Other? ==> args == (1.0 - adjustedAlpha / 2.0, power)
  {
    if t == Equivalence then (1.0 - adjustedAlpha, (1.0 + power) / 2.0)
    else if t == NonInferiority || t == OneSided then (1.0 - adjustedAlpha, power)
    else (1.0 - adjustedAlpha / 2.0, power)
  }

  predicate IsProbability(p: real) {
    0.0 < p < 1.0
  }

  /** (zAlpha, zBeta): the quantiles of both arguments; the first argument
      outside (0, 1) is the error thrown. */
  function ZScores(m: MathLib, args: (real, real)): (z: Result<(real, real)>)
    requires Lawful(m)
    ensures z.Ok? <==> IsProbability(args.0) && IsProbability(args.1)
    ensures z.InvalidProbability? ==> z.p == if IsProbability(args.0) then args.1 else args.0
    ensures z.Ok? ==> z.value == (NormSInv(m, args.0).value, NormSInv(m, args.1).value)
  {
    var zAlpha :- NormSInv(m, args.0);
    var zBeta :- NormSInv(m, args.1);
    Ok((zAlpha, zBeta))
  }

  /** A conversion rate moved into [Epsilon, 1 - Epsilon]. */
  function ClipRate(rate: real): (c: real)
    ensures Epsilon <= c <= 1.0 - Epsilon
    ensures Epsilon <= rate <= 1.0 - Epsilon ==> c == rate
    ensures rate < Epsilon ==> c == Epsilon
    ensures 1.0 - Epsilon < rate ==> c == 1.0 - Epsilon
  {
    Clamp(Epsilon, 1.0 - Epsilon, rate)
  }

  /** The Bernoulli variance of a conversion rate. */
  function Variance(rate: real): real {
    rate * (1.0 - rate)
  }

  /** A rate strictly inside (0, 1) has a Bernoulli variance in (0, 1/4]. */
  lemma VarianceBounds(rate: real)
    requires 0.0 < rate < 1.0
    ensures 0.0 < Variance(rate) <= 0.25
  {
    assert 0.0 <= (rate - 0.5) * (rate - 0.5);
    assert Variance(rate) == 0.25 - (rate - 0.5) * (rate - 0.5);
  }

  /** (varControl, varTreatment): the margin tests use the clipped baseline's
      variance for both groups, every other test type uses the clipped
      treatment rate's own variance for the treatment group. */
  function Variances(t: TestType, baselineRate: real, treatmentRate: real): (v: (real, real))
    ensures 0.0 < v.0 <= 0.25 && 0.0 < v.1 <= 0.25
    ensures v.0 == Variance(ClipRate(baselineRate))
    ensures t.NonInferiority? || t.Equivalence? ==> v.1 == v.0
    ensures !(t.NonInferiority? || t.Equivalence?) ==> v.1 == Variance(ClipRate(treatmentRate))
  {
    var control := ClipRate(baselineRate);
    VarianceBounds(control);
    if t == NonInferiority || t == Equivalence then
      (Variance(control), Variance(control))
    else
      var treatment := ClipRate(treatmentRate);
      VarianceBounds(treatment);
      (Variance(control), Variance(treatment))
  }

  /** The unbuffered per-arm requirement (zAlpha + zBeta)^2 (varC + varT) / effect^2. */
  function Requirement(z: real, varControl: real, varTreatment: real, effect: real): real
    requires effect != 0.0
  {
    SquarePositive(effect);
    Square(z) * (varControl + varTreatment) / Square(effect)
  }

  /** The multiplier a buffer percentage applies. */
  function BufferFactor(buffer: real): real {
    1.0 + buffer / 100.0
  }

  /** A size inflated by a buffer percentage. */
  function Buffered(size: real, buffer: real): real {
    size * BufferFactor(buffer)
  }

  /** The part of `calculateSampleSize` after the quantiles are known, for the
      absolute effect `effect`: the buffered requirement, or NonFinite when
      the effect is zero (the source then divides by zero). A finite size
      times the squared effect is the buffered (zAlpha + zBeta)^2 (varC + varT),
      the relation the inverse solver solves for the effect. */
  function SizeForZ(z: real, baselineRate: real, effect: real, buffer: real, t: TestType): (r: Extended<real>)
    ensures r.NonFinite? <==> effect == 0.0
    ensures r.Finite? ==> MeetsRequirement(r.value, z, baselineRate, effect, buffer, t)
    ensures r.Finite? && 0.0 <= BufferFactor(buffer) ==> 0.0 <= r.value
    ensures r.Finite? && 0.0 < BufferFactor(buffer) && z != 0.0 ==> 0.0 < r.value
  {
    var v := Variances(t, baselineRate, baselineRate + effect);
    if effect == 0.0 then
      NonFinite
    else
      BufferedRequirement(z, v.0, v.1, effect, buffer);
      Finite(Buffered(Requirement(z, v.0, v.1, effect), buffer))
  }

  /** `size` times the squared effect is the buffered
      (zAlpha + zBeta)^2 (varC + varT) for the variances of this test type. */
  predicate MeetsRequirement(size: real, z: real, baselineRate: real, effect: real, buffer: real, t: TestType) {
    size * Square(effect)
    == BufferFactor(buffer) * (Square(z) * (Variances(t, baselineRate, baselineRate + effect).0
                                            + Variances(t, baselineRate, baselineRate + effect).1))
  }

  /** The buffered requirement times the squared effect, and its sign. */
  lemma BufferedRequirement(z: real, varControl: real, varTreatment: real, effect: real, buffer: real)
    requires effect != 0.0 && 0.0 < varControl && 0.0 < varTreatment
    ensures Buffered(Requirement(z, varControl, varTreatment, effect), buffer) * Square(effect)
         == BufferFactor(buffer) * (Square(z) * (varControl + varTreatment))
    ensures 0.0 <= BufferFactor(buffer) ==> 0.0 <= Buffered(Requirement(z, varControl, varTreatment, effect), buffer)
    ensures 0.0 < BufferFactor(buffer) && z != 0.0 ==> 0.0 < Buffered(Requirement(z, varControl, varTreatment, effect), buffer)
  {
    RequirementTimesSquare(z, varControl, varTreatment, effect);
    RequirementNonNegative(z, varControl, varTreatment, effect);
    if 0.0 <= BufferFactor(buffer) {
      ScaleMonotone(BufferFactor(buffer), 0.0, Requirement(z, varControl, varTreatment, effect));
    }
    if 0.0 < BufferFactor(buffer) && z != 0.0 {
      RequirementPositive(z, varControl, varTreatment, effect);
      PositiveProduct(Requirement(z, varControl, varTreatment, effect), BufferFactor(buffer));
    }
  }

  /** The requirement is positive for a non-zero z. */
  lemma RequirementPositive(z: real, varControl: real, varTreatment: real, effect: real)
    requires effect != 0.0 && 0.0 < varControl && 0.0 < varTreatment && z != 0.0
    ensures 0.0 < Requirement(z, varControl, varTreatment, effect)
  {
    SquarePositive(z);
    SquarePositive(effect);
    PositiveProduct(Square(z), varControl + varTreatment);
    RequirementTimesSquare(z, varControl, varTreatment, effect);
    if Requirement(z, varControl, varTreatment, effect) <= 0.0 {
      RequirementNonNegative(z, varControl, varTreatment, effect);
    }
  }

  /** A product of positive numbers is positive. */
  lemma PositiveProduct(x: real, y: real)
    requires 0.0 < x && 0.0 < y
    ensures 0.0 < x * y
  {
  }

  /** The quantile arguments calculateSampleSize uses for these inputs. */
  function ForwardArgs(m: MathLib, alpha: real, power: real, variantCount: int, t: TestType, correction: Correction): (real, real) {
    ForwardQuantileArgs(t, AdjustAlpha(m, alpha, variantCount, correction), power)
  }

  /** Everything `calculateSampleSize` computes before `Math.ceil`: the
      absolute effect is baselineRate * relativeEffect and the treatment rate
      baselineRate plus that effect. */
  function UnroundedSampleSize(
    m: MathLib, baselineRate: real, relativeEffect: real, alpha: real, power: real,
    variantCount: int, buffer: real, t: TestType, correction: Correction): (r: Result<Extended<real>>)
    requires Lawful(m)
    ensures r.Ok? <==> ZScores(m, ForwardArgs(m, alpha, power, variantCount, t, correction)).Ok?
    ensures r.Ok? ==> (r.value.NonFinite? <==> baselineRate * relativeEffect == 0.0)
    ensures r.Ok? && r.value.Finite? ==>
              MeetsRequirement(r.value.value,
                               ZScores(m, ForwardArgs(m, alpha, power, variantCount, t, correction)).value.0
                               + ZScores(m, ForwardArgs(m, alpha, power, variantCount, t, correction)).value.1,
                               baselineRate, baselineRate * relativeEffect, buffer, t)
    ensures r.Ok? && r.value.Finite? && 0.0 <= BufferFactor(buffer) ==> 0.0 <= r.value.value
  {
    match ZScores(m, ForwardArgs(m, alpha, power, variantCount, t, correction))
    case Ok(z) => Ok(SizeForZ(z.0 + z.1, baselineRate, baselineRate * relativeEffect, buffer, t))
    case InvalidProbability(p) => InvalidProbability(p)
  }

  /** The forward solver with its absolute effect named. */
  lemma UnroundedUnfold(
    m: MathLib, baselineRate: real, relativeEffect: real, alpha: real, power: real,
    variantCount: int, buffer: real, t: TestType, correction: Correction, effect: real)
    requires Lawful(m)
    requires baselineRate * relativeEffect == effect
    requires ZScores(m, ForwardArgs(m, alpha, power, variantCount, t, correction)).Ok?
    ensures var z := ZScores(m, ForwardArgs(m, alpha, power, variantCount, t, correction)).value;
            UnroundedSampleSize(m, baselineRate, relativeEffect, alpha, power, variantCount, buffer, t, correction)
            == Ok(SizeForZ(z.0 + z.1, baselineRate, effect, buffer, t))
  {
  }

  /** `calculateSampleSize`: the least whole number of visitors per variant
      that covers the buffered requirement. */
  function CalculateSampleSize(
    m: MathLib, baselineRate: real, relativeEffect: real, alpha: real, power: real,
    variantCount: int, buffer: real, t: TestType, correction: Correction): (r: Result<Extended<int>>)
    requires Lawful(m)
    ensures r.Ok? <==> UnroundedSampleSize(m, baselineRate, relativeEffect, alpha, power, variantCount, buffer, t, correction).Ok?
    ensures r.Ok? ==> (r.value.NonFinite? <==> baselineRate * relativeEffect == 0.0)
    ensures r.Ok? && r.value.Finite? ==>
              var raw := UnroundedSampleSize(m, baselineRate, relativeEffect, alpha, power, variantCount, buffer, t, correction).value.value;
              raw <= r.value.value as real < raw + 1.0
  {
    var raw :- UnroundedSampleSize(m, baselineRate, relativeEffect, alpha, power, variantCount, buffer, t, correction);
    match raw
    case Finite(x) => Ok(Finite(Ceil(x)))
    case NonFinite => Ok(NonFinite)
  }

  /** Multiplying the requirement back by the squared effect. */
  lemma RequirementTimesSquare(z: real, varControl: real, varTreatment: real, effect: real)
    requires effect != 0.0
    ensures Requirement(z, varControl, varTreatment, effect) * Square(effect) == Square(z) * (varControl + varTreatment)
  {
    SquarePositive(effect);
  }

  /** k / d is non-negative for non-negative k and positive d. */
  lemma QuotientNonNegative(k: real, d: real)
    requires 0.0 <= k && 0.0 < d
    ensures 0.0 <= k / d
  {
    assert k / d * d == k;
  }

  /** The requirement is non-negative. */
  lemma RequirementNonNegative(z: real, varControl: real, varTreatment: real, effect: real)
    requires effect != 0.0 && 0.0 < varControl && 0.0 < varTreatment
    ensures 0.0 <= Requirement(z, varControl, varTreatment, effect)
  {
    SquareNonNegative(z);
    ScaleMonotone(Square(z), 0.0, varControl + varTreatment);
    SquarePositive(effect);
    QuotientNonNegative(Square(z) * (varControl + varTreatment), Square(effect));
  }

  /** x * f is monotone in f for non-negative x. */
  lemma ScaleMonotone(x: real, f1: real, f2: real)
    requires 0.0 <= x && f1 <= f2
    ensures x * f1 <= x * f2
  {
    assert x * f2 - x * f1 == x * (f2 - f1);
  }

  /** A larger buffer never asks for fewer visitors: the buffered
      requirement, and so its ceiling, is monotone in the buffer. */
  lemma SizeBufferMonotone(z: real, baselineRate: real, effect: real, buffer1: real, buffer2: real, t: TestType)
    requires buffer1 <= buffer2
    requires effect != 0.0
    ensures SizeForZ(z, baselineRate, effect, buffer1, t).value
         <= SizeForZ(z, baselineRate, effect, buffer2, t).value
    ensures Ceil(SizeForZ(z, baselineRate, effect, buffer1, t).value)
         <= Ceil(SizeForZ(z, baselineRate, effect, buffer2, t).value)
  {
    var v := Variances(t, baselineRate, baselineRate + effect);
    var req := Requirement(z, v.0, v.1, effect);
    RequirementNonNegative(z, v.0, v.1, effect);
    ScaleMonotone(req, BufferFactor(buffer1), BufferFactor(buffer2));
    assert Buffered(req, buffer1) <= Buffered(req, buffer2);
    CeilMonotone(Buffered(req, buffer1), Buffered(req, buffer2));
  }

  /** The same monotonicity, stated for `calculateSampleSize` itself. */
  lemma SampleSizeBufferMonotone(
    m: MathLib, baselineRate: real, relativeEffect: real, alpha: real, power: real,
    variantCount: int, buffer1: real, buffer2: real, t: TestType, correction: Correction)
    requires Lawful(m)
    requires buffer1 <= buffer2
    requires ZScores(m, ForwardArgs(m, alpha, power, variantCount, t, correction)).Ok?
    requires baselineRate * relativeEffect != 0.0
    ensures CalculateSampleSize(m, baselineRate, relativeEffect, alpha, power, variantCount, buffer1, t, correction).Ok?
    ensures CalculateSampleSize(m, baselineRate, relativeEffect, alpha, power, variantCount, buffer1, t, correction).value.Finite?
    ensures CalculateSampleSize(m, baselineRate, relativeEffect, alpha, power, variantCount, buffer2, t, correction).value.Finite?
    ensures CalculateSampleSize(m, baselineRate, relativeEffect, alpha, power, variantCount, buffer1, t, correction).value.value
         <= CalculateSampleSize(m, baselineRate, relativeEffect, alpha, power, variantCount, buffer2, t, correction).value.value
  {
    var z := ZScores(m, ForwardArgs(m, alpha, power, variantCount, t, correction)).value;
    SizeBufferMonotone(z.0 + z.1, baselineRate, baselineRate * relativeEffect, buffer1, buffer2, t);
  }

  /** Squares are monotone in the magnitude. */
  lemma SquareMonotone(a: real, b: real)
    requires 0.0 <= a <= b
    ensures Square(a) <= Square(b)
  {
    ScaleMonotone(a, a, b);
    ScaleMonotone(b, a, b);
    calc { Square(a); == a * a; <= a * b; == b * a; <= b * b; == Square(b); }
  }

  /** k / d is antitone in d for non-negative k and positive d. */
  lemma DivideByLarger(k: real, d1: real, d2: real)
    requires 0.0 <= k && 0.0 < d1 <= d2
    ensures k / d2 <= k / d1
  {
    assert k / d2 * d2 == k;
    assert k / d1 * d1 == k;
    QuotientNonNegative(k, d2);
    ScaleMonotone(k / d2, d1, d2);
    assert (k / d2) * d1 <= k;
    assert (k / d2) * d1 <= (k / d1) * d1;
  }

  function Abs(x: real): real {
    if x < 0.0 then -x else x
  }

  /** A square depends only on the magnitude. */
  lemma SquareAbs(x: real)
    ensures Square(Abs(x)) == Square(x)
  {
    if x < 0.0 {
      calc { Square(Abs(x)); == (-x) * (-x); == x * x; == Square(x); }
    }
  }

  /** For the margin tests the requirement depends on the effect only through
      its magnitude, because both groups use the baseline variance. */
  lemma MarginSizeDependsOnMagnitude(z: real, baselineRate: real, effect1: real, effect2: real, buffer: real, t: TestType)
    requires t.NonInferiority? || t.Equivalence?
    requires Abs(effect1) == Abs(effect2)
    ensures SizeForZ(z, baselineRate, effect1, buffer, t) == SizeForZ(z, baselineRate, effect2, buffer, t)
  {
    if effect1 != 0.0 {
      var v := Variances(t, baselineRate, baselineRate + effect1);
      assert v == Variances(t, baselineRate, baselineRate + effect2);
      SquareAbs(effect1);
      SquareAbs(effect2);
      assert Requirement(z, v.0, v.1, effect1) == Requirement(z, v.0, v.1, effect2);
    }
  }

  /** With the variances fixed, a larger effect magnitude lowers the requirement. */
  lemma RequirementAntitone(z: real, varControl: real, varTreatment: real, effect1: real, effect2: real)
    requires 0.0 < varControl && 0.0 < varTreatment
    requires 0.0 < Abs(effect1) <= Abs(effect2)
    ensures Requirement(z, varControl, varTreatment, effect2) <= Requirement(z, varControl, varTreatment, effect1)
  {
    var k := Square(z) * (varControl + varTreatment);
    SquareNonNegative(z);
    ScaleMonotone(Square(z), 0.0, varControl + varTreatment);
    SquareMonotone(Abs(effect1), Abs(effect2));
    SquareAbs(effect1);
    SquareAbs(effect2);
    SquarePositive(effect1);
    DivideByLarger(k, Square(effect1), Square(effect2));
  }

  /** Scaling by a non-negative buffer factor keeps an order, and so does rounding up. */
  lemma BufferedOrder(r1: real, r2: real, buffer: real)
    requires r1 <= r2 && 0.0 <= BufferFactor(buffer)
    ensures Buffered(r1, buffer) <= Buffered(r2, buffer)
    ensures Ceil(Buffered(r1, buffer)) <= Ceil(Buffered(r2, buffer))
  {
    ScaleMonotone(BufferFactor(buffer), r1, r2);
    CeilMonotone(Buffered(r1, buffer), Buffered(r2, buffer));
  }

  /** For the margin tests a larger effect never asks for more visitors
      (for a buffer of at least -100 %). */
  lemma MarginSizeAntitoneInEffect(z: real, baselineRate: real, effect1: real, effect2: real, buffer: real, t: TestType)
    requires t.NonInferiority? || t.Equivalence?
    requires 0.0 < Abs(effect1) <= Abs(effect2)
    requires 0.0 <= BufferFactor(buffer)
    ensures SizeForZ(z, baselineRate, effect2, buffer, t).value <= SizeForZ(z, baselineRate, effect1, buffer, t).value
    ensures Ceil(SizeForZ(z, baselineRate, effect2, buffer, t).value) <= Ceil(SizeForZ(z, baselineRate, effect1, buffer, t).value)
  {
    var v := Variances(t, baselineRate, baselineRate + effect1);
    assert v == Variances(t, baselineRate, baselineRate + effect2);
    RequirementAntitone(z, v.0, v.1, effect1, effect2);
    BufferedOrder(Requirement(z, v.0, v.1, effect2), Requirement(z, v.0, v.1, effect1), buffer);
  }
}
