/** Turning an entered minimum detectable effect into rates: the current
    `calculateMDE` of the statistics module, which knows the non-inferiority
    direction, and the older one of the application module, which does not. */
module EffectModel {
  import opened Numerics
  import opened TestTypes

  /** The baseline as a proportion, the rate the test should detect, and
      the effect relative to the baseline (Infinity when the baseline is 0). */
  datatype EffectTarget = EffectTarget(baselineRate: real, targetRate: real, relMDE: Extended<real>)

  /** -1 for "non-inferiority" (the margin is a decrease), +1 for every other test type. */
  function Direction(t: TestType): (d: real)
    ensures d == -1.0 <==> t.NonInferiority?
    ensures d == 1.0 <==> !t.NonInferiority?
  {
    if t == NonInferiority then -1.0 else 1.0
  }

  /** The absolute effect an entered percentage stands for: a share of the
      baseline in relative mode, percentage points otherwise. */
  function AbsoluteEffect(baselineRate: real, mdeValue: real, isRelative: bool): real {
    if isRelative then baselineRate * (mdeValue / 100.0) else mdeValue / 100.0
  }

  /** `calculateMDE` (statistics module). */
  function CalculateMDE(baseline: real, mdeValue: real, isRelative: bool, t: TestType): (e: EffectTarget)
    ensures e.baselineRate * 100.0 == baseline
    ensures !t.NonInferiority? ==> e.targetRate - e.baselineRate == AbsoluteEffect(e.baselineRate, mdeValue, isRelative)
    ensures t.NonInferiority? ==> e.baselineRate - e.targetRate == AbsoluteEffect(e.baselineRate, mdeValue, isRelative)
    ensures 0.0 < e.baselineRate ==> e.relMDE.Finite? && e.relMDE.value * e.baselineRate == e.targetRate - e.baselineRate
    ensures e.baselineRate <= 0.0 ==> (e.relMDE.NonFinite? <==> 0.0 < e.targetRate)
    ensures e.baselineRate <= 0.0 && e.targetRate <= 0.0 ==> e.relMDE == Finite(0.0)
  {
    var baselineRate := baseline / 100.0;
    var targetRate := baselineRate + Direction(t) * AbsoluteEffect(baselineRate, mdeValue, isRelative);
    var relMDE :=
      if baselineRate > 0.0 then Finite((targetRate - baselineRate) / baselineRate)
      else if targetRate > 0.0 then NonFinite
      else Finite(0.0);
    EffectTarget(baselineRate, targetRate, relMDE)
  }

  /** With a positive baseline, the relative effect gives back the entered
      percentage in relative mode (negated for non-inferiority), and the
      entered points over the baseline in absolute mode. */
  lemma RelativeEffectRecoversInput(baseline: real, mdeValue: real, isRelative: bool, t: TestType)
    requires 0.0 < baseline
    ensures var e := CalculateMDE(baseline, mdeValue, isRelative, t);
            e.relMDE.Finite? &&
            (isRelative ==> e.relMDE.value == Direction(t) * (mdeValue / 100.0)) &&
            (!isRelative ==> e.relMDE.value * baseline == Direction(t) * mdeValue)
  {
    var e := CalculateMDE(baseline, mdeValue, isRelative, t);
    var rate := baseline / 100.0;
    var diff := Direction(t) * AbsoluteEffect(rate, mdeValue, isRelative);
    assert e.targetRate - rate == diff;
    assert e.relMDE.value == diff / rate;
    if isRelative {
      assert diff == Direction(t) * (mdeValue / 100.0) * rate;
      CancelFactor(Direction(t) * (mdeValue / 100.0), rate);
    } else {
      assert diff * 100.0 == Direction(t) * mdeValue;
    }
  }

  /** For a positive baseline and a positive entered effect the target lies
      below the baseline exactly for non-inferiority. */
  lemma TargetSide(baseline: real, mdeValue: real, isRelative: bool, t: TestType)
    requires 0.0 < baseline && 0.0 < mdeValue
    ensures var e := CalculateMDE(baseline, mdeValue, isRelative, t);
            e.targetRate < e.baselineRate <==> t.NonInferiority?
  {
    var rate := baseline / 100.0;
    if isRelative {
      assert 0.0 < rate * (mdeValue / 100.0);
    }
  }

  /** `calculateMDE` of the application module: relative mode scales the
      baseline by 1 + relMDE, absolute mode adds the points and divides them
      by the baseline percentage (non-finite for a zero baseline). */
  function LegacyMDE(baseline: real, mdeValue: real, isRelative: bool): (e: EffectTarget)
    ensures e.baselineRate * 100.0 == baseline
    ensures isRelative ==> e.relMDE == Finite(mdeValue / 100.0)
    ensures e.relMDE.Finite? ==> e.targetRate == e.baselineRate * (1.0 + e.relMDE.value)
    ensures !isRelative ==> (e.relMDE.NonFinite? <==> baseline == 0.0)
    ensures !isRelative ==> e.targetRate - e.baselineRate == mdeValue / 100.0
  {
    var baselineRate := baseline / 100.0;
    var relMDE :=
      if isRelative then Finite(mdeValue / 100.0)
      else if baseline == 0.0 then NonFinite
      else Finite(mdeValue / baseline);
    var targetRate := if isRelative then baselineRate * (1.0 + relMDE.value) else baselineRate + mdeValue / 100.0;
    LegacyAbsoluteConsistent(baseline, mdeValue);
    EffectTarget(baselineRate, targetRate, relMDE)
  }

  /** In absolute mode the points added equal the baseline scaled by the relative effect. */
  lemma LegacyAbsoluteConsistent(baseline: real, mdeValue: real)
    ensures baseline != 0.0 ==> (baseline / 100.0) * (1.0 + mdeValue / baseline) == baseline / 100.0 + mdeValue / 100.0
  {
    if baseline != 0.0 {
      assert (baseline / 100.0) * (mdeValue / baseline) == mdeValue / 100.0;
    }
  }

  /** For a positive baseline the two versions agree on every test type but
      non-inferiority. */
  lemma LegacyAgreesWithCurrent(baseline: real, mdeValue: real, isRelative: bool, t: TestType)
    requires 0.0 < baseline
    requires !t.NonInferiority?
    ensures LegacyMDE(baseline, mdeValue, isRelative) == CalculateMDE(baseline, mdeValue, isRelative, t)
  {
    RelativeEffectRecoversInput(baseline, mdeValue, isRelative, t);
    var e := CalculateMDE(baseline, mdeValue, isRelative, t);
    var l := LegacyMDE(baseline, mdeValue, isRelative);
    if !isRelative {
      assert e.relMDE.value == mdeValue / baseline;
    }
    assert l.relMDE == e.relMDE;
  }

  /** For non-inferiority with a non-zero entered effect the two versions
      disagree: the older one adds the effect to the baseline, the current
      one subtracts it. */
  lemma LegacyDiffersOnNonInferiority(baseline: real, mdeValue: real, isRelative: bool)
    requires 0.0 < baseline && mdeValue != 0.0
    ensures LegacyMDE(baseline, mdeValue, isRelative).targetRate != CalculateMDE(baseline, mdeValue, isRelative, NonInferiority).targetRate
  {
    var rate := baseline / 100.0;
    if isRelative {
      assert rate * (mdeValue / 100.0) != 0.0;
    }
  }
}
