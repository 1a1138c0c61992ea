/** The labels "superiority" and "two-tailed". The solvers recognise only
    "one-sided", "two-sided", "non-inferiority" and "equivalence", and they
    disagree about every other string: the forward solver treats it as
    two-sided with the treatment variance, the inverse solver as one-tailed
    with the margin formula. Fed those labels, MDE -> sample size -> MDE
    does not come back. Reading them as aliases of "one-sided" and
    "two-sided" restores the round trip. */
module LabelAliases {
  import opened Numerics
  import opened NormalQuantile
  import opened TestTypes
  import opened SampleSize
  import opened EffectModel
  import opened MdeInverse
  import opened RoundTrip

  // ---------------------------------------------------------------------
  // As written: an unrecognised label breaks the round trip

  /** The central quantiles the fixture needs, to two decimals. */
  lemma QuantileBounds()
    ensures 1.95 < Central(0.975) < 1.97
    ensures 1.64 < Central(0.95) < 1.65
    ensures 0.84 < Central(0.8) < 0.85
  {
    Central975();
    Central95();
    Central80();
  }

  lemma Central975()
    ensures 1.95 < Central(0.975) < 1.97
  {
    CentralUnfold(0.975, 0.475);
    HornerSix(A, Square(0.475));
    HornerSix(B, Square(0.475));
    assert Square(0.475) == 0.225625;
  }

  lemma Central95()
    ensures 1.64 < Central(0.95) < 1.65
  {
    CentralUnfold(0.95, 0.45);
    HornerSix(A, Square(0.45));
    HornerSix(B, Square(0.45));
    assert Square(0.45) == 0.2025;
  }

  lemma Central80()
    ensures 0.84 < Central(0.8) < 0.85
  {
    CentralUnfold(0.8, 0.3);
    HornerSix(A, Square(0.3));
    HornerSix(B, Square(0.3));
    assert Square(0.3) == 0.09;
  }

  /** The square of the margin formula: y^2 n = 2 z^2 p (1 - p). */
  lemma MarginSquare(m: MathLib, z: real, n: real, p: real)
    requires Lawful(m)
    requires 0.0 < n && 0.0 <= Variance(p)
    ensures Square(MarginFormula(m, z, n, p)) * n == 2.0 * (Square(z) * Variance(p))
  {
    var a := Sqrt(m, Variance(p));
    var b := Sqrt(m, 2.0 / n);
    assert 0.0 <= 2.0 / n;
    assert a * a == Variance(p);
    assert b * b == 2.0 / n;
    assert Square(MarginFormula(m, z, n, p)) == Square(z) * (a * a) * (b * b);
    assert (2.0 / n) * n == 2.0;
  }

  /** The fixture "Symmetry: Standard Two-Tailed": baseline 5 %, relative
      MDE 10 %, alpha 0.05, power 0.8, two variants, no buffer, no
      correction, label "two-tailed". */
  function FixtureType(): TestType {
    ParseTestType("two-tailed")
  }

  /** The forward solver's quantiles for the fixture: two-sided on alpha. */
  lemma FixtureForwardQuantiles(m: MathLib)
    requires Lawful(m)
    ensures ForwardArgs(m, 0.05, 0.8, 2, FixtureType(), NoCorrection) == (0.975, 0.8)
    ensures ZScores(m, (0.975, 0.8)) == Ok((Central(0.975), Central(0.8)))
  {
  }

  /** The inverse solver's quantiles for the fixture: one-tailed on alpha. */
  lemma FixtureInverseQuantiles(m: MathLib)
    requires Lawful(m)
    ensures InverseArgs(m, InverseFor(5.0, 0.05, 0.8, 2, 0.0, FixtureType(), NoCorrection, true)) == (0.95, 0.8)
    ensures ZScores(m, (0.95, 0.8)) == Ok((Central(0.95), Central(0.8)))
  {
  }

  /** The fixture's forward size: the requirement for an absolute effect of
      half a point, from 5 % to 5.5 %. */
  lemma FixtureForwardSize(m: MathLib)
    requires Lawful(m)
    ensures ForwardSize(m, 5.0, 10.0, true, 0.05, 0.8, 2, 0.0, FixtureType(), NoCorrection)
         == Ok(Finite(Requirement(Central(0.975) + Central(0.8), Variance(0.05), Variance(0.055), 0.005)))
  {
    FixtureForwardQuantiles(m);
    assert Direction(FixtureType()) * AbsoluteEffect(5.0 / 100.0, 10.0, true) == 0.005;
    ForwardSizeUnfold(m, 5.0, 10.0, true, 0.05, 0.8, 2, 0.0, FixtureType(), NoCorrection, 0.005);
    assert Variances(FixtureType(), 0.05, 0.05 + 0.005) == (Variance(0.05), Variance(0.055));
    assert BufferFactor(0.0) == 1.0;
  }

  /** Under the label "two-tailed" the inverse solver does not give back
      the 10 % the forward solver was asked for. */
  lemma TwoTailedRoundTripFails(m: MathLib)
    requires Lawful(m)
    ensures ForwardSize(m, 5.0, 10.0, true, 0.05, 0.8, 2, 0.0, FixtureType(), NoCorrection).Ok?
    ensures ForwardSize(m, 5.0, 10.0, true, 0.05, 0.8, 2, 0.0, FixtureType(), NoCorrection).value.Finite?
    ensures MDEFromSampleSize(m, ForwardSize(m, 5.0, 10.0, true, 0.05, 0.8, 2, 0.0, FixtureType(), NoCorrection).value.value,
                              InverseFor(5.0, 0.05, 0.8, 2, 0.0, FixtureType(), NoCorrection, true))
         != Ok(Finite(10.0))
  {
    FixtureForwardSize(m);
    QuantileBounds();
    FixtureInverseFails(m, Central(0.975) + Central(0.8), Central(0.95) + Central(0.8));
  }

  /** The inverse half of the fixture: the margin formula, one-tailed on
      alpha, applied to the two-sided requirement. */
  lemma FixtureInverseFails(m: MathLib, zF: real, zI: real)
    requires Lawful(m)
    requires 2.79 < zF && 0.0 < zI < 2.5
    requires zI == Central(0.95) + Central(0.8)
    ensures MDEFromSampleSize(m, Requirement(zF, Variance(0.05), Variance(0.055), 0.005),
                              InverseFor(5.0, 0.05, 0.8, 2, 0.0, FixtureType(), NoCorrection, true))
         != Ok(Finite(10.0))
  {
    FixtureInverseQuantiles(m);
    var params := InverseFor(5.0, 0.05, 0.8, 2, 0.0, FixtureType(), NoCorrection, true);
    RequirementTimesSquare(zF, Variance(0.05), Variance(0.055), 0.005);
    FixtureRequirementPositive(zF, Requirement(zF, Variance(0.05), Variance(0.055), 0.005));
    MDEFromSampleSizeUnfold(m, Requirement(zF, Variance(0.05), Variance(0.055), 0.005), params, zI);
    ProportionUnfold(m, params.t, zI, Requirement(zF, Variance(0.05), Variance(0.055), 0.005), 0.0, 0.05,
                     Requirement(zF, Variance(0.05), Variance(0.055), 0.005));
    MarginUnfold(m, zI, Requirement(zF, Variance(0.05), Variance(0.055), 0.005), 0.05);
    MarginSquare(m, zI, Requirement(zF, Variance(0.05), Variance(0.055), 0.005), 0.05);
    MarginMismatch(zF, zI, MarginFormula(m, zI, Requirement(zF, Variance(0.05), Variance(0.055), 0.005), 0.05),
                   Requirement(zF, Variance(0.05), Variance(0.055), 0.005));
  }

  /** The fixture's requirement is positive. */
  lemma FixtureRequirementPositive(zF: real, n: real)
    requires 2.79 < zF
    requires n * Square(0.005) == Square(zF) * (Variance(0.05) + Variance(0.055))
    ensures 0.0 < n
  {
    SquarePositive(zF);
  }

  /** The margin branch cannot return half a point from the fixture's
      requirement: that would need zI^2 0.095 = zF^2 0.099475, while
      zI < 2.5 < 2.79 < zF. */
  lemma MarginMismatch(zF: real, zI: real, y: real, n: real)
    requires 2.79 < zF && 0.0 < zI < 2.5
    requires n * Square(0.005) == Square(zF) * (Variance(0.05) + Variance(0.055))
    requires Square(y) * n == 2.0 * (Square(zI) * Variance(0.05))
    ensures ToPercent(Finite(y), 0.05, true) != Finite(10.0)
  {
    if ToPercent(Finite(y), 0.05, true) == Finite(10.0) {
      assert false;
    }
  }

  // ---------------------------------------------------------------------
  // Corrected: the fixtures' labels read as aliases

  /** The test type a label names, reading "superiority" as "one-sided"
      and "two-tailed" as "two-sided". */
  function ParseTestTypeWithAliases(s: string): (t: TestType)
    ensures Canonical(t)
    ensures t.Other? <==> s !in {"one-sided", "superiority", "two-sided", "two-tailed", "non-inferiority", "equivalence"}
    ensures t.Other? ==> t.name == s
    ensures !t.Other? ==> s == TestTypeName(t) || s == AliasOf(t)
  {
    if s == "superiority" then OneSided
    else if s == "two-tailed" then TwoSided
    else ParseTestType(s)
  }

  /** The second label a test type is known by, if it has one. */
  function AliasOf(t: TestType): string {
    match t
    case OneSided => "superiority"
    case TwoSided => "two-tailed"
    case _ => TestTypeName(t)
  }

  /** Alias-aware reading agrees with the strict one on every recognised
      name, and gives each alias the test type it stands for. */
  lemma AliasesAgree(t: TestType)
    requires !t.Other?
    ensures ParseTestTypeWithAliases(TestTypeName(t)) == t
    ensures ParseTestTypeWithAliases(AliasOf(t)) == t
  {
  }

  /** With the aliases read, the fixture's round trip returns the 10 % it
      started from. */
  lemma TwoTailedRoundTripWithAliases(m: MathLib)
    requires Lawful(m)
    ensures ForwardSize(m, 5.0, 10.0, true, 0.05, 0.8, 2, 0.0, ParseTestTypeWithAliases("two-tailed"), NoCorrection).Ok?
    ensures ForwardSize(m, 5.0, 10.0, true, 0.05, 0.8, 2, 0.0, ParseTestTypeWithAliases("two-tailed"), NoCorrection).value.Finite?
    ensures MDEFromSampleSize(m, ForwardSize(m, 5.0, 10.0, true, 0.05, 0.8, 2, 0.0, ParseTestTypeWithAliases("two-tailed"), NoCorrection).value.value,
                              InverseFor(5.0, 0.05, 0.8, 2, 0.0, ParseTestTypeWithAliases("two-tailed"), NoCorrection, true))
         == Ok(Finite(10.0))
  {
    var t := ParseTestTypeWithAliases("two-tailed");
    assert t == TwoSided;
    QuantileBounds();
    assert ForwardArgs(m, 0.05, 0.8, 2, t, NoCorrection) == (0.975, 0.8);
    assert ZScores(m, (0.975, 0.8)) == Ok((Central(0.975), Central(0.8)));
    assert CalculateMDE(5.0, 10.0, true, t).targetRate == 0.055;
    assert BufferFactor(0.0) == 1.0;
    RoundTripQuadratic(m, 5.0, 10.0, true, 0.05, 0.8, 2, 0.0, t, NoCorrection);
  }

  /** For every label whose alias-aware reading is "one-sided" or
      "two-sided" (so also "superiority" and "two-tailed"), the round trip
      holds under the same conditions as for the canonical names. */
  lemma AliasRoundTrip(m: MathLib, name: string, baseline: real, mde: real, isRelative: bool, alpha: real, power: real,
                       variantCount: int, buffer: real, correction: Correction)
    requires Lawful(m)
    requires name in {"superiority", "two-tailed"}
    requires 0.0 < mde
    requires Epsilon <= baseline / 100.0
    requires CalculateMDE(baseline, mde, isRelative, ParseTestTypeWithAliases(name)).targetRate <= 1.0 - Epsilon
    requires BufferFactor(buffer) != 0.0
    requires ZScores(m, ForwardArgs(m, alpha, power, variantCount, ParseTestTypeWithAliases(name), correction)).Ok?
    requires ZScores(m, ForwardArgs(m, alpha, power, variantCount, ParseTestTypeWithAliases(name), correction)).value.0
           + ZScores(m, ForwardArgs(m, alpha, power, variantCount, ParseTestTypeWithAliases(name), correction)).value.1 != 0.0
    ensures ForwardSize(m, baseline, mde, isRelative, alpha, power, variantCount, buffer, ParseTestTypeWithAliases(name), correction).Ok?
    ensures ForwardSize(m, baseline, mde, isRelative, alpha, power, variantCount, buffer, ParseTestTypeWithAliases(name), correction).value.Finite?
    ensures MDEFromSampleSize(m, ForwardSize(m, baseline, mde, isRelative, alpha, power, variantCount, buffer, ParseTestTypeWithAliases(name), correction).value.value,
                              InverseFor(baseline, alpha, power, variantCount, buffer, ParseTestTypeWithAliases(name), correction, isRelative))
         == Ok(Finite(mde))
  {
    RoundTripQuadratic(m, baseline, mde, isRelative, alpha, power, variantCount, buffer, ParseTestTypeWithAliases(name), correction);
  }
}
