/** The inverse solver: `solveQuadratic` and `calculateMDEFromSampleSize`,
    which turn a per-variant sample size back into the smallest effect it
    can detect. */
module MdeInverse {
  import opened Numerics
  import opened TestTypes
  import opened SampleSize

  function Discriminant(a: real, b: real, c: real): real {
    Square(b) - 4.0 * a * c
  }

  /** a x^2 + b x + c. */
  function QuadValue(a: real, b: real, c: real, x: real): real {
    a * Square(x) + b * x + c
  }

  /** The two roots (-b + s) / 2a and (-b - s) / 2a for a square root s of the discriminant. */
  function Root1(a: real, b: real, s: real): real
    requires a != 0.0
  {
    (-b + s) / (2.0 * a)
  }

  function Root2(a: real, b: real, s: real): real
    requires a != 0.0
  {
    (-b - s) / (2.0 * a)
  }

  /** `solveQuadratic`: `null` (None) for a negative discriminant; otherwise
      the first of root1, root2 that is positive, or `null` when neither is.
      For a = 0 JavaScript divides by zero: the result is +Infinity when
      b < 0 and `null` otherwise. */
  function SolveQuadratic(m: MathLib, a: real, b: real, c: real): (r: Option<Extended<real>>)
    requires Lawful(m)
    ensures Discriminant(a, b, c) < 0.0 ==> r.None?
    ensures r == Some(NonFinite) <==> a == 0.0 && b < 0.0
    ensures r.Some? && r.value.Finite? ==> 0.0 < r.value.value && QuadValue(a, b, c, r.value.value) == 0.0
    ensures 0.0 < a && c < 0.0 ==> r.Some? && r.value.Finite?
  {
    var d := Discriminant(a, b, c);
    if d < 0.0 then
      None
    else if a == 0.0 then
      if b < 0.0 then Some(NonFinite) else None
    else
      var s := Sqrt(m, d);
      RootsSatisfy(a, b, c, s);
      if Root1(a, b, s) > 0.0 then Some(Finite(Root1(a, b, s)))
      else if Root2(a, b, s) > 0.0 then Some(Finite(Root2(a, b, s)))
      else
        PositiveRootExists(a, b, c, s);
        None
  }

  /** Multiplying out a quotient by 2a. */
  lemma RootTimesTwoA(a: real, b: real, s: real)
    requires a != 0.0
    ensures Root1(a, b, s) * (2.0 * a) == -b + s
    ensures Root2(a, b, s) * (2.0 * a) == -b - s
  {
  }

  /** (2ax + b)^2 - D is 4a times the quadratic's value at x. */
  lemma CompletedSquare(a: real, b: real, c: real, x: real)
    ensures Square(2.0 * a * x + b) - Discriminant(a, b, c) == 4.0 * a * QuadValue(a, b, c, x)
  {
  }

  /** A point whose 2ax + b is a square root of the discriminant is a root. */
  lemma RootFromSquare(a: real, b: real, c: real, x: real, s: real)
    requires a != 0.0
    requires Square(s) == Discriminant(a, b, c)
    requires 2.0 * a * x + b == s || 2.0 * a * x + b == -s
    ensures QuadValue(a, b, c, x) == 0.0
  {
    CompletedSquare(a, b, c, x);
    assert Square(2.0 * a * x + b) == Square(s);
    ZeroProduct(4.0 * a, QuadValue(a, b, c, x));
  }

  /** Both formula roots solve the equation. */
  lemma RootsSatisfy(a: real, b: real, c: real, s: real)
    requires a != 0.0
    requires Square(s) == Discriminant(a, b, c)
    ensures QuadValue(a, b, c, Root1(a, b, s)) == 0.0
    ensures QuadValue(a, b, c, Root2(a, b, s)) == 0.0
  {
    RootTimesTwoA(a, b, s);
    RootFromSquare(a, b, c, Root1(a, b, s), s);
    RootFromSquare(a, b, c, Root2(a, b, s), s);
  }

  /** Every root is one of the two formula roots. */
  lemma RootsAreFormulaRoots(a: real, b: real, c: real, s: real, y: real)
    requires a != 0.0
    requires Square(s) == Discriminant(a, b, c)
    requires QuadValue(a, b, c, y) == 0.0
    ensures y == Root1(a, b, s) || y == Root2(a, b, s)
  {
    CompletedSquare(a, b, c, y);
    SquareEqual(2.0 * a * y + b, s);
    RootTimesTwoA(a, b, s);
    if 2.0 * a * y + b == s {
      CancelFactor(y, 2.0 * a);
      assert y == (-b + s) / (2.0 * a);
    } else {
      CancelFactor(y, 2.0 * a);
      assert y == (-b - s) / (2.0 * a);
    }
  }

  /** With a > 0 and a non-negative s, root1 is the larger root. */
  lemma Root1Larger(a: real, b: real, s: real)
    requires 0.0 < a && 0.0 <= s
    ensures Root2(a, b, s) <= Root1(a, b, s)
  {
    RootTimesTwoA(a, b, s);
    var d := Root1(a, b, s) - Root2(a, b, s);
    assert d * (2.0 * a) == 2.0 * s;
  }

  /** With a > 0 > c the root product c/a is negative, so root1 is positive. */
  lemma PositiveRootExists(a: real, b: real, c: real, s: real)
    requires a != 0.0
    requires Square(s) == Discriminant(a, b, c) && 0.0 <= s
    ensures 0.0 < a && c < 0.0 ==> 0.0 < Root1(a, b, s)
  {
    if 0.0 < a && c < 0.0 {
      // s^2 = b^2 - 4ac > b^2, so s > |b| and -b + s > 0.
      assert 0.0 < -4.0 * a * c;
      assert Square(b) < Square(s);
      if -b + s <= 0.0 {
        assert 0.0 <= s <= b;
        SquareMonotone(s, b);
      }
      RootTimesTwoA(a, b, s);
    }
  }

  /** The root `solveQuadratic` returns for a > 0 is the largest root, not
      necessarily the smallest positive one. */
  lemma SolveQuadraticLargest(m: MathLib, a: real, b: real, c: real, y: real)
    requires Lawful(m)
    requires 0.0 < a
    requires SolveQuadratic(m, a, b, c).Some? && SolveQuadratic(m, a, b, c).value.Finite?
    requires QuadValue(a, b, c, y) == 0.0
    ensures y <= SolveQuadratic(m, a, b, c).value.value
  {
    var s := Sqrt(m, Discriminant(a, b, c));
    RootsAreFormulaRoots(a, b, c, s, y);
    Root1Larger(a, b, s);
  }

  /** `solveQuadratic` returns `null` only when the equation has no positive root. */
  lemma SolveQuadraticComplete(m: MathLib, a: real, b: real, c: real, y: real)
    requires Lawful(m)
    requires a != 0.0
    requires SolveQuadratic(m, a, b, c).None?
    requires 0.0 < y
    ensures QuadValue(a, b, c, y) != 0.0
  {
    if QuadValue(a, b, c, y) == 0.0 {
      CompletedSquare(a, b, c, y);
      SquareNonNegative(2.0 * a * y + b);
      assert 0.0 <= Discriminant(a, b, c);
      var s := Sqrt(m, Discriminant(a, b, c));
      RootsAreFormulaRoots(a, b, c, s, y);
    }
  }

  /** The parameters `calculateMDEFromSampleSize` reads. */
  datatype InverseParams = InverseParams(
    baseline: real, alpha: real, power: real, variantCount: int, buffer: real,
    t: TestType, correction: Correction, isRelative: bool)

  /** The quantile arguments of the inverse solver. "two-sided" takes
      1 - alpha/2, "equivalence" also takes the two-sided power quantile,
      and every other test type, recognised or not, is one-tailed on alpha. */
  function InverseQuantileArgs(t: TestType, adjustedAlpha: real, power: real): (args: (real, real))
    ensures t.TwoSided? ==> args == (1.0 - adjustedAlpha / 2.0, power)
    ensures t.Equivalence? ==> args == (1.0 - adjustedAlpha, (1.0 + power) / 2.0)
    ensures !t.TwoSided? && !t.Equivalence? ==> args == (1.0 - adjustedAlpha, power)
  {
    if t == OneSided then (1.0 - adjustedAlpha, power)
    else if t == TwoSided then (1.0 - adjustedAlpha / 2.0, power)
    else if t == Equivalence then (1.0 - adjustedAlpha, (1.0 + power) / 2.0)
    else (1.0 - adjustedAlpha, power)
  }

  /** The forward and inverse solvers take the same quantiles exactly for
      the four recognised test types: an unrecognised one is two-sided in
      the forward solver and one-tailed in the inverse. */
  lemma QuantileArgsAgree(t: TestType, adjustedAlpha: real, power: real)
    ensures !t.Other? ==> InverseQuantileArgs(t, adjustedAlpha, power) == ForwardQuantileArgs(t, adjustedAlpha, power)
    ensures t.Other? && adjustedAlpha != 0.0 ==> InverseQuantileArgs(t, adjustedAlpha, power) != ForwardQuantileArgs(t, adjustedAlpha, power)
  {
  }

  /** The inverse solver uses the quadratic only for "one-sided" and "two-sided". */
  predicate UsesQuadratic(t: TestType) {
    t.OneSided? || t.TwoSided?
  }

  /** The quadratic branch: (n + Z^2) x^2 + Z^2 (2p - 1) x - 2 Z^2 p (1 - p) = 0,
      with `null` read as NaN. */
  function QuadraticMDE(m: MathLib, zz: real, n: real, p: real): (x: Extended<real>)
    requires Lawful(m)
    ensures x.Finite? ==> 0.0 < x.value && QuadValue(n + zz, zz * (2.0 * p - 1.0), -zz * 2.0 * p * (1.0 - p), x.value) == 0.0
  {
    match SolveQuadratic(m, n + zz, zz * (2.0 * p - 1.0), -zz * 2.0 * p * (1.0 - p))
    case None => NonFinite
    case Some(x) => x
  }

  /** z * sqrt(p (1 - p)) * sqrt(2 / n). */
  function MarginFormula(m: MathLib, z: real, n: real, p: real): real
    requires n != 0.0
  {
    z * Sqrt(m, Variance(p)) * Sqrt(m, 2.0 / n)
  }

  /** The margin branch z * sqrt(p (1 - p)) * sqrt(2 / n): NaN for a negative
      variance or a negative n, Infinity or NaN for n = 0. */
  function MarginMDE(m: MathLib, z: real, n: real, p: real): (x: Extended<real>)
    requires Lawful(m)
    ensures x.NonFinite? <==> Variance(p) < 0.0 || n <= 0.0
    ensures x.Finite? && 0.0 <= z ==> 0.0 <= x.value
  {
    if Variance(p) < 0.0 || n <= 0.0 then
      NonFinite
    else
      QuotientNonNegative(2.0, n);
      ProductNonNegative(z, Sqrt(m, Variance(p)), Sqrt(m, 2.0 / n));
      Finite(MarginFormula(m, z, n, p))
  }

  lemma ProductNonNegative(z: real, u: real, v: real)
    requires 0.0 <= u && 0.0 <= v
    ensures 0.0 <= z ==> 0.0 <= z * u * v
  {
    if 0.0 <= z {
      ScaleMonotone(z, 0.0, u);
      ScaleMonotone(z * u, 0.0, v);
    }
  }

  /** The final scaling to a percentage: of the baseline in relative mode
      (non-finite for a zero baseline), in points otherwise. */
  function ToPercent(x: Extended<real>, rate: real, isRelative: bool): (r: Extended<real>)
    ensures r.Finite? <==> x.Finite? && (isRelative ==> rate != 0.0)
    ensures r.Finite? && isRelative ==> r.value * rate == x.value * 100.0
    ensures r.Finite? && !isRelative ==> r.value == x.value * 100.0
    ensures r.Finite? && 0.0 < x.value && (isRelative ==> 0.0 < rate) ==> 0.0 < r.value
  {
    match x
    case NonFinite => NonFinite
    case Finite(v) =>
      if !isRelative then Finite(v * 100.0)
      else if rate == 0.0 then NonFinite
      else
        QuotientSign(v, rate);
        Finite(v / rate * 100.0)
  }

  /** A quotient of two positive numbers is positive. */
  lemma QuotientSign(v: real, rate: real)
    requires rate != 0.0
    ensures 0.0 < v && 0.0 < rate ==> 0.0 < v / rate
  {
    if 0.0 < v && 0.0 < rate {
      QuotientNonNegative(v, rate);
      assert v / rate * rate == v;
    }
  }

  /** The effect as a proportion, before scaling: un-buffer the sample size,
      then the quadratic for "one-sided" and "two-sided", the margin formula
      for every other test type. A buffer of exactly -100 % divides the
      sample by zero: the unbuffered size is then infinite (NaN for a zero
      sample), which makes the quadratic's discriminant or roots NaN, so
      `null`, while sqrt(2 / Infinity) is 0, so the margin formula gives 0
      whenever the baseline's variance has a square root. */
  function Proportion(m: MathLib, t: TestType, zSum: real, sample: real, buffer: real, rate: real): (x: Extended<real>)
    requires Lawful(m)
    ensures BufferFactor(buffer) == 0.0 ==> (x.Finite? <==> !UsesQuadratic(t) && sample != 0.0 && 0.0 <= Variance(rate))
    ensures BufferFactor(buffer) == 0.0 && x.Finite? ==> x.value == 0.0
    ensures x.Finite? && UsesQuadratic(t) ==> BufferFactor(buffer) != 0.0 && 0.0 < x.value
    ensures x.Finite? && !UsesQuadratic(t) && BufferFactor(buffer) != 0.0 ==> 0.0 < sample / BufferFactor(buffer)
  {
    var factor := BufferFactor(buffer);
    if factor == 0.0 then
      if !UsesQuadratic(t) && sample != 0.0 && 0.0 <= Variance(rate) then Finite(0.0) else NonFinite
    else if UsesQuadratic(t) then QuadraticMDE(m, Square(zSum), sample / factor, rate)
    else MarginMDE(m, zSum, sample / factor, rate)
  }

  /** `calculateMDEFromSampleSize`: the quantiles (which may throw), the
      proportion, and the percentage. */
  function MDEFromSampleSize(m: MathLib, sample: real, params: InverseParams): (r: Result<Extended<real>>)
    requires Lawful(m)
    ensures r.Ok? <==> ZScores(m, InverseArgs(m, params)).Ok?
    ensures r.Ok? && BufferFactor(params.buffer) == 0.0 ==>
              (r.value.Finite? <==> !UsesQuadratic(params.t) && sample != 0.0 && 0.0 <= Variance(params.baseline / 100.0)
                                    && (params.isRelative ==> params.baseline != 0.0))
    ensures r.Ok? && r.value.Finite? && BufferFactor(params.buffer) == 0.0 ==> r.value.value == 0.0
    ensures r.Ok? && r.value.Finite? && UsesQuadratic(params.t) && (params.isRelative ==> 0.0 < params.baseline) ==>
              BufferFactor(params.buffer) != 0.0 && 0.0 < r.value.value
    ensures r.Ok? && r.value.Finite? && !UsesQuadratic(params.t) && BufferFactor(params.buffer) != 0.0 ==>
              0.0 < sample / BufferFactor(params.buffer)
  {
    var z :- ZScores(m, InverseArgs(m, params));
    var rate := params.baseline / 100.0;
    Ok(ToPercent(Proportion(m, params.t, z.0 + z.1, sample, params.buffer, rate), rate, params.isRelative))
  }

  /** A non-inferiority test with a -100 % buffer: the margin formula sees an
      infinite unbuffered size and returns an MDE of 0. */
  lemma FullBufferMarginIsZero(m: MathLib)
    requires Lawful(m)
    ensures MDEFromSampleSize(m, 1000.0, InverseParams(5.0, 0.05, 0.8, 2, -100.0, NonInferiority, NoCorrection, true))
         == Ok(Finite(0.0))
  {
    assert InverseArgs(m, InverseParams(5.0, 0.05, 0.8, 2, -100.0, NonInferiority, NoCorrection, true)) == (0.95, 0.8);
  }

  /** The inverse solver once its quantiles are known. */
  lemma MDEFromSampleSizeUnfold(m: MathLib, sample: real, params: InverseParams, zSum: real)
    requires Lawful(m)
    requires ZScores(m, InverseArgs(m, params)).Ok?
    requires ZScores(m, InverseArgs(m, params)).value.0 + ZScores(m, InverseArgs(m, params)).value.1 == zSum
    ensures MDEFromSampleSize(m, sample, params)
         == Ok(ToPercent(Proportion(m, params.t, zSum, sample, params.buffer, params.baseline / 100.0),
                         params.baseline / 100.0, params.isRelative))
  {
  }

  /** The proportion with the unbuffered sample size named. */
  lemma ProportionUnfold(m: MathLib, t: TestType, zSum: real, sample: real, buffer: real, rate: real, n: real)
    requires Lawful(m)
    requires BufferFactor(buffer) != 0.0 && sample / BufferFactor(buffer) == n
    ensures UsesQuadratic(t) ==> Proportion(m, t, zSum, sample, buffer, rate) == QuadraticMDE(m, Square(zSum), n, rate)
    ensures !UsesQuadratic(t) ==> Proportion(m, t, zSum, sample, buffer, rate) == MarginMDE(m, zSum, n, rate)
  {
  }

  /** The quantile arguments `calculateMDEFromSampleSize` uses. */
  function InverseArgs(m: MathLib, params: InverseParams): (real, real) {
    InverseQuantileArgs(params.t, AdjustAlpha(m, params.alpha, params.variantCount, params.correction), params.power)
  }

  /** The value the quadratic takes at x when n is the forward requirement
      for the absolute effect x: zero, for every p. */
  lemma ForwardRequirementIsRoot(zz: real, p: real, x: real, n: real)
    requires x != 0.0
    requires n * Square(x) == zz * (Variance(p) + Variance(p + x))
    ensures QuadValue(n + zz, zz * (2.0 * p - 1.0), -zz * 2.0 * p * (1.0 - p), x) == 0.0
  {
    calc {
      QuadValue(n + zz, zz * (2.0 * p - 1.0), -zz * 2.0 * p * (1.0 - p), x);
      == n * Square(x) + zz * (Square(x) + (2.0 * p - 1.0) * x - 2.0 * p * (1.0 - p));
      == zz * (Variance(p) + Variance(p + x)) + zz * (Square(x) + (2.0 * p - 1.0) * x - 2.0 * p * (1.0 - p));
      == zz * ((p * (1.0 - p) + (p + x) * (1.0 - (p + x))) + (x * x + (2.0 * p - 1.0) * x - 2.0 * p * (1.0 - p)));
      == 0.0;
    }
  }

  /** The quadratic branch inverts the forward requirement: for a positive
      effect x with 0 < p and p + x < 1, and n the unbuffered forward sample
      size, the solver returns x. */
  lemma QuadraticInverts(m: MathLib, zz: real, p: real, x: real, n: real)
    requires Lawful(m)
    requires 0.0 < zz && 0.0 < x && 0.0 < p && p + x < 1.0
    requires n * Square(x) == zz * (Variance(p) + Variance(p + x))
    ensures QuadraticMDE(m, zz, n, p) == Finite(x)
  {
    var a := n + zz;
    var b := zz * (2.0 * p - 1.0);
    var c := -zz * 2.0 * p * (1.0 - p);
    VarianceBounds(p);
    VarianceBounds(p + x);
    assert 0.0 < zz * (Variance(p) + Variance(p + x));
    SquarePositive(x);
    assert 0.0 < n by {
      if n <= 0.0 {
        ScaleMonotone(Square(x), n, 0.0);
      }
    }
    assert 0.0 < a;
    assert c < 0.0 by {
      assert 0.0 < 2.0 * p * (1.0 - p);
      ScaleMonotone(zz, 0.0, 2.0 * p * (1.0 - p));
    }
    ForwardRequirementIsRoot(zz, p, x, n);
    var r := SolveQuadratic(m, a, b, c);
    assert r.Some? && r.value.Finite?;
    SolveQuadraticLargest(m, a, b, c, x);
    // x and the returned root are both roots; with c/a < 0 only one root is positive.
    var s := Sqrt(m, Discriminant(a, b, c));
    RootsAreFormulaRoots(a, b, c, s, x);
    RootsAreFormulaRoots(a, b, c, s, r.value.value);
    if x != r.value.value {
      OppositeRoots(a, b, c, s);
    }
  }

  /** With a > 0 > c the two formula roots have opposite signs. */
  lemma OppositeRoots(a: real, b: real, c: real, s: real)
    requires 0.0 < a && c < 0.0
    requires Square(s) == Discriminant(a, b, c) && 0.0 <= s
    ensures Root2(a, b, s) < 0.0 < Root1(a, b, s)
  {
    PositiveRootExists(a, b, c, s);
    // root1 * root2 * 4a^2 = b^2 - s^2 = 4ac < 0
    RootTimesTwoA(a, b, s);
    var r1 := Root1(a, b, s);
    var r2 := Root2(a, b, s);
    assert (r1 * (2.0 * a)) * (r2 * (2.0 * a)) == Square(b) - Square(s);
    assert (r1 * r2) * (4.0 * Square(a)) == 4.0 * a * c;
    SquarePositive(a);
    if 0.0 <= r2 {
      ScaleMonotone(r1, 0.0, r2);
      ScaleMonotone(4.0 * Square(a), 0.0, r1 * r2);
    }
  }

  /** The margin formula on its finite branch. */
  lemma MarginUnfold(m: MathLib, z: real, n: real, p: real)
    requires Lawful(m)
    requires 0.0 <= Variance(p) && 0.0 < n
    ensures MarginMDE(m, z, n, p) == Finite(MarginFormula(m, z, n, p))
  {
  }

  /** For n = z^2 2v / x^2 the square root of 2 / n is x / (z sqrt v). */
  lemma MarginSqrt(m: MathLib, z: real, v: real, x: real, n: real, sv: real)
    requires Lawful(m)
    requires 0.0 < z && 0.0 < x && 0.0 < v && 0.0 < n
    requires sv == Sqrt(m, v)
    requires n * Square(x) == Square(z) * (v + v)
    ensures 0.0 < sv
    ensures Sqrt(m, 2.0 / n) * (z * sv) == x
  {
    SqrtPositive(m, v);
    SquarePositive(z);
    var w := x / (z * sv);
    assert w * (z * sv) == x;
    assert 0.0 < z * sv;
    assert 0.0 < w by {
      if w <= 0.0 {
        ScaleMonotone(z * sv, w, 0.0);
      }
    }
    assert 0.0 < Square(z) * v;
    assert Square(w) * (Square(z) * v) == Square(x) by {
      calc {
        Square(w) * (Square(z) * v);
        == (w * (z * sv)) * (w * (z * sv));
        == Square(x);
      }
    }
    assert (2.0 / n) * (Square(z) * v) == Square(x) by {
      assert n * Square(x) == 2.0 * (Square(z) * v);
    }
    CancelFactor(Square(w), Square(z) * v);
    CancelFactor(2.0 / n, Square(z) * v);
    assert Square(w) == 2.0 / n;
    SqrtUnique(m, 2.0 / n, w);
  }

  /** The margin branch inverts the margin tests' forward requirement:
      for positive z and x and 0 < p < 1, with n = z^2 2 p (1 - p) / x^2,
      it returns x. */
  lemma MarginInverts(m: MathLib, z: real, p: real, x: real, n: real)
    requires Lawful(m)
    requires 0.0 < z && 0.0 < x && 0.0 < p < 1.0
    requires n * Square(x) == Square(z) * (Variance(p) + Variance(p))
    ensures MarginMDE(m, z, n, p) == Finite(x)
  {
    VarianceBounds(p);
    SquarePositive(x);
    SquarePositive(z);
    assert 0.0 < Square(z) * (Variance(p) + Variance(p));
    assert 0.0 < n by {
      if n <= 0.0 {
        ScaleMonotone(Square(x), n, 0.0);
      }
    }
    MarginUnfold(m, z, n, p);
    MarginSqrt(m, z, Variance(p), x, n, Sqrt(m, Variance(p)));
    assert MarginFormula(m, z, n, p) == x;
  }
}
