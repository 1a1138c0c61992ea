/** `normSInv`: Acklam's rational approximation of the standard normal
    quantile function, with its three regions and its domain check. */
module NormalQuantile {
  import opened Numerics

  /** Central-region numerator coefficients `a`. */
  const A: seq<real> := [
    -3.969683028665376e1, 2.209460984245205e2, -2.759285104469687e2,
    1.38357751867269e2, -3.066479806614716e1, 2.506628277459239
  ]

  /** Central-region denominator coefficients `b`, followed by the constant term 1. */
  const B: seq<real> := [
    -5.447609879822406e1, 1.615858368580409e2, -1.556989798598866e2,
    6.680131188771972e1, -1.328068155288572e1, 1.0
  ]

  /** Tail numerator coefficients `c`. */
  const C: seq<real> := [
    -7.784894002430293e-3, -3.223964580411365e-1, -2.400758277161838,
    -2.549732539343734, 4.374664141464968, 2.938163982698783
  ]

  /** Tail denominator coefficients `d`, followed by the constant term 1. */
  const D: seq<real> := [
    7.784695709041462e-3, 3.224671290700398e-1, 2.445134137142996,
    3.754408661907416, 1.0
  ]

  /** Below this probability the lower-tail formula applies. */
  const PLow: real := 0.02425
  /** Above this probability the upper-tail formula applies. */
  const PHigh: real := 1.0 - PLow

  /** The largest squared distance from 1/2 that reaches the central formula. */
  const RMax: real := (PHigh - 0.5) * (PHigh - 0.5)

  /** Horner evaluation `(((cs[0] * x + cs[1]) * x + ...) * x + cs[n-1])`,
      the shape every polynomial of the approximation is written in. */
  function Horner(cs: seq<real>, x: real): real {
    if |cs| == 0 then 0.0 else Horner(cs[..|cs| - 1], x) * x + cs[|cs| - 1]
  }

  /** Horner evaluation with non-negative coefficients at a non-negative
      point is at least the constant term. */
  lemma {:induction false} HornerNonNegative(cs: seq<real>, x: real)
    requires 0.0 <= x
    requires forall i :: 0 <= i < |cs| ==> 0.0 <= cs[i]
    ensures 0 < |cs| ==> cs[|cs| - 1] <= Horner(cs, x)
    ensures 0.0 <= Horner(cs, x)
  {
    if |cs| > 0 {
      HornerNonNegative(cs[..|cs| - 1], x);
      assert 0.0 <= Horner(cs[..|cs| - 1], x) * x;
    }
  }

  function CentralNumerator(r: real): real {
    Horner(A, r)
  }

  function CentralDenominator(r: real): real {
    Horner(B, r)
  }

  function TailNumerator(q: real): real {
    Horner(C, q)
  }

  /** All tail denominator coefficients are positive, so on q >= 0 it is at least 1. */
  function TailDenominator(q: real): (d: real)
    ensures 0.0 <= q ==> 1.0 <= d
  {
    if 0.0 <= q then HornerNonNegative(D, q); Horner(D, q) else Horner(D, q)
  }

  /** Horner evaluation of six coefficients, written out. */
  lemma HornerSix(cs: seq<real>, x: real)
    requires |cs| == 6
    ensures Horner(cs, x) == ((((cs[0] * x + cs[1]) * x + cs[2]) * x + cs[3]) * x + cs[4]) * x + cs[5]
  {
    assert cs[..5][..4] == cs[..4];
    assert cs[..4][..3] == cs[..3];
    assert cs[..3][..2] == cs[..2];
    assert cs[..2][..1] == cs[..1];
    assert cs[..1][..0] == [];
    assert Horner(cs[..1], x) == cs[0];
    assert Horner(cs[..2], x) == cs[0] * x + cs[1];
    assert Horner(cs[..3], x) == (cs[0] * x + cs[1]) * x + cs[2];
    assert Horner(cs[..4], x) == ((cs[0] * x + cs[1]) * x + cs[2]) * x + cs[3];
    assert Horner(cs[..5], x) == (((cs[0] * x + cs[1]) * x + cs[2]) * x + cs[3]) * x + cs[4];
  }

  /** The central denominator stays positive on the whole central region:
      expanded around RMax, t = RMax - r, every coefficient is positive. */
  lemma CentralDenominatorPositive(r: real)
    requires 0.0 <= r <= RMax
    ensures 0.0 < CentralDenominator(r)
  {
    var t := RMax - r;
    HornerSix(B, r);
    assert CentralDenominator(r) ==
      0.002604420859410449577953714660589267394445718632755279541015625
      + t * (0.19064342483405741373184378894791212458813934326171875
      + t * (4.430168458771026127435416321471309228515625
      + t * (37.31439516739773752473162737734375
      + t * (99.93576358529783909358125
      + t * 54.47609879822406))));
  }

  /** The central numerator is positive on the whole central region, by the
      same expansion around RMax. */
  lemma CentralNumeratorPositive(r: real)
    requires 0.0 <= r <= RMax
    ensures 0.0 < CentralNumerator(r)
  {
    var t := RMax - r;
    HornerSix(A, r);
    assert CentralNumerator(r) ==
      0.01080067453713169370879846736812847330896238957000732421875
      + t * (0.7134789449159333315332593644010776618914306640625
      + t * (14.30848762688204234981884538710804921875
      + t * (96.2307199586324328778056604125
      + t * (176.0215801521578417663
      + t * 39.69683028665376))));
  }

  lemma SquareBound(q: real, c: real)
    requires -c <= q <= c
    ensures q * q <= c * c
  {
  }

  /** num(r) / den(r) of the central region, positive throughout it. */
  function CentralRatio(r: real): (ratio: real)
    requires 0.0 <= r <= RMax
    ensures 0.0 < ratio
  {
    CentralDenominatorPositive(r);
    CentralNumeratorPositive(r);
    CentralNumerator(r) / CentralDenominator(r)
  }

  /** The central formula, for PLow <= p <= PHigh: with q = p - 1/2 and
      r = q * q, num(r) * q / den(r), written here as (num(r) / den(r)) * q. */
  function Central(p: real): (z: real)
    requires PLow <= p <= PHigh
    ensures z == 0.0 <==> p == 0.5
    ensures 0.0 < z <==> 0.5 < p
  {
    var q := p - 0.5;
    SquareBound(q, PHigh - 0.5);
    CentralRatio(Square(q)) * q
  }

  /** The lower-tail formula applied to the tail probability `t` (p itself
      in the lower region, 1 - p in the upper one). */
  function Tail(m: MathLib, t: real): real
    requires Lawful(m)
    requires 0.0 < t < 1.0
  {
    var q := Sqrt(m, -2.0 * Ln(m, t));
    TailNumerator(q) / TailDenominator(q)
  }

  /** `normSInv(p)`: throws unless 0 < p < 1; otherwise the lower-tail,
      central or negated upper-tail formula. */
  function NormSInv(m: MathLib, p: real): (z: Result<real>)
    requires Lawful(m)
    ensures z.InvalidProbability? <==> p <= 0.0 || 1.0 <= p
    ensures z.InvalidProbability? ==> z.p == p
    ensures PLow <= p <= PHigh ==> z.Ok? && (0.0 < z.value <==> 0.5 < p)
    ensures PLow <= p <= PHigh ==> (z.Ok? && (z.value == 0.0 <==> p == 0.5))
  {
    if p <= 0.0 || 1.0 <= p then
      InvalidProbability(p)
    else if p < PLow then
      Ok(Tail(m, p))
    else if p <= PHigh then
      Ok(Central(p))
    else
      Ok(-Tail(m, 1.0 - p))
  }

  /** Central(p) as the ratio at the squared distance q * q times the distance q. */
  lemma CentralUnfold(p: real, q: real)
    requires PLow <= p <= PHigh
    requires q == p - 0.5
    ensures Square(q) <= RMax
    ensures Central(p) == CentralRatio(Square(q)) * q
  {
    SquareBound(q, PHigh - 0.5);
  }

  /** The central formula is odd in p - 1/2. */
  lemma CentralOdd(p: real)
    requires PLow <= p <= PHigh
    ensures Central(1.0 - p) == -Central(p)
  {
    var q := p - 0.5;
    var q' := (1.0 - p) - 0.5;
    CentralUnfold(p, q);
    CentralUnfold(1.0 - p, q');
    assert Square(q') == Square(q);
    var k := CentralRatio(Square(q));
    assert k * q' == -(k * q);
  }

  /** On (0, 1) the approximation is odd about one half, region by region:
      the lower and upper tails mirror each other and the central formula
      is odd in p - 1/2. */
  lemma NormSInvOdd(m: MathLib, p: real)
    requires Lawful(m)
    requires 0.0 < p < 1.0
    ensures NormSInv(m, 1.0 - p).Ok? && NormSInv(m, p).Ok?
    ensures NormSInv(m, 1.0 - p).value == -NormSInv(m, p).value
  {
    if p < PLow {
      assert 1.0 - (1.0 - p) == p;
    } else if p <= PHigh {
      CentralOdd(p);
    }
  }

  /** The median of the standard normal is reproduced exactly. */
  lemma NormSInvHalf(m: MathLib)
    requires Lawful(m)
    ensures NormSInv(m, 0.5) == Ok(0.0)
  {
    NormSInvOdd(m, 0.5);
  }
}
