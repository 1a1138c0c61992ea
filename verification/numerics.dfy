/** Numeric vocabulary shared by the calculator's statistical core: the
    transcendental functions of JavaScript's `Math` object (passed in, never
    defined), JavaScript's non-finite results, the thrown quantile error, and
    the rounding functions `Math.ceil`, `Math.round` and clipping. */
module Numerics {

  /** `Math.sqrt`, `Math.log` and the fractional `Math.pow`, supplied by the
      caller. The model never evaluates them; it relies only on `Lawful`. */
  datatype MathLib = MathLib(sqrt: real -> real, ln: real -> real, pow: (real, real) -> real)

  /** `Math.sqrt(x)`. */
  function Sqrt(m: MathLib, x: real): real {
    m.sqrt(x)
  }

  /** `Math.log(x)`. */
  function Ln(m: MathLib, x: real): real {
    m.ln(x)
  }

  /** `Math.pow(x, y)`. */
  function Pow(m: MathLib, x: real, y: real): real {
    m.pow(x, y)
  }

  /** What the model assumes of the supplied functions: `sqrt` is the
      non-negative square root on non-negative arguments and `log` is negative
      strictly between 0 and 1. */
  ghost predicate Lawful(m: MathLib) {
    && (forall x :: 0.0 <= x ==> 0.0 <= Sqrt(m, x) && Sqrt(m, x) * Sqrt(m, x) == x)
    && (forall x :: 0.0 < x < 1.0 ==> Ln(m, x) < 0.0)
  }

  /** A JavaScript number that is either finite or one of Infinity, -Infinity, NaN. */
  datatype Extended<T> = Finite(value: T) | NonFinite

  /** A value or JavaScript's `null` / a missing element. */
  datatype Option<T> = None | Some(value: T)

  /** The outcome of a computation that may throw the quantile function's
      "Argument p must be a probability between 0 and 1" error. */
  datatype Result<T> = Ok(value: T) | InvalidProbability(p: real) {
    predicate IsFailure() {
      InvalidProbability?
    }

    function PropagateFailure<U>(): Result<U>
      requires IsFailure()
    {
      InvalidProbability(p)
    }

    function Extract(): T
      requires Ok?
    {
      value
    }
  }

  /** `Math.ceil` on a finite number: the least integer not below `x`. */
  function Ceil(x: real): (n: int)
    ensures x <= n as real < x + 1.0
  {
    -((-x).Floor)
  }

  /** `Math.round`: the nearest integer, halves rounded towards +Infinity. */
  function Round(x: real): (n: int)
    ensures n as real - 0.5 <= x < n as real + 0.5
  {
    (x + 0.5).Floor
  }

  /** `Math.max(lo, Math.min(hi, x))`. */
  function Clamp(lo: real, hi: real, x: real): (r: real)
    requires lo <= hi
    ensures lo <= r <= hi
    ensures lo <= x <= hi ==> r == x
    ensures x < lo ==> r == lo
    ensures hi < x ==> r == hi
  {
    if hi < x then hi else if x < lo then lo else x
  }

  /** `Math.pow(x, 2)`, kept as a function so that squares are matched as terms. */
  function Square(x: real): real {
    x * x
  }

  /** A non-zero number has a positive square. */
  lemma SquarePositive(x: real)
    requires x != 0.0
    ensures 0.0 < Square(x)
  {
    if x < 0.0 {
      calc { Square(x); == (-x) * (-x); > 0.0; }
    } else {
      calc { Square(x); == x * x; > 0.0; }
    }
  }

  /** Squares are non-negative. */
  lemma SquareNonNegative(x: real)
    ensures 0.0 <= Square(x)
  {
    if x != 0.0 {
      SquarePositive(x);
    }
  }

  /** Dividing a product by one of its non-zero factors leaves the other. */
  lemma CancelFactor(k: real, d: real)
    requires d != 0.0
    ensures (k * d) / d == k
  {
  }

  /** A product with a non-zero factor vanishes only when the other factor does. */
  lemma ZeroProduct(a: real, v: real)
    requires a != 0.0 && a * v == 0.0
    ensures v == 0.0
  {
    CancelFactor(v, a);
    assert v * a == 0.0;
  }

  /** Two numbers with the same square are equal up to sign. */
  lemma SquareEqual(u: real, s: real)
    requires Square(u) == Square(s)
    ensures u == s || u == -s
  {
    assert (u - s) * (u + s) == Square(u) - Square(s);
    if u - s != 0.0 {
      ZeroProduct(u - s, u + s);
    }
  }

  /** `Math.ceil` is monotone. */
  lemma CeilMonotone(x: real, y: real)
    requires x <= y
    ensures Ceil(x) <= Ceil(y)
  {
  }

  /** The square root a lawful `sqrt` returns is the unique non-negative one. */
  lemma SqrtUnique(m: MathLib, x: real, y: real)
    requires Lawful(m)
    requires 0.0 <= y && y * y == x
    ensures Sqrt(m, x) == y
  {
    var s := Sqrt(m, x);
    assert 0.0 <= s && s * s == x;
    assert (s - y) * (s + y) == 0.0;
    if s + y != 0.0 {
      assert s - y == ((s - y) * (s + y)) / (s + y);
    }
  }

  /** A lawful `sqrt` is strictly positive on strictly positive arguments. */
  lemma SqrtPositive(m: MathLib, x: real)
    requires Lawful(m)
    requires 0.0 < x
    ensures 0.0 < Sqrt(m, x)
  {
    assert Sqrt(m, x) * Sqrt(m, x) == x;
  }
}
