/** Result and fault values, and the floating-point library functions the physics calls. */
module Numerics {

  datatype Option<+T> = None | Some(value: T)

  datatype Result<+T, +E> = Success(value: T) | Failure(error: E)

  /** The exceptions Python can raise inside one tick of the simulation. */
  datatype Fault =
    | ZeroDivision  // ZeroDivisionError raised by `/`
    | MathDomain    // ValueError("math domain error") raised by math.asin

  /**
   * The library functions the force routine calls: `x ** 0.5`, math.atan,
   * math.asin, math.sin and math.cos. Their exact values are not modelled,
   * so the caller supplies them.
   */
  datatype Libm = Libm(
    sqrt: real -> real,
    atan: real -> real,
    asin: real -> real,
    sin: real -> real,
    cos: real -> real)

  /** `sqrt` behaves as the square root on the non-negative reals. */
  ghost predicate IsSqrt(sqrt: real -> real) {
    forall x :: 0.0 <= x ==> 0.0 <= sqrt(x) && sqrt(x) * sqrt(x) == x
  }

  function Abs(x: real): real {
    if x < 0.0 then -x else x
  }

  // Facts about real products. The solver handles a product of two distinct
  // variables more reliably than a square, so each fact is stated on distinct
  // variables and instantiated with equal ones where a square is meant.

  lemma MulNonNegative(a: real, b: real)
    requires 0.0 <= a && 0.0 <= b
    ensures 0.0 <= a * b
  {
  }

  lemma MulZero(a: real, b: real)
    requires a * b == 0.0
    ensures a == 0.0 || b == 0.0
  {
  }

  lemma MulMonotone(a: real, b: real, c: real)
    requires 0.0 <= a && b <= c
    ensures a * b <= a * c
  {
  }

  lemma MulStrictMonotone(a: real, b: real, c: real)
    requires 0.0 < a && b < c
    ensures a * b < a * c
  {
  }

  lemma ProductLess(a: real, b: real, c: real, d: real)
    requires 0.0 <= a < b && 0.0 <= c < d
    ensures a * c < b * d
  {
    MulMonotone(a, c, d);
    MulStrictMonotone(d, a, b);
  }

  lemma AddNonNegative(a: real, b: real, c: real)
    requires a <= b && 0.0 <= c
    ensures a <= b + c
  {
  }

  lemma SquareNonNegative(x: real)
    ensures 0.0 <= x * x
  {
    if x < 0.0 {
      MulNonNegative(-x, -x);
    } else {
      MulNonNegative(x, x);
    }
  }

  lemma SquareZero(x: real)
    requires x * x == 0.0
    ensures x == 0.0
  {
    MulZero(x, x);
  }

  /** For non-negative reals, comparing two numbers is comparing their squares. */
  lemma SquareLess(a: real, b: real)
    requires 0.0 <= a && 0.0 <= b
    ensures a < b <==> a * a < b * b
  {
    if a < b {
      ProductLess(a, b, a, b);
    } else if b < a {
      ProductLess(b, a, b, a);
    }
  }
}
