/** The list arithmetic of simulation.py: distance vectors and magnitudes. */
module Vectors {
  import opened Numerics

  /** calculate_distance_vector: the componentwise difference `a - b`, as long as `a`. */
  function DistanceVector(a: seq<real>, b: seq<real>): (d: seq<real>)
    requires |a| <= |b|
    ensures |d| == |a|
    ensures forall k :: 0 <= k < |a| ==> d[k] == a[k] - b[k]
  {
    seq(|a|, k requires 0 <= k < |a| => a[k] - b[k])
  }

  /** The sum of the squared components, added from left to right as Python's `sum` does. */
  function SumSquares(v: seq<real>): (r: real)
    ensures 0.0 <= r
    ensures r == 0.0 <==> forall k :: 0 <= k < |v| ==> v[k] == 0.0
  {
    if v == [] then 0.0
    else
      var init, last := v[..|v| - 1], v[|v| - 1];
      SquareNonNegative(last);
      assert forall k :: 0 <= k < |init| ==> init[k] == v[k];
      assert init + [last] == v;
      var r := SumSquares(init) + last * last;
      assert r == 0.0 ==> last == 0.0 by {
        if r == 0.0 {
          SquareZero(last);
        }
      }
      r
  }

  /** vector_magnitude: `sum([s * s for s in v]) ** 0.5`. */
  function Magnitude(lib: Libm, v: seq<real>): (r: real)
    ensures IsSqrt(lib.sqrt) ==> 0.0 <= r && r * r == SumSquares(v)
  {
    lib.sqrt(SumSquares(v))
  }

  /** With a true square root, the magnitude is non-negative and bounds every component. */
  lemma MagnitudeBounds(lib: Libm, v: seq<real>)
    requires IsSqrt(lib.sqrt)
    ensures 0.0 <= Magnitude(lib, v)
    ensures Magnitude(lib, v) == 0.0 <==> forall k :: 0 <= k < |v| ==> v[k] == 0.0
    ensures forall k :: 0 <= k < |v| ==> Abs(v[k]) <= Magnitude(lib, v)
  {
    var s := SumSquares(v);
    var m := lib.sqrt(s);
    assert 0.0 <= m && m * m == s;
    if s == 0.0 {
      SquareZero(m);
    }
    forall k | 0 <= k < |v|
      ensures Abs(v[k]) <= m
    {
      var x := Abs(v[k]);
      SquareBelowSumSquares(v, k);
      assert x * x == v[k] * v[k] by {
        if v[k] < 0.0 {
          assert x == -v[k];
        }
      }
      SquareLess(m, x);
    }
  }

  /** Each squared component is at most the sum of squares. */
  lemma {:induction false} SquareBelowSumSquares(v: seq<real>, k: nat)
    requires k < |v|
    ensures v[k] * v[k] <= SumSquares(v)
  {
    var init, last := v[..|v| - 1], v[|v| - 1];
    var rest := SumSquares(init);
    if k == |v| - 1 {
      assert 0.0 <= rest;
    } else {
      SquareBelowSumSquares(init, k);
      assert init[k] == v[k];
      SquareNonNegative(last);
      assert SumSquares(v) == rest + last * last;
      AddNonNegative(v[k] * v[k], rest, last * last);
    }
  }

  /** Comparing the magnitude with a bound is comparing the sum of squares with its square. */
  lemma MagnitudeBelow(lib: Libm, v: seq<real>, c: real)
    requires IsSqrt(lib.sqrt)
    requires 0.0 <= c
    ensures Magnitude(lib, v) < c <==> SumSquares(v) < c * c
  {
    var s := SumSquares(v);
    var m := lib.sqrt(s);
    assert 0.0 <= m && m * m == s;
    SquareLess(m, c);
  }

  /** Squares forget signs: a vector and its negation have the same sum of squares. */
  lemma {:induction false} SumSquaresNegated(u: seq<real>, v: seq<real>)
    requires |u| == |v|
    requires forall k :: 0 <= k < |u| ==> u[k] == -v[k]
    ensures SumSquares(u) == SumSquares(v)
  {
    if u != [] {
      SumSquaresNegated(u[..|u| - 1], v[..|v| - 1]);
    }
  }

  /** The separation of two points does not depend on which one is `self`. */
  lemma SeparationSymmetric(a: seq<real>, b: seq<real>)
    requires |a| == |b|
    ensures SumSquares(DistanceVector(a, b)) == SumSquares(DistanceVector(b, a))
  {
    SumSquaresNegated(DistanceVector(a, b), DistanceVector(b, a));
  }
}
