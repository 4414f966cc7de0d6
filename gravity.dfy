/** Planet state as a value, and Planet.gravitational_force. */
module Gravity {
  import opened Numerics
  import opened Vectors

  /** The gravitational constant as written in the source, `6.674 * 10e-11`, which is 6.674e-10. */
  const G: real := 6.674 * 0.0000000001

  /** The 1e-9 added to both denominators of the angle computation. */
  const OFFSET: real := 0.000000001

  /** Below this separation two planets are colliding and exert no force. */
  const COLLISION_DISTANCE: real := 5.0

  /** The observable state of one Planet: its position, velocity, acceleration and mass. */
  datatype Body = Body(pos: seq<real>, vel: seq<real>, acc: seq<real>, mass: real)

  /** Every planet of the simulation lives in three dimensions. */
  predicate WellFormed(b: Body) {
    |b.pos| == 3 && |b.vel| == 3 && |b.acc| == 3
  }

  /**
   * The sign fix-up for one axis: a component of the force on a body at
   * coordinate `s` from a body at coordinate `o` keeps its size and is turned
   * to point from `s` toward `o`. The two steps are the source's two `if`s.
   */
  function Toward(s: real, o: real, g: real): (r: real)
    ensures o < s ==> r <= 0.0
    ensures s < o ==> 0.0 <= r
    ensures Abs(r) == Abs(g)
    ensures s == o ==> r == g
  {
    var g1 := if s > o then -Abs(g) else g;
    if s < o then Abs(g1) else g1
  }

  /** Lines 77-80: `G m1 m2 / |d|^2`, or zero when the planets coincide. */
  function GravityMagnitude(mag: real, m1: real, m2: real): (r: real)
    ensures mag == 0.0 ==> r == 0.0
    ensures mag != 0.0 ==> r * (mag * mag) == G * m1 * m2
  {
    if mag == 0.0 then 0.0
    else
      assert mag * mag != 0.0 by {
        if mag * mag == 0.0 {
          SquareZero(mag);
        }
      }
      G * m1 * m2 / (mag * mag)
  }

  /**
   * Lines 75 and 82-86: the force of size `gravMag` split along theta, the
   * angle in the x-y plane, and phi, the angle out of it. Python raises
   * ZeroDivisionError when `d[0] + 1e-9` or `|d| + 1e-9` is zero and
   * ValueError when the argument of asin lies outside [-1, 1].
   */
  function AngleComponents(lib: Libm, d: seq<real>, mag: real, gravMag: real): (r: Result<seq<real>, Fault>)
    requires |d| == 3
    ensures r.Success? ==> |r.value| == 3
    ensures r.Failure? <==>
      d[0] + OFFSET == 0.0 || mag + OFFSET == 0.0 || !(-1.0 <= d[2] / (mag + OFFSET) <= 1.0)
  {
    if d[0] + OFFSET == 0.0 then Failure(ZeroDivision)
    else
      var theta := lib.atan(d[1] / (d[0] + OFFSET));
      if mag + OFFSET == 0.0 then Failure(ZeroDivision)
      else
        var sinPhi := d[2] / (mag + OFFSET);
        if sinPhi < -1.0 || 1.0 < sinPhi then Failure(MathDomain)
        else
          var phi := lib.asin(sinPhi);
          Success([
            gravMag * lib.cos(theta) * lib.cos(phi),
            gravMag * lib.sin(theta) * lib.cos(phi),
            gravMag * lib.sin(phi)])
  }

  /**
   * gravitational_force: the force `self` feels from `other`. The magnitude
   * is split along the two angles, each axis is turned toward `other`, and
   * the whole vector is zero when the planets are closer than
   * COLLISION_DISTANCE. The source's exceptions become a Failure.
   */
  function Force(lib: Libm, self: Body, other: Body): (r: Result<seq<real>, Fault>)
    requires |self.pos| == 3 && |other.pos| == 3
    ensures r.Success? ==> |r.value| == 3
    ensures r.Success? ==> forall k :: 0 <= k < 3 ==>
      (other.pos[k] < self.pos[k] ==> r.value[k] <= 0.0) &&
      (self.pos[k] < other.pos[k] ==> 0.0 <= r.value[k])
    ensures r.Success? && Magnitude(lib, DistanceVector(self.pos, other.pos)) < COLLISION_DISTANCE ==>
      r.value == [0.0, 0.0, 0.0]
    ensures r.Failure? ==>
      self.pos[0] - other.pos[0] + OFFSET == 0.0 ||
      Magnitude(lib, DistanceVector(self.pos, other.pos)) + OFFSET == 0.0 ||
      r.error == MathDomain
  {
    var d := DistanceVector(self.pos, other.pos);
    var mag := Magnitude(lib, d);
    match AngleComponents(lib, d, mag, GravityMagnitude(mag, self.mass, other.mass))
    case Failure(e) => Failure(e)
    case Success(g) =>
      var gx := Toward(self.pos[0], other.pos[0], g[0]);
      var gy := Toward(self.pos[1], other.pos[1], g[1]);
      var gz := Toward(self.pos[2], other.pos[2], g[2]);
      if mag < COLLISION_DISTANCE then Success([0.0, 0.0, 0.0]) else Success([gx, gy, gz])
  }

  /**
   * With a true square root, the argument of asin is always in range and the
   * second denominator is positive, so the force fails exactly when the x
   * offset cancels the x separation, i.e. when self.x - other.x == -1e-9.
   */
  lemma ForceFaultIff(lib: Libm, self: Body, other: Body)
    requires IsSqrt(lib.sqrt)
    requires |self.pos| == 3 && |other.pos| == 3
    ensures Force(lib, self, other).Failure? <==> self.pos[0] - other.pos[0] == -OFFSET
    ensures Force(lib, self, other).Failure? ==> Force(lib, self, other).error == ZeroDivision
  {
    var d := DistanceVector(self.pos, other.pos);
    var mag := Magnitude(lib, d);
    MagnitudeBounds(lib, d);
    assert Abs(d[2]) <= mag;
    var den := mag + OFFSET;
    assert 0.0 < den;
    assert -den < d[2] < den;
    DividedBelowOne(d[2], den);
  }

  /** |x| < y makes x / y lie strictly between -1 and 1. */
  lemma DividedBelowOne(x: real, y: real)
    requires -y < x < y
    ensures -1.0 < x / y < 1.0
  {
    assert 0.0 < y;
    var q := x / y;
    assert q * y == x;
    if q <= -1.0 {
      MulMonotone(y, q, -1.0);
    } else if 1.0 <= q {
      MulMonotone(y, 1.0, q);
    }
  }

  /** Coincident planets exert no force on each other: the zero guard and the cutoff both apply. */
  lemma ZeroSeparation(lib: Libm, self: Body, other: Body)
    requires IsSqrt(lib.sqrt)
    requires |self.pos| == 3 && self.pos == other.pos
    ensures Force(lib, self, other) == Success([0.0, 0.0, 0.0])
  {
    var d := DistanceVector(self.pos, other.pos);
    MagnitudeBounds(lib, d);
    assert Magnitude(lib, d) == 0.0;
    ForceFaultIff(lib, self, other);
  }

  /**
   * The collision cutoff in terms of the squared separation: closer than 5
   * (squared distance below 25), the force is exactly zero unless the call
   * fails.
   */
  lemma CollisionCutoff(lib: Libm, self: Body, other: Body)
    requires IsSqrt(lib.sqrt)
    requires |self.pos| == 3 && |other.pos| == 3
    requires SumSquares(DistanceVector(self.pos, other.pos)) < COLLISION_DISTANCE * COLLISION_DISTANCE
    ensures Force(lib, self, other) ==
      if self.pos[0] - other.pos[0] == -OFFSET then Failure(ZeroDivision) else Success([0.0, 0.0, 0.0])
  {
    MagnitudeBelow(lib, DistanceVector(self.pos, other.pos), COLLISION_DISTANCE);
    ForceFaultIff(lib, self, other);
  }

  /** Contact is mutual: when one planet is inside the other's cutoff, each feels zero force or fails. */
  lemma MutualCutoff(lib: Libm, a: Body, b: Body)
    requires IsSqrt(lib.sqrt)
    requires |a.pos| == 3 && |b.pos| == 3
    requires Magnitude(lib, DistanceVector(a.pos, b.pos)) < COLLISION_DISTANCE
    ensures Force(lib, a, b) in {Success([0.0, 0.0, 0.0]), Failure(ZeroDivision)}
    ensures Force(lib, b, a) in {Success([0.0, 0.0, 0.0]), Failure(ZeroDivision)}
  {
    SeparationSymmetric(a.pos, b.pos);
    ForceFaultIff(lib, a, b);
    ForceFaultIff(lib, b, a);
    assert Magnitude(lib, DistanceVector(b.pos, a.pos)) < COLLISION_DISTANCE;
  }
}
