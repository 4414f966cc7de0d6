/**
 * The `Planet` objects of simulation.py and the `update` function that
 * advances a list of them in place by one time step.
 */
module Simulation {
  import opened Numerics
  import opened Vectors
  import opened Gravity
  import opened Integrator

  /**
   * A planet: position, velocity and acceleration, each a 3-vector that the
   * property setters replace, and a mass that has no setter. The turtle
   * that draws the planet is not part of this model.
   */
  class Planet {
    var pos: seq<real>
    var vel: seq<real>
    var acc: seq<real>
    const mass: real

    /** The planet's current fields as a value. */
    function State(): Body
      reads this
    {
      Body(pos, vel, acc, mass)
    }

    /** `Planet(pos, vel, mass, canvas)`: the acceleration starts at zero. */
    constructor (pos: seq<real>, vel: seq<real>, mass: real)
      ensures State() == Body(pos, vel, [0.0, 0.0, 0.0], mass)
    {
      this.pos := pos;
      this.vel := vel;
      this.acc := [0.0, 0.0, 0.0];
      this.mass := mass;
    }

    /** The `pos` setter; the turtle move and colour change are not modelled. */
    method SetPos(newpos: seq<real>)
      modifies this
      ensures pos == newpos && vel == old(vel) && acc == old(acc)
    {
      pos := newpos;
    }

    /** The `vel` setter. */
    method SetVel(newvel: seq<real>)
      modifies this
      ensures vel == newvel && pos == old(pos) && acc == old(acc)
    {
      vel := newvel;
    }

    /** The `acc` setter. */
    method SetAcc(newacc: seq<real>)
      modifies this
      ensures acc == newacc && pos == old(pos) && vel == old(vel)
    {
      acc := newacc;
    }
  }

  /** The planets of a list as values, in list order. */
  function States(planets: seq<Planet>): (bs: seq<Body>)
    reads set p | p in planets
    ensures |bs| == |planets|
    ensures forall i :: 0 <= i < |planets| ==> bs[i] == planets[i].State()
  {
    seq(|planets|, i reads set p | p in planets requires 0 <= i < |planets| => planets[i].State())
  }

  /** No planet object appears twice in the list. */
  predicate Distinct(planets: seq<Planet>) {
    forall s, t :: 0 <= s < t < |planets| ==> planets[s] != planets[t]
  }

  /**
   * The inner loop of `update` (lines 111-114): the forces on planet `i`
   * from every other planet, summed in list order, or the first exception.
   * The pairwise forces depend only on the planets' current values, so they
   * are computed from those before the summing loop runs.
   */
  method NetForceOn(law: ForceLaw, planets: seq<Planet>, i: nat) returns (r: Result<seq<real>, Fault>)
    requires Lawful(law)
    requires AllWellFormed(States(planets)) && i < |planets|
    ensures r == NetForce(law, States(planets), i)
  {
    var fs := PairForces(law, States(planets), i);
    r := SumForces(fs, i);
  }

  /** Lines 115-121 for one planet: `acc` becomes the force over the mass, then `vel` gains `dt` times it. */
  method Kick(p: Planet, forces: seq<real>, dt: real)
    requires WellFormed(p.State()) && |forces| == 3 && p.mass != 0.0
    modifies p
    ensures Success(p.State()) == ApplyForce(old(p.State()), Success(forces), dt)
  {
    var m, v := p.mass, p.vel;
    var acc := seq(3, k requires 0 <= k < 3 => forces[k] / m);
    p.SetAcc(acc);
    p.SetVel(seq(3, k requires 0 <= k < 3 => v[k] + dt * acc[k]));
  }

  /** Lines 126-129 for one planet: `pos` gains `dt` times the velocity. */
  method Drift(p: Planet, dt: real)
    requires WellFormed(p.State())
    modifies p
    ensures p.State() == Move(old(p.State()), dt)
  {
    var newpos := [p.pos[0] + dt * p.vel[0], p.pos[1] + dt * p.vel[1], p.pos[2] + dt * p.vel[2]];
    ghost var b := p.State();
    assert |newpos| == 3 && |Move(b, dt).pos| == 3;
    assert newpos[0] == Move(b, dt).pos[0];
    assert newpos[1] == Move(b, dt).pos[1];
    assert newpos[2] == Move(b, dt).pos[2];
    assert newpos == Move(b, dt).pos;
    p.SetPos(newpos);
  }

  /**
   * One iteration of pass 1 (lines 111-121): the net force on planet `i`,
   * then its new acceleration and velocity, or the exception raised on the
   * way, in which case nothing has changed.
   */
  method AccelerateOne(law: ForceLaw, planets: seq<Planet>, i: nat, dt: real) returns (fault: Option<Fault>)
    requires Lawful(law)
    requires Distinct(planets) && AllWellFormed(States(planets)) && i < |planets|
    modifies planets[i]
    ensures Outcome(States(planets), fault) == Visit(law, old(States(planets)), i, dt)
  {
    ghost var cur := States(planets);
    var net := NetForceOn(law, planets, i);
    var p := planets[i];
    if net.Failure? {
      return Some(net.error);
    }
    if p.mass == 0.0 {
      return Some(ZeroDivision);
    }
    Kick(p, net.value, dt);
    assert States(planets) == cur[i := p.State()];
    fault := None;
  }

  /**
   * Pass 1 of `update` (lines 110-121): every planet, in list order, gets
   * the acceleration and velocity its net force calls for, the force being
   * computed against the list as the earlier iterations left it. An
   * exception is returned as the fault, with the planets as Python leaves
   * them at that point.
   */
  method AccelerateAll(law: ForceLaw, planets: seq<Planet>, dt: real) returns (fault: Option<Fault>)
    requires Lawful(law)
    requires Distinct(planets) && AllWellFormed(States(planets))
    modifies set p | p in planets
    ensures Pass1(law, old(States(planets)), dt, Indices(|planets|)) == Outcome(States(planets), fault)
  {
    ghost var b0 := States(planets);
    var n := |planets|;
    var i := 0;
    while i < n
      invariant 0 <= i <= n
      invariant AllWellFormed(States(planets))
      invariant Pass1(law, b0, dt, Indices(i)) == Outcome(States(planets), None)
    {
      ghost var cur := States(planets);
      fault := AccelerateOne(law, planets, i, dt);
      ghost var after := States(planets);
      assert Outcome(after, fault) == Visit(law, cur, i, dt);
      assert AllWellFormed(after);
      Pass1Advance(law, b0, dt, i, cur, fault, after);
      if fault.Some? {
        return;
      }
      i := i + 1;
    }
    fault := None;
  }

  /** Pass 2 of `update` (lines 124-129): every planet moves by its new velocity. */
  method MoveAll(planets: seq<Planet>, dt: real)
    requires Distinct(planets) && AllWellFormed(States(planets))
    modifies set p | p in planets
    ensures States(planets) == Pass2(old(States(planets)), dt)
  {
    ghost var mid := States(planets);
    var i := 0;
    while i < |planets|
      invariant 0 <= i <= |planets|
      invariant forall k :: 0 <= k < |planets| ==> planets[k].State() == if k < i then Move(mid[k], dt) else mid[k]
    {
      Drift(planets[i], dt);
      i := i + 1;
    }
  }

  /**
   * `update(planets, dt)` (lines 109-129): pass 1, then, unless it raised,
   * pass 2. The exception, if any, is returned as the fault.
   */
  method Update(lib: Libm, planets: seq<Planet>, dt: real) returns (fault: Option<Fault>)
    requires Distinct(planets) && AllWellFormed(States(planets))
    modifies set p | p in planets
    ensures fault == Tick(Gravitation(lib), old(States(planets)), dt).fault
    ensures States(planets) == Tick(Gravitation(lib), old(States(planets)), dt).bodies
  {
    fault := AccelerateAll(Gravitation(lib), planets, dt);
    if fault.None? {
      MoveAll(planets, dt);
    }
  }
}
