/**
 * The two passes of `update` over the values of the planets. Pass 1 visits
 * the planets in a given order, each reading the current (partly updated)
 * list, as the source's loop does; pass 2 moves every planet by its new
 * velocity.
 */
module Integrator {
  import opened Numerics
  import opened Vectors
  import opened Gravity

  predicate AllWellFormed(bs: seq<Body>) {
    forall i :: 0 <= i < |bs| ==> WellFormed(bs[i])
  }

  /**
   * A force law: the force on the first body from the second. `update`
   * uses `gravitational_force`; the passes are stated for any law that is
   * defined on three-dimensional bodies, gives three-dimensional forces and
   * reads nothing but the two positions and masses.
   */
  type ForceLaw = (Body, Body) --> Result<seq<real>, Fault>

  ghost predicate Lawful(law: ForceLaw) {
    (forall a, b :: WellFormed(a) && WellFormed(b) ==> law.requires(a, b)) &&
    (forall a, b :: WellFormed(a) && WellFormed(b) && law(a, b).Success? ==> |law(a, b).value| == 3) &&
    (forall a, b, a', b' ::
       WellFormed(a) && WellFormed(b) && WellFormed(a') && WellFormed(b') &&
       a.pos == a'.pos && a.mass == a'.mass && b.pos == b'.pos && b.mass == b'.mass ==>
       law(a, b) == law(a', b'))
  }

  /** `gravitational_force` (lines 73-106) as a force law. */
  function Gravitation(lib: Libm): (law: ForceLaw)
    ensures Lawful(law)
    ensures forall a: Body, b: Body :: |a.pos| == 3 && |b.pos| == 3 ==> law.requires(a, b) && law(a, b) == Force(lib, a, b)
  {
    (a: Body, b: Body) requires |a.pos| == 3 && |b.pos| == 3 => Force(lib, a, b)
  }

  /** What pass 1 leaves alone: the number of planets, their positions and their masses. */
  predicate SamePositionsAndMasses(bs: seq<Body>, cs: seq<Body>) {
    |bs| == |cs| &&
    forall i :: 0 <= i < |bs| ==> bs[i].pos == cs[i].pos && bs[i].mass == cs[i].mass
  }

  /** Valid visiting orders: every entry names a planet, none twice. */
  predicate IsOrder(order: seq<nat>, n: nat) {
    (forall t :: 0 <= t < |order| ==> order[t] < n) &&
    (forall s, t :: 0 <= s < t < |order| ==> order[s] != order[t])
  }

  /** `range(n)`, the order the source visits the planets in. */
  function Indices(n: nat): (order: seq<nat>)
    ensures |order| == n
    ensures forall t :: 0 <= t < n ==> order[t] == t
  {
    seq(n, t requires 0 <= t < n => t as nat)
  }

  /** Componentwise sum of two vectors, `list(map(sum, zip(u, v)))`. */
  function Plus(u: seq<real>, v: seq<real>): (w: seq<real>)
    requires |u| == |v|
    ensures |w| == |u|
    ensures forall k :: 0 <= k < |u| ==> w[k] == u[k] + v[k]
  {
    seq(|u|, k requires 0 <= k < |u| => u[k] + v[k])
  }

  /** Every entry that is a force is a three-dimensional vector. */
  predicate ThreeDimensional(fs: seq<Result<seq<real>, Fault>>) {
    forall j :: 0 <= j < |fs| && fs[j].Success? ==> |fs[j].value| == 3
  }

  /**
   * The inner loop of pass 1 after its first `k` iterations: starting from
   * `[0, 0, 0]`, the entries `j < k`, `j != i`, of `fs` added in order, or the
   * first fault among them.
   */
  function SumExcept(fs: seq<Result<seq<real>, Fault>>, i: nat, k: nat): (r: Result<seq<real>, Fault>)
    requires ThreeDimensional(fs) && k <= |fs|
    ensures r.Success? ==> |r.value| == 3
    decreases k
  {
    if k == 0 then Success([0.0, 0.0, 0.0])
    else
      match SumExcept(fs, i, k - 1)
      case Failure(e) => Failure(e)
      case Success(forces) =>
        if i == k - 1 then Success(forces)
        else
          match fs[k - 1]
          case Failure(e) => Failure(e)
          case Success(f) => Success(Plus(forces, f))
  }

  /** `planets[i].gravitational_force(planets[j])` for every `j`; the entry `j == i` is never read. */
  function PairForces(law: ForceLaw, bs: seq<Body>, i: nat): (fs: seq<Result<seq<real>, Fault>>)
    requires Lawful(law)
    requires AllWellFormed(bs) && i < |bs|
    ensures |fs| == |bs| && ThreeDimensional(fs)
    ensures forall j :: 0 <= j < |bs| && j != i ==> fs[j] == law(bs[i], bs[j])
  {
    seq(|bs|, j requires 0 <= j < |bs| =>
      if j == i then Success([0.0, 0.0, 0.0]) else law(bs[i], bs[j]))
  }

  /** The net force on planet `i`: the sum of the forces from all other planets. */
  function NetForce(law: ForceLaw, bs: seq<Body>, i: nat): (r: Result<seq<real>, Fault>)
    requires Lawful(law)
    requires AllWellFormed(bs) && i < |bs|
    ensures r.Success? ==> |r.value| == 3
  {
    SumExcept(PairForces(law, bs, i), i, |bs|)
  }

  /**
   * Lines 115-121 for one planet: acceleration is the net force over the mass
   * (ZeroDivisionError when the mass is zero) and velocity is the old velocity
   * plus `dt` times that acceleration.
   */
  function ApplyForce(b: Body, net: Result<seq<real>, Fault>, dt: real): (r: Result<Body, Fault>)
    requires WellFormed(b) && (net.Success? ==> |net.value| == 3)
    ensures r.Success? <==> net.Success? && b.mass != 0.0
    ensures r.Success? ==> WellFormed(r.value)
    ensures r.Success? ==> r.value.pos == b.pos && r.value.mass == b.mass
    ensures r.Failure? ==> r.error == ZeroDivision || (net.Failure? && r.error == net.error)
  {
    match net
    case Failure(e) => Failure(e)
    case Success(forces) =>
      if b.mass == 0.0 then Failure(ZeroDivision)
      else
        var acc := seq(3, k requires 0 <= k < 3 => forces[k] / b.mass);
        var vel := seq(3, k requires 0 <= k < 3 => b.vel[k] + dt * acc[k]);
        Success(b.(acc := acc, vel := vel))
  }

  /** One iteration of pass 1 for planet `i`, against the list `bs`. */
  function Accelerate(law: ForceLaw, bs: seq<Body>, i: nat, dt: real): (r: Result<Body, Fault>)
    requires Lawful(law)
    requires AllWellFormed(bs) && i < |bs|
    ensures r.Success? ==> WellFormed(r.value)
    ensures r.Success? ==> r.value.pos == bs[i].pos && r.value.mass == bs[i].mass
    ensures r.Success? <==> NetForce(law, bs, i).Success? && bs[i].mass != 0.0
  {
    ApplyForce(bs[i], NetForce(law, bs, i), dt)
  }

  /** The planets after (part of) a tick, and the exception that ended it early, if any. */
  datatype Outcome = Outcome(bodies: seq<Body>, fault: Option<Fault>)

  /** One iteration of the outer loop of pass 1: planet `i` updated in the list `bs`, or the exception. */
  function Visit(law: ForceLaw, bs: seq<Body>, i: nat, dt: real): (o: Outcome)
    requires Lawful(law)
    requires AllWellFormed(bs) && i < |bs|
    ensures AllWellFormed(o.bodies) && SamePositionsAndMasses(bs, o.bodies)
    ensures forall j :: 0 <= j < |bs| && j != i ==> o.bodies[j] == bs[j]
  {
    match Accelerate(law, bs, i, dt)
    case Failure(e) => Outcome(bs, Some(e))
    case Success(b) => Outcome(bs[i := b], None)
  }

  /**
   * Pass 1, visiting the planets in `order`. Each planet reads the list as the
   * earlier iterations left it; a fault stops the pass with the planets
   * updated so far.
   */
  function Pass1(law: ForceLaw, bs: seq<Body>, dt: real, order: seq<nat>): (o: Outcome)
    requires Lawful(law)
    requires AllWellFormed(bs) && IsOrder(order, |bs|)
    ensures AllWellFormed(o.bodies)
    ensures SamePositionsAndMasses(bs, o.bodies)
    decreases |order|
  {
    if order == [] then Outcome(bs, None)
    else
      var prev := Pass1(law, bs, dt, order[..|order| - 1]);
      if prev.fault.Some? then prev else Visit(law, prev.bodies, order[|order| - 1], dt)
  }

  /** One iteration of pass 2: position plus `dt` times the velocity. */
  function Move(b: Body, dt: real): (r: Body)
    requires WellFormed(b)
    ensures WellFormed(r) && r.vel == b.vel && r.acc == b.acc && r.mass == b.mass
    ensures forall k :: 0 <= k < 3 ==> r.pos[k] == b.pos[k] + dt * b.vel[k]
  {
    b.(pos := seq(3, k requires 0 <= k < 3 => b.pos[k] + dt * b.vel[k]))
  }

  function Pass2(bs: seq<Body>, dt: real): (cs: seq<Body>)
    requires AllWellFormed(bs)
    ensures |cs| == |bs|
    ensures forall i :: 0 <= i < |bs| ==> cs[i] == Move(bs[i], dt)
  {
    seq(|bs|, i requires 0 <= i < |bs| => Move(bs[i], dt))
  }

  /** `update(planets, dt)`: pass 1 in list order, then, if nothing was raised, pass 2. */
  function Tick(law: ForceLaw, bs: seq<Body>, dt: real): (o: Outcome)
    requires Lawful(law)
    requires AllWellFormed(bs)
    ensures |o.bodies| == |bs| && AllWellFormed(o.bodies)
    ensures o.fault == Pass1(law, bs, dt, Indices(|bs|)).fault
  {
    Finish(Pass1(law, bs, dt, Indices(|bs|)), dt)
  }

  /** After pass 1: stop if it raised, otherwise run pass 2. */
  function Finish(p: Outcome, dt: real): (o: Outcome)
    requires AllWellFormed(p.bodies)
    ensures o.fault == p.fault && |o.bodies| == |p.bodies| && AllWellFormed(o.bodies)
    ensures p.fault.Some? ==> o.bodies == p.bodies
    ensures p.fault.None? ==> forall i :: 0 <= i < |p.bodies| ==> o.bodies[i] == Move(p.bodies[i], dt)
  {
    if p.fault.Some? then p else Outcome(Pass2(p.bodies, dt), None)
  }

  // ---- Pass 1 one iteration at a time, as the loop runs it ----

  /** Iteration `i` of the outer loop of pass 1, after iterations `0 .. i-1` raised nothing. */
  lemma Pass1Next(law: ForceLaw, bs: seq<Body>, dt: real, i: nat)
    requires Lawful(law)
    requires AllWellFormed(bs) && i < |bs|
    requires Pass1(law, bs, dt, Indices(i)).fault.None?
    ensures Pass1(law, bs, dt, Indices(i + 1)) == Visit(law, Pass1(law, bs, dt, Indices(i)).bodies, i, dt)
  {
    assert Indices(i + 1)[..i] == Indices(i);
  }

  /**
   * Iteration `i` of pass 1 seen from the loop: if it turned the list `cur`
   * into `after`, raising `fault` or not, then the pass so far is one step
   * longer, or, if it raised, the whole pass has ended there.
   */
  lemma Pass1Advance(law: ForceLaw, bs: seq<Body>, dt: real, i: nat, cur: seq<Body>, fault: Option<Fault>, after: seq<Body>)
    requires Lawful(law)
    requires AllWellFormed(bs) && AllWellFormed(cur) && i < |bs| == |cur|
    requires Pass1(law, bs, dt, Indices(i)) == Outcome(cur, None)
    requires Outcome(after, fault) == Visit(law, cur, i, dt)
    ensures fault.None? ==> Pass1(law, bs, dt, Indices(i + 1)) == Outcome(after, None)
    ensures fault.Some? ==> Pass1(law, bs, dt, Indices(|bs|)) == Outcome(after, fault)
  {
    Pass1Next(law, bs, dt, i);
    if fault.Some? {
      Pass1Stopped(law, bs, dt, i + 1, |bs|);
    }
  }

  /** Once an iteration has raised, the later ones never run. */
  lemma {:induction false} Pass1Stopped(law: ForceLaw, bs: seq<Body>, dt: real, m: nat, n: nat)
    requires Lawful(law)
    requires AllWellFormed(bs) && m <= n <= |bs|
    requires Pass1(law, bs, dt, Indices(m)).fault.Some?
    ensures Pass1(law, bs, dt, Indices(n)) == Pass1(law, bs, dt, Indices(m))
    decreases n
  {
    if n > m {
      Pass1Stopped(law, bs, dt, m, n - 1);
      assert Indices(n)[..n - 1] == Indices(n - 1);
    }
  }

  // ---- Forces read only positions and masses ----

  lemma PairForcesReadPositions(law: ForceLaw, bs: seq<Body>, cs: seq<Body>, i: nat)
    requires Lawful(law)
    requires AllWellFormed(bs) && AllWellFormed(cs) && SamePositionsAndMasses(bs, cs)
    requires i < |bs|
    ensures PairForces(law, bs, i) == PairForces(law, cs, i)
  {
    forall j | 0 <= j < |bs| && j != i
      ensures law(bs[i], bs[j]) == law(cs[i], cs[j])
    {
    }
  }

  /** A planet accelerates the same whatever the velocities of the others are. */
  lemma AccelerateReadsPositions(law: ForceLaw, bs: seq<Body>, cs: seq<Body>, i: nat, dt: real)
    requires Lawful(law)
    requires AllWellFormed(bs) && AllWellFormed(cs) && SamePositionsAndMasses(bs, cs)
    requires i < |bs| && bs[i] == cs[i]
    ensures Accelerate(law, bs, i, dt) == Accelerate(law, cs, i, dt)
  {
    PairForcesReadPositions(law, bs, cs, i);
  }

  // ---- When the net force exists ----

  /** A partial sum is computed exactly when every summed entry is a force. */
  lemma {:induction false} SumExceptFaultIff(fs: seq<Result<seq<real>, Fault>>, i: nat, k: nat)
    requires ThreeDimensional(fs) && k <= |fs|
    ensures SumExcept(fs, i, k).Success? <==> forall j :: 0 <= j < k && j != i ==> fs[j].Success?
    ensures SumExcept(fs, i, k).Failure? ==>
      exists j :: 0 <= j < k && j != i && fs[j] == Failure(SumExcept(fs, i, k).error)
    decreases k
  {
    if k > 0 {
      SumExceptFaultIff(fs, i, k - 1);
      if SumExcept(fs, i, k - 1).Failure? {
        var j :| 0 <= j < k - 1 && j != i && fs[j] == Failure(SumExcept(fs, i, k - 1).error);
      }
    }
  }

  /** Once the inner loop has met a fault, it keeps it. */
  lemma {:induction false} SumExceptStopped(fs: seq<Result<seq<real>, Fault>>, i: nat, m: nat, n: nat)
    requires ThreeDimensional(fs) && m <= n <= |fs|
    requires SumExcept(fs, i, m).Failure?
    ensures SumExcept(fs, i, n) == SumExcept(fs, i, m)
    decreases n
  {
    if n > m {
      SumExceptStopped(fs, i, m, n - 1);
    }
  }

  /**
   * The inner loop of pass 1 (lines 111-114) over the forces on planet `i`:
   * start from `[0, 0, 0]` and add the force of every other planet in list
   * order, stopping at the first that raised.
   */
  method SumForces(fs: seq<Result<seq<real>, Fault>>, i: nat) returns (r: Result<seq<real>, Fault>)
    requires ThreeDimensional(fs)
    ensures r == SumExcept(fs, i, |fs|)
  {
    var forces := [0.0, 0.0, 0.0];
    var j := 0;
    while j < |fs|
      invariant 0 <= j <= |fs|
      invariant SumExcept(fs, i, j) == Success(forces)
    {
      if i != j {
        match fs[j]
        case Failure(e) =>
          SumExceptStopped(fs, i, j + 1, |fs|);
          return Failure(e);
        case Success(f) =>
          forces := Plus(forces, f);
      }
      j := j + 1;
    }
    return Success(forces);
  }

  /** The net force is computed exactly when every pairwise force is. */
  lemma NetForceFaultIff(law: ForceLaw, bs: seq<Body>, i: nat)
    requires Lawful(law)
    requires AllWellFormed(bs) && i < |bs|
    ensures NetForce(law, bs, i).Success? <==>
      forall j :: 0 <= j < |bs| && j != i ==> law(bs[i], bs[j]).Success?
    ensures NetForce(law, bs, i).Failure? ==>
      exists j :: 0 <= j < |bs| && j != i && law(bs[i], bs[j]) == Failure(NetForce(law, bs, i).error)
  {
    SumExceptFaultIff(PairForces(law, bs, i), i, |bs|);
  }

  /**
   * With a true square root, planet `i`'s iteration of pass 1 raises exactly
   * when its mass is zero or some other planet lies exactly `OFFSET` ahead of
   * it along x (line 75), and what it raises is always ZeroDivisionError.
   */
  lemma AccelerateFaultIff(lib: Libm, bs: seq<Body>, i: nat, dt: real)
    requires IsSqrt(lib.sqrt)
    requires AllWellFormed(bs) && i < |bs|
    ensures Accelerate(Gravitation(lib), bs, i, dt).Success? <==>
      bs[i].mass != 0.0 && forall j :: 0 <= j < |bs| && j != i ==> bs[i].pos[0] - bs[j].pos[0] != -OFFSET
    ensures Accelerate(Gravitation(lib), bs, i, dt).Failure? ==>
      Accelerate(Gravitation(lib), bs, i, dt).error == ZeroDivision
  {
    var law := Gravitation(lib);
    NetForceFaultIff(law, bs, i);
    forall j | 0 <= j < |bs| && j != i
      ensures law(bs[i], bs[j]).Success? <==> bs[i].pos[0] - bs[j].pos[0] != -OFFSET
      ensures law(bs[i], bs[j]).Failure? ==> law(bs[i], bs[j]).error == ZeroDivision
    {
      ForceFaultIff(lib, bs[i], bs[j]);
    }
    if NetForce(law, bs, i).Failure? {
      var j :| 0 <= j < |bs| && j != i && law(bs[i], bs[j]) == Failure(NetForce(law, bs, i).error);
    }
  }

  // ---- Pass 1 in any order equals pass 1 against the snapshot ----

  /** What each planet's iteration of pass 1 gives when run against the state before the pass. */
  function Snapshot(law: ForceLaw, bs: seq<Body>, dt: real): (table: seq<Result<Body, Fault>>)
    requires Lawful(law)
    requires AllWellFormed(bs)
    ensures |table| == |bs|
    ensures forall i :: 0 <= i < |bs| ==> table[i] == Accelerate(law, bs, i, dt)
  {
    seq(|bs|, i requires 0 <= i < |bs| => Accelerate(law, bs, i, dt))
  }

  /**
   * The design of lines 110-123 (every force from pre-tick positions):
   * write the pre-computed results of `table` into `bs` in `order`, stopping
   * at the first fault.
   */
  function Commit(bs: seq<Body>, table: seq<Result<Body, Fault>>, order: seq<nat>): (o: Outcome)
    requires |table| == |bs| && IsOrder(order, |bs|)
    ensures |o.bodies| == |bs|
    decreases |order|
  {
    if order == [] then Outcome(bs, None)
    else
      var prev := Commit(bs, table, order[..|order| - 1]);
      if prev.fault.Some? then prev
      else
        var i := order[|order| - 1];
        match table[i]
        case Failure(e) => Outcome(prev.bodies, Some(e))
        case Success(b) => Outcome(prev.bodies[i := b], None)
  }

  /** The last iteration of pass 1 writes at most the planet it visits. */
  lemma Pass1WritesVisited(law: ForceLaw, bs: seq<Body>, dt: real, order: seq<nat>)
    requires Lawful(law)
    requires AllWellFormed(bs) && IsOrder(order, |bs|) && order != []
    ensures var prefix := order[..|order| - 1];
      IsOrder(prefix, |bs|) &&
      forall i :: 0 <= i < |bs| && i != order[|order| - 1] ==>
        Pass1(law, bs, dt, order).bodies[i] == Pass1(law, bs, dt, prefix).bodies[i]
  {
    assert IsOrder(order[..|order| - 1], |bs|);
  }

  /** Pass 1 never touches a planet it has not visited yet. */
  lemma {:induction false} Pass1LeavesUnvisited(law: ForceLaw, bs: seq<Body>, dt: real, order: seq<nat>)
    requires Lawful(law)
    requires AllWellFormed(bs) && IsOrder(order, |bs|)
    ensures forall i :: 0 <= i < |bs| && i !in order ==> Pass1(law, bs, dt, order).bodies[i] == bs[i]
    decreases |order|
  {
    if order != [] {
      var n := |order|;
      var prefix, x := order[..n - 1], order[n - 1];
      Pass1WritesVisited(law, bs, dt, order);
      Pass1LeavesUnvisited(law, bs, dt, prefix);
      forall i | 0 <= i < |bs| && i !in order
        ensures Pass1(law, bs, dt, order).bodies[i] == bs[i]
      {
        assert order == prefix + [x];
        assert i !in prefix && i != x;
      }
    }
  }

  /**
   * The last iteration of pass 1 computes the same thing against the
   * partially updated list as against the state before the pass.
   */
  lemma Pass1LastStep(law: ForceLaw, bs: seq<Body>, dt: real, order: seq<nat>)
    requires Lawful(law)
    requires AllWellFormed(bs) && IsOrder(order, |bs|) && order != []
    ensures var prefix, x := order[..|order| - 1], order[|order| - 1];
      IsOrder(prefix, |bs|) &&
      var prev := Pass1(law, bs, dt, prefix);
      Pass1(law, bs, dt, order) ==
        if prev.fault.Some? then prev
        else match Accelerate(law, bs, x, dt)
          case Failure(e) => Outcome(prev.bodies, Some(e))
          case Success(b) => Outcome(prev.bodies[x := b], None)
  {
    var n := |order|;
    var prefix, x := order[..n - 1], order[n - 1];
    assert IsOrder(prefix, |bs|);
    Pass1LeavesUnvisited(law, bs, dt, prefix);
    var prev := Pass1(law, bs, dt, prefix);
    assert x !in prefix;
    AccelerateReadsPositions(law, bs, prev.bodies, x, dt);
  }

  /**
   * Lines 110-123: because pass 1 writes only `acc` and `vel`, running it in
   * place, in any order, is the same as computing every planet's update from
   * the state before the pass and then writing them all.
   */
  lemma {:induction false} Pass1IsSnapshot(law: ForceLaw, bs: seq<Body>, dt: real, order: seq<nat>)
    requires Lawful(law)
    requires AllWellFormed(bs) && IsOrder(order, |bs|)
    ensures Pass1(law, bs, dt, order) == Commit(bs, Snapshot(law, bs, dt), order)
    decreases |order|
  {
    if order != [] {
      Pass1LastStep(law, bs, dt, order);
      Pass1IsSnapshot(law, bs, dt, order[..|order| - 1]);
    }
  }

  /** What a commit leaves in one planet: untouched, or its entry of the table. */
  lemma {:induction false} CommitAt(bs: seq<Body>, table: seq<Result<Body, Fault>>, order: seq<nat>, i: nat)
    requires |table| == |bs| && IsOrder(order, |bs|) && i < |bs|
    ensures var o := Commit(bs, table, order);
      (i !in order ==> o.bodies[i] == bs[i]) &&
      (i in order && o.fault.None? ==> table[i].Success? && o.bodies[i] == table[i].value) &&
      (o.bodies[i] == bs[i] || (table[i].Success? && o.bodies[i] == table[i].value))
    decreases |order|
  {
    if order != [] {
      var n := |order|;
      var prefix, x := order[..n - 1], order[n - 1];
      assert IsOrder(prefix, |bs|);
      CommitAt(bs, table, prefix, i);
      assert i in order <==> i in prefix || i == x by {
        assert order == prefix + [x];
      }
      var prev := Commit(bs, table, prefix);
      if prev.fault.None? && table[x].Success? {
        assert Commit(bs, table, order) == Outcome(prev.bodies[x := table[x].value], None);
      } else {
        assert Commit(bs, table, order).bodies == prev.bodies;
      }
    }
  }

  /** A commit fails exactly when the table holds a fault for some planet in the order. */
  lemma {:induction false} CommitFaultIff(bs: seq<Body>, table: seq<Result<Body, Fault>>, order: seq<nat>)
    requires |table| == |bs| && IsOrder(order, |bs|)
    ensures Commit(bs, table, order).fault.None? <==> forall t :: 0 <= t < |order| ==> table[order[t]].Success?
    ensures Commit(bs, table, order).fault.Some? ==>
      exists t :: 0 <= t < |order| && table[order[t]] == Failure(Commit(bs, table, order).fault.value)
    decreases |order|
  {
    if order != [] {
      var n := |order|;
      var prefix := order[..n - 1];
      assert IsOrder(prefix, |bs|);
      CommitFaultIff(bs, table, prefix);
      assert forall t :: 0 <= t < n - 1 ==> order[t] == prefix[t];
      if Commit(bs, table, prefix).fault.Some? {
        var t :| 0 <= t < n - 1 && table[prefix[t]] == Failure(Commit(bs, table, prefix).fault.value);
        assert order[t] == prefix[t];
      }
    }
  }

  /** Committing the same table in two orders of the same planets gives the same result when neither fails. */
  lemma CommitOrderIndependent(bs: seq<Body>, table: seq<Result<Body, Fault>>, order1: seq<nat>, order2: seq<nat>)
    requires |table| == |bs| && IsOrder(order1, |bs|) && IsOrder(order2, |bs|)
    requires forall i :: i in order1 <==> i in order2
    ensures Commit(bs, table, order1).fault.None? <==> Commit(bs, table, order2).fault.None?
    ensures Commit(bs, table, order1).fault.None? ==> Commit(bs, table, order1).bodies == Commit(bs, table, order2).bodies
  {
    CommitFaultIff(bs, table, order1);
    CommitFaultIff(bs, table, order2);
    var o1, o2 := Commit(bs, table, order1), Commit(bs, table, order2);
    if o1.fault.None? {
      forall t | 0 <= t < |order2|
        ensures table[order2[t]].Success?
      {
        assert order2[t] in order1;
        var s :| 0 <= s < |order1| && order1[s] == order2[t];
      }
      forall i | 0 <= i < |bs|
        ensures o1.bodies[i] == o2.bodies[i]
      {
        CommitAt(bs, table, order1, i);
        CommitAt(bs, table, order2, i);
      }
    } else {
      var s :| 0 <= s < |order1| && table[order1[s]].Failure?;
      assert order1[s] in order2;
      var t :| 0 <= t < |order2| && order2[t] == order1[s];
    }
  }

  /** The velocities pass 1 produces do not depend on the order the planets are visited in. */
  lemma OrderIndependent(law: ForceLaw, bs: seq<Body>, dt: real, order1: seq<nat>, order2: seq<nat>)
    requires Lawful(law)
    requires AllWellFormed(bs) && IsOrder(order1, |bs|) && IsOrder(order2, |bs|)
    requires forall i :: i in order1 <==> i in order2
    ensures Pass1(law, bs, dt, order1).fault.None? <==> Pass1(law, bs, dt, order2).fault.None?
    ensures Pass1(law, bs, dt, order1).fault.None? ==>
      Pass1(law, bs, dt, order1).bodies == Pass1(law, bs, dt, order2).bodies
  {
    Pass1IsSnapshot(law, bs, dt, order1);
    Pass1IsSnapshot(law, bs, dt, order2);
    CommitOrderIndependent(bs, Snapshot(law, bs, dt), order1, order2);
  }

  // ---- What one call of update does ----

  /** Every entry of `table` that succeeds is planet `i` with new `acc` and `vel` only. */
  predicate KeepsPositions(bs: seq<Body>, table: seq<Result<Body, Fault>>)
  {
    |table| == |bs| &&
    forall i :: 0 <= i < |bs| && table[i].Success? ==>
      WellFormed(table[i].value) && table[i].value.pos == bs[i].pos && table[i].value.mass == bs[i].mass
  }

  lemma SnapshotKeepsPositions(law: ForceLaw, bs: seq<Body>, dt: real)
    requires Lawful(law)
    requires AllWellFormed(bs)
    ensures KeepsPositions(bs, Snapshot(law, bs, dt))
  {
  }

  /** A commit of such a table, followed by pass 2, seen from planet `i`. */
  lemma {:induction false} FinishAt(bs: seq<Body>, table: seq<Result<Body, Fault>>, dt: real, i: nat)
    requires AllWellFormed(bs) && KeepsPositions(bs, table) && i < |bs|
    ensures AllWellFormed(Commit(bs, table, Indices(|bs|)).bodies)
    ensures var o := Finish(Commit(bs, table, Indices(|bs|)), dt);
      |o.bodies| == |bs| && AllWellFormed(o.bodies) &&
      (o.fault.None? ==> table[i].Success? && o.bodies[i] == Move(table[i].value, dt)) &&
      (o.fault.Some? ==> o.bodies[i] == bs[i] || (table[i].Success? && o.bodies[i] == table[i].value))
  {
    var order := Indices(|bs|);
    assert order[i] == i;
    forall j | 0 <= j < |bs|
      ensures var c := Commit(bs, table, order); WellFormed(c.bodies[j])
    {
      CommitAt(bs, table, order, j);
    }
    CommitAt(bs, table, order, i);
  }

  /** A commit in list order, followed by pass 2, raises exactly when some entry of the table is a fault. */
  lemma FinishFaultIff(bs: seq<Body>, table: seq<Result<Body, Fault>>, dt: real)
    requires AllWellFormed(bs) && KeepsPositions(bs, table)
    ensures AllWellFormed(Commit(bs, table, Indices(|bs|)).bodies)
    ensures Finish(Commit(bs, table, Indices(|bs|)), dt).fault.None? <==>
      forall i :: 0 <= i < |bs| ==> table[i].Success?
    ensures Finish(Commit(bs, table, Indices(|bs|)), dt).fault.Some? ==>
      exists i :: 0 <= i < |bs| && table[i] == Failure(Finish(Commit(bs, table, Indices(|bs|)), dt).fault.value)
  {
    var order := Indices(|bs|);
    if |bs| > 0 {
      FinishAt(bs, table, dt, 0);
    }
    CommitFaultIff(bs, table, order);
    if forall i :: 0 <= i < |bs| ==> table[i].Success? {
      forall t | 0 <= t < |order|
        ensures table[order[t]].Success?
      {
        assert order[t] == t;
      }
    } else {
      var i :| 0 <= i < |bs| && table[i].Failure?;
      assert order[i] == i;
    }
    if Commit(bs, table, order).fault.Some? {
      var t :| 0 <= t < |order| && table[order[t]] == Failure(Commit(bs, table, order).fault.value);
      assert order[t] == t;
    }
  }

  /**
   * Lines 109-129, for planet `i`: if the tick raises nothing, the planet is
   * its pass-1 update against the pre-tick state, then moved by its new
   * velocity. If the tick raises, planet `i` is either untouched or
   * accelerated against the pre-tick state, and in either case not moved.
   */
  lemma TickAt(law: ForceLaw, bs: seq<Body>, dt: real, i: nat)
    requires Lawful(law)
    requires AllWellFormed(bs) && i < |bs|
    ensures var o := Tick(law, bs, dt);
      |o.bodies| == |bs| && AllWellFormed(o.bodies) &&
      (o.fault.None? ==>
        Accelerate(law, bs, i, dt).Success? && o.bodies[i] == Move(Accelerate(law, bs, i, dt).value, dt)) &&
      (o.fault.Some? ==>
        o.bodies[i] == bs[i] ||
        (Accelerate(law, bs, i, dt).Success? && o.bodies[i] == Accelerate(law, bs, i, dt).value))
  {
    Pass1IsSnapshot(law, bs, dt, Indices(|bs|));
    SnapshotKeepsPositions(law, bs, dt);
    FinishAt(bs, Snapshot(law, bs, dt), dt, i);
  }

  /**
   * `c` is `b` after one semi-implicit Euler step under the net force `net`:
   * acceleration is the force over the mass, velocity the old one plus `dt`
   * times it, position the old one plus `dt` times the NEW velocity; the
   * mass is kept.
   */
  ghost predicate EulerStep(b: Body, net: Result<seq<real>, Fault>, dt: real, c: Body)
    requires WellFormed(b) && WellFormed(c)
  {
    net.Success? && |net.value| == 3 && b.mass != 0.0 && c.mass == b.mass &&
    forall k :: 0 <= k < 3 ==>
      c.acc[k] == net.value[k] / b.mass &&
      c.vel[k] == b.vel[k] + dt * c.acc[k] &&
      c.pos[k] == b.pos[k] + dt * c.vel[k]
  }

  /** Lines 115-121 then 128-129 for one planet: its pass-1 update followed by its pass-2 move is an Euler step. */
  lemma KickDrift(b: Body, net: Result<seq<real>, Fault>, dt: real)
    requires WellFormed(b) && (net.Success? ==> |net.value| == 3)
    requires ApplyForce(b, net, dt).Success?
    ensures EulerStep(b, net, dt, Move(ApplyForce(b, net, dt).value, dt))
  {
  }

  /**
   * Lines 109-129 as formulas: in a tick that raises nothing, every planet
   * takes an Euler step under the net force computed from the pre-tick
   * positions.
   */
  lemma TickFormula(law: ForceLaw, bs: seq<Body>, dt: real, i: nat)
    requires Lawful(law)
    requires AllWellFormed(bs) && i < |bs|
    requires Tick(law, bs, dt).fault.None?
    ensures |Tick(law, bs, dt).bodies| == |bs| && AllWellFormed(Tick(law, bs, dt).bodies)
    ensures EulerStep(bs[i], NetForce(law, bs, i), dt, Tick(law, bs, dt).bodies[i])
  {
    TickAt(law, bs, dt, i);
    var net := NetForce(law, bs, i);
    assert Accelerate(law, bs, i, dt) == ApplyForce(bs[i], net, dt);
    KickDrift(bs[i], net, dt);
  }

  /** A tick raises exactly when some planet has zero mass or some net force cannot be computed. */
  lemma TickFaultIff(law: ForceLaw, bs: seq<Body>, dt: real)
    requires Lawful(law)
    requires AllWellFormed(bs)
    ensures Tick(law, bs, dt).fault.None? <==>
      forall i :: 0 <= i < |bs| ==> bs[i].mass != 0.0 && NetForce(law, bs, i).Success?
  {
    Pass1IsSnapshot(law, bs, dt, Indices(|bs|));
    FinishFaultIff(bs, Snapshot(law, bs, dt), dt);
  }

  /** Line 115 raises ZeroDivisionError for a zero mass, and with a true square root line 75 is the only other place that raises. */
  lemma TickFaultIffSqrt(lib: Libm, bs: seq<Body>, dt: real)
    requires IsSqrt(lib.sqrt)
    requires AllWellFormed(bs)
    ensures Tick(Gravitation(lib), bs, dt).fault.None? <==>
      forall i, j :: 0 <= i < |bs| && 0 <= j < |bs| ==>
        bs[i].mass != 0.0 && (j != i ==> bs[i].pos[0] - bs[j].pos[0] != -OFFSET)
    ensures Tick(Gravitation(lib), bs, dt).fault.Some? ==> Tick(Gravitation(lib), bs, dt).fault == Some(ZeroDivision)
  {
    var law := Gravitation(lib);
    var table := Snapshot(law, bs, dt);
    Pass1IsSnapshot(law, bs, dt, Indices(|bs|));
    FinishFaultIff(bs, table, dt);
    forall i | 0 <= i < |bs|
      ensures table[i].Success? <==>
        bs[i].mass != 0.0 && forall j :: 0 <= j < |bs| && j != i ==> bs[i].pos[0] - bs[j].pos[0] != -OFFSET
      ensures table[i].Failure? ==> table[i].error == ZeroDivision
    {
      AccelerateFaultIff(lib, bs, i, dt);
    }
  }

  /**
   * Lines 109-129: a tick keeps the number of planets, their order and
   * their masses, and one that raises moves no planet.
   */
  lemma TickKeeps(law: ForceLaw, bs: seq<Body>, dt: real)
    requires Lawful(law)
    requires AllWellFormed(bs)
    ensures var o := Tick(law, bs, dt);
      |o.bodies| == |bs| &&
      (forall i :: 0 <= i < |bs| ==> o.bodies[i].mass == bs[i].mass) &&
      (o.fault.Some? ==> forall i :: 0 <= i < |bs| ==> o.bodies[i].pos == bs[i].pos)
  {
    forall i | 0 <= i < |bs|
      ensures Tick(law, bs, dt).bodies[i].mass == bs[i].mass
      ensures Tick(law, bs, dt).fault.Some? ==> Tick(law, bs, dt).bodies[i].pos == bs[i].pos
    {
      TickAt(law, bs, dt, i);
    }
  }

  /** With `dt == 0`, a tick that raises nothing leaves every position and velocity as it was. */
  lemma TickZeroStep(law: ForceLaw, bs: seq<Body>)
    requires Lawful(law)
    requires AllWellFormed(bs)
    requires Tick(law, bs, 0.0).fault.None?
    ensures var o := Tick(law, bs, 0.0);
      |o.bodies| == |bs| &&
      forall i :: 0 <= i < |bs| ==> o.bodies[i].pos == bs[i].pos && o.bodies[i].vel == bs[i].vel
  {
    forall i | 0 <= i < |bs|
      ensures Tick(law, bs, 0.0).bodies[i].pos == bs[i].pos && Tick(law, bs, 0.0).bodies[i].vel == bs[i].vel
    {
      TickFormula(law, bs, 0.0, i);
      EulerStepZero(bs[i], NetForce(law, bs, i), Tick(law, bs, 0.0).bodies[i]);
    }
  }

  lemma EulerStepZero(b: Body, net: Result<seq<real>, Fault>, c: Body)
    requires WellFormed(b) && WellFormed(c) && EulerStep(b, net, 0.0, c)
    ensures c.pos == b.pos && c.vel == b.vel
  {
    assert c.vel == b.vel by {
      forall k | 0 <= k < 3 ensures c.vel[k] == b.vel[k] {}
    }
    assert c.pos == b.pos by {
      forall k | 0 <= k < 3 ensures c.pos[k] == b.pos[k] {}
    }
  }
}
