# ThreeBodyProblem physics core in Dafny

This project models the physics of `simulation.py`, the mutual gravitation
of a small list of planets. It also proves what each step of the
simulation does.

- **Planets.** A `Planet` holds a position, a velocity and an acceleration,
  each a 3-vector, and a mass. The three vectors have property setters.
  The model keeps the `Planet` as a Dafny class
  (`Simulation.Planet`). The class's fields are also available as a value,
  `Gravity.Body`.
- **Force.** `gravitational_force` works out the separation
  (`calculate_distance_vector`) and its length (`vector_magnitude`). The
  magnitude is `G m1 m2 / |d|^2`, or zero when the planets coincide. That
  magnitude is split along two angles, theta `atan(dy / (dx + 1e-9))` and
  phi `asin(dz / (|d| + 1e-9))`. Each component is then turned to point
  toward the other planet. The force is zero when the planets are closer
  than 5. This is `Gravity.Force`.
- **Time step.** `update(planets, dt)` makes two passes over the list.
  - Pass 1 visits the planets in list order. Each planet sums the forces
    from every other planet. It then gets `acc = F / m` and
    `vel = vel + dt * acc`. Later planets see the planets visited earlier
    with their new velocities, but positions do not change in pass 1.
  - Pass 2 moves every planet: `pos = pos + dt * vel`, with the velocity
    just computed.

  The value model is in `Integrator` (`Pass1`, `Pass2`, `Tick`). The
  in-place model is in `Simulation` (`AccelerateAll`, `MoveAll`, `Update`).
  Each method is proved to leave the planets in exactly the state the value
  model computes.

The math library is a parameter, `Numerics.Libm`: the square root (`** 0.5`),
atan, asin, sin and cos. Lemmas that need a true square root require
`IsSqrt(lib.sqrt)`. Nothing is assumed about the trigonometric functions.

Python's exceptions become values of type `Numerics.Fault`:

- `ZeroDivision` when `dx + 1e-9` is zero at line 75.
- `ZeroDivision` when `|d| + 1e-9` is zero at line 82. This cannot happen
  with a true square root.
- `ZeroDivision` when a planet's mass is zero at line 115.
- `MathDomain` when the argument of `asin` falls outside [-1, 1]. This is
  proved impossible with a true square root.

When an exception interrupts `update`, the planets are left as Python
leaves them. The planets visited earlier are already accelerated, and no
position has moved.

The passes are stated for any force law (`Integrator.ForceLaw`) that is
defined on three-dimensional bodies, returns three-dimensional forces, and
depends only on the two planets' positions and masses (`Integrator.Lawful`).
`Integrator.Gravitation(lib)` is `gravitational_force` as such a law.

The code departs from the textbook scheme in several ways, and the model
follows the code:

- The force is not the inverse-square force `G m1 m2 / |d|^2` along the
  unit vector. It is built from the two angles, with a per-axis sign
  fix-up.
- Masses are not validated. A zero mass raises ZeroDivisionError in
  `update`.
- A step can raise. This happens when the x separation is exactly `-1e-9`,
  or when a mass is zero.
- The integrator is not explicit Euler. Pass 2 moves each planet with its
  NEW velocity, which makes it semi-implicit Euler.
- `G` is `6.674 * 10e-11` as written, which is `6.674e-10`.

## Model

| member | source | states |
|---|---|---|
| Vectors.DistanceVector | simulation.py:69-70 | the separation has the length of `self.pos` and component k equal to `self.pos[k] - other.pos[k]` |
| Vectors.Magnitude | simulation.py:132-133 | the square root of the sum of squares; with a true square root it is non-negative and its square is the sum of squares |
| Vectors.SumSquares | simulation.py:133 | the sum of squares is non-negative, and zero exactly when every component is zero |
| Vectors.MagnitudeBounds | simulation.py:132-133 | with a true square root the magnitude is non-negative, zero exactly for the zero vector, and at least the absolute value of every component |
| Vectors.MagnitudeBelow | simulation.py:132-133 | comparing the magnitude with a bound `c >= 0` is the same as comparing the sum of squares with `c * c` |
| Vectors.SeparationSymmetric | simulation.py:69-70 | the squared separation of two points is the same whichever one is `self` |
| Gravity.Toward | simulation.py:89-100 | the fix-up keeps each component's size, makes it non-positive when `other` lies below `self` on that axis and non-negative when above, and leaves it alone when they are level |
| Gravity.GravityMagnitude | simulation.py:77-80 | zero when the planets coincide, otherwise the inverse-square size: times `|d|^2` it gives `G m1 m2` |
| Gravity.AngleComponents | simulation.py:75-86 | the angle decomposition fails exactly when `dx + 1e-9` is zero, when `|d| + 1e-9` is zero, or when the asin argument is outside [-1, 1]; otherwise it gives three components |
| Gravity.Force | simulation.py:73-106 | a computed force has three components, each pointing toward `other`; it is `[0, 0, 0]` when the separation is below 5; a failure comes from one of the two zero denominators or from asin's domain |
| Gravity.ForceFaultIff | simulation.py:75-82 | with a true square root, the force fails exactly when `self.x - other.x == -1e-9`, and then with ZeroDivision |
| Gravity.ZeroSeparation | simulation.py:77-78 | coincident planets exert exactly zero force on each other, with no exception |
| Gravity.CollisionCutoff | simulation.py:103-104 | when the squared separation is below 25, the force is `[0, 0, 0]`, or ZeroDivision exactly when `self.x - other.x == -1e-9` |
| Gravity.MutualCutoff | simulation.py:103-104 | contact is mutual: inside the cutoff, each planet of the pair feels zero force or raises ZeroDivision |
| Integrator.Gravitation | simulation.py:73-106 | `gravitational_force` is a lawful force law that agrees with `Gravity.Force` on every pair of three-dimensional planets |
| Integrator.Plus | simulation.py:114 | the componentwise sum of two vectors of the same length, `list(map(sum, zip(u, v)))` |
| Integrator.PairForces | simulation.py:112-114 | the force on planet `i` from each planet `j != i` is the law applied to the pair |
| Integrator.SumForces | simulation.py:111-114 | the inner loop returns the forces from the other planets added in list order, starting from `[0, 0, 0]`, or the first exception |
| Integrator.NetForce | simulation.py:111-114 | the forces on planet `i` from every other planet added in list order, starting from `[0, 0, 0]`, or the first exception; a computed net force has three components |
| Integrator.NetForceFaultIff | simulation.py:111-114 | the net force on `i` is computed exactly when every pairwise force from another planet is; a failure is the failure of some such pair |
| Integrator.ApplyForce | simulation.py:115-121 | the new acceleration and velocity are computed exactly when the net force is and the mass is non-zero; position and mass are kept; a failure is ZeroDivision or the net force's own failure |
| Integrator.Accelerate | simulation.py:111-121 | planet `i` gets its new acceleration and velocity exactly when its net force is computed and its mass is non-zero; position and mass are kept |
| Integrator.AccelerateFaultIff | simulation.py:75-121 | with a true square root, planet `i` is accelerated exactly when its mass is non-zero and no other planet is at x separation `-1e-9` from it; any failure is ZeroDivision |
| Integrator.Visit | simulation.py:111-121 | one outer iteration changes at most planet `i`, and keeps every position and mass |
| Integrator.Pass1 | simulation.py:110-121 | pass 1 keeps the number of planets, every position and every mass |
| Integrator.Pass1Advance | simulation.py:110-121 | an iteration that raises ends pass 1 with that state and exception; one that does not gives the state after `i + 1` iterations |
| Integrator.Pass1IsSnapshot | simulation.py:110-123 | pass 1 in any visiting order gives what each planet would get from the original positions, committed in that order up to the first exception, because no force reads a velocity |
| Integrator.Pass1LeavesUnvisited | simulation.py:110-121 | the planets pass 1 has not visited are unchanged |
| Integrator.CommitFaultIff | simulation.py:110-121 | the committed pass raises exactly when some visited planet's step fails, and the exception is that planet's |
| Integrator.OrderIndependent | simulation.py:110-123 | visiting the planets in any other order raises under the same conditions, and when nothing is raised it leaves the same state |
| Integrator.Move | simulation.py:124-129 | a planet moves by `dt` times its velocity, and nothing else about it changes |
| Integrator.Pass2 | simulation.py:124-129 | pass 2 moves every planet and keeps the list's length |
| Integrator.Finish | simulation.py:123-129 | after pass 1, stop with pass 1's state if it raised, otherwise move every planet and raise nothing; the fault and the number of planets are pass 1's |
| Integrator.Tick | simulation.py:109-129 | pass 1 in list order, then pass 2 only if pass 1 raised nothing; the number of planets is kept and the fault is pass 1's |
| Integrator.FinishFaultIff | simulation.py:109-129 | a committed pass followed by pass 2 raises exactly when some planet's step fails, and the exception is that planet's |
| Integrator.TickAt | simulation.py:109-129 | after a step that raises nothing, each planet is its own accelerated state, moved; after one that raises, each planet is either unchanged or only accelerated |
| Integrator.TickFormula | simulation.py:109-129 | after a step that raises nothing, every planet satisfies `acc = F / m`, `vel' = vel + dt * acc` and `pos' = pos + dt * vel'`, where F is its net force against the original positions |
| Integrator.TickFaultIff | simulation.py:109-129 | `update` raises exactly when some planet has zero mass or a failed net force |
| Integrator.TickFaultIffSqrt | simulation.py:75-129 | with a true square root, `update` raises exactly when some mass is zero or two planets are at x separation `-1e-9`, and the exception is always ZeroDivision |
| Integrator.TickKeeps | simulation.py:109-129 | `update` keeps the number of planets and their masses, and when it raises it has moved no planet |
| Integrator.TickZeroStep | simulation.py:109-129 | a step with `dt = 0` that raises nothing leaves every position and velocity unchanged |
| Integrator.EulerStepZero | simulation.py:117-129 | with `dt = 0` the Euler update keeps position and velocity |
| Simulation.Planet.constructor | simulation.py:13-17 | a new planet has the given position, velocity and mass, and acceleration `[0, 0, 0]` |
| Simulation.Planet.SetPos | simulation.py:31-33 | the `pos` setter replaces the position and leaves velocity and acceleration alone |
| Simulation.Planet.SetVel | simulation.py:49-51 | the `vel` setter replaces the velocity and leaves position and acceleration alone |
| Simulation.Planet.SetAcc | simulation.py:59-61 | the `acc` setter replaces the acceleration and leaves position and velocity alone |
| Simulation.States | simulation.py:109-110 | the list's planets as values, in list order |
| Simulation.NetForceOn | simulation.py:111-114 | the inner loop over the live planets gives the net force of the value model |
| Simulation.Kick | simulation.py:115-121 | the setters leave the planet in the state `ApplyForce` computes |
| Simulation.Drift | simulation.py:125-129 | the `pos` setter leaves the planet moved as `Move` computes |
| Simulation.AccelerateOne | simulation.py:111-121 | one outer iteration, in place, changes the planets as `Visit` does and returns its exception |
| Simulation.AccelerateAll | simulation.py:110-121 | the first loop, in place, leaves the planets in pass 1's state and returns its exception |
| Simulation.MoveAll | simulation.py:124-129 | the second loop, in place, leaves the planets as pass 2 computes |
| Simulation.Update | simulation.py:109-129 | `update` leaves the planets in the state `Tick` computes for `gravitational_force`, and returns the exception `Tick` predicts |

## Left out

- Drawing is not modelled. This covers the turtle, its moves in the
  constructor and the `pos` setter, the colour from the z coordinate and
  the canvas (simulation.py:18-23, 34-41, main). Apart from the overflow
  below, drawing does not change the planets' state.
- Simulation.Drift and Simulation.MoveAll: the OverflowError that the `pos` setter's colour
  computation raises is not modelled. `math.exp(-STRETCH * z)` at
  simulation.py:36 overflows once z is below about -70978. The position is
  already stored at that point (line 33), so pass 2 would end with this
  planet moved and every later planet left where it was. Like the rest of
  floating-point behaviour, this is left out.
- The `Thread`, the endless `run` loop with its fixed `dt = 0.01`
  (simulation.py:136-139) and `main` are not modelled. A single call of
  `update` is modelled instead, with `dt` as a parameter.
- Floating-point rounding is not modelled. Arithmetic is on exact reals.
  `sqrt`, `atan`, `asin`, `sin` and `cos` are parameters. Only the
  square-root lemmas assume anything about them, and they assume only
  `IsSqrt`.
- Simulation.Update, Simulation.AccelerateAll and Simulation.MoveAll:
  these require every planet object in the list to be distinct. They do not
  model a list that holds the same `Planet` twice (aliasing).
- Simulation.Update and Integrator.Tick: these require every position,
  velocity and acceleration to have exactly three components. Other
  lengths of `pos` and `vel` behave differently in Python:
  - A `pos` or `vel` shorter than three raises IndexError.
  - A longer `self.pos` enters the distance vector and the magnitude
    (simulation.py:70, 133). It then changes `grav_mag`, `phi` and the
    cutoff test (lines 77-82, 103).
  - The new `vel` and `pos` are rebuilt with three components (lines
    117-121, 125-129), so extra components are dropped.

  The length of `acc` never affects Python. `update` replaces `acc` at
  line 115 before lines 118-120 read it, and neither pass 2 nor
  `gravitational_force` reads it. The constructor (line 16) and line 115
  both give `acc` three components. The model requires three `acc`
  components only so that a single well-formedness predicate covers all
  three vectors.
- Vectors.DistanceVector requires `other` to be at least as long as `self`.
  Python raises IndexError otherwise.
- Simulation.NetForceOn: the pairwise forces on planet `i` are computed from
  the planets' current values before the loop adds them. The source computes
  each force inside the loop. The two agree, because a force depends only on
  values that the inner loop does not change.
- Newton's third law is not proved. The angle construction with its per-axis
  sign fix-up does not give exactly opposite forces in general. Only the
  shared cutoff is proved (Gravity.MutualCutoff).
- Energy and momentum conservation are not modelled. The integrator does not
  conserve them exactly, and no such property is claimed.
- Mass is a read-only field with no setter, as in the source. Masses are not
  validated and are not persisted.
