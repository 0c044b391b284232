# Force and torque integrators

A model, in Dafny, of the two Newtonian integrators of the `kinetics` crate. A `Force`
is a `DIM`-component vector applied to the *spatial* derivative chain of a body; a `Torque`
is the same kind of vector applied to the body's *angular* chain. Both follow one rule:
per axis the acceleration is `a[i] = F[i] / mass`. Then:

- `apply_1st_ord` is for a body that tracks position and velocity (order 1). It takes one
  explicit Euler step, `velocity[i] += a[i] * time_step`.
- `apply_2nd_ord` is for a body that also tracks acceleration (order 2). It overwrites the stored
  acceleration with `a` and takes no time step.

Files:

- `vectors.dfy` (module `Vectors`): the component-wise vector operations the integrators use.
  The vector type belongs to the external linear-algebra crate; it is modelled as `seq<real>`.
- `kinematics.dfy` (module `Kinematics`): the external body. `Body` is a class with a mass and
  one `(ord + 1) x dim` matrix (`array2<real>`) per chain. Row `k` of a matrix is the order-`k`
  vector (0 position, 1 velocity, 2 acceleration). `Body.State()` is its abstract value, a
  `BodyState`.
- `integration.dfy` (module `Integration`): the shared rule, written once and parameterised by
  the chain. It holds the specification functions `FirstOrder` and `SecondOrder`, the lemmas
  about them, and the in-place methods `ApplyFirstOrder` and `ApplySecondOrder`. Each method
  loops over the axes and is proved to leave the body in the state the function gives.
- `force.dfy` (module `Forces`) and `torque.dfy` (module `Torques`): the two wrappers.
  Each has its constructor, `From`/`Deref`, `Default`, the named-axis accessors (`x/y/z`,
  `u/v/w`), the two entry points, and the lemmas on them.

Modelling decisions:

- The scalar type `T` is `real`.
- `DIM` is the length of the wrapped vector. The orders 1 and 2 that the Rust signatures fix
  (`Body<T, DIM, 1>`, `Body<T, DIM, 2>`) become `requires body.ord == 1` and
  `requires body.ord == 2`.
- The compile-time guards `DIM >= 1/2/3` on the named axes become `requires` clauses on the
  vector length.
- The source divides by `*body.mass()` without a check; the body is assumed to keep its mass
  positive. That assumption is part of `Body.Valid()` (`mass > 0`).
- For a torque, `mass` stands for the rotational inertia, as it does in the source.

The crate's design calls `DIM >= 1` an invariant of a force or torque, but the code does not
enforce it in `new`, `from` or `default`. The model follows the code: it accepts any length
there and asks for `DIM >= 1` only in the accessors.

## Model

| member | source | states |
|---|---|---|
| `Integration.Acceleration` | rust/src/force.rs:34 | the acceleration `a` satisfies Newton's second law per axis, `mass * a[i] == F[i]` (the same line is rust/src/torque.rs:34) |
| `Integration.FirstOrder` | rust/src/force.rs:34-35 | the order-1 rule: for each axis `i`, the new velocity of the chosen chain is the old one plus `(F[i] / mass) * timeStep`; position, the other chain, the shape and the mass are unchanged (also rust/src/torque.rs:34-35) |
| `Integration.SecondOrder` | rust/src/force.rs:42-43 | the order-2 rule: for each axis the stored acceleration `a` of the chosen chain satisfies `mass * a[i] == F[i]`; position, velocity, the other chain and the mass are unchanged (also rust/src/torque.rs:42-43) |
| `Integration.RepeatFirstOrder` | rust/src/force.rs:35 | `n` successive order-1 steps keep the body's shape and mass |
| `Integration.FirstOrderAxesIndependent` | rust/src/force.rs:34-35 | no cross-axis coupling: two vectors that agree on axis `i` give the same new velocity on axis `i` |
| `Integration.FirstOrderZero` | rust/src/force.rs:34-35 | additive identity: a zero vector leaves the whole body state unchanged |
| `Integration.FirstOrderSuperposition` | rust/src/force.rs:35 | applying `f` and then `g` with the same step equals applying `f + g` once |
| `Integration.FirstOrderChainsCommute` | rust/src/torque.rs:35 | a force on the spatial chain and a torque on the angular chain commute |
| `Integration.RepeatFirstOrderAxis` | rust/src/force.rs:35 | after `n` steps, the velocity on axis `i` is the old velocity plus `n` increments of `(F[i] / mass) * timeStep` |
| `Integration.RepeatFirstOrderFrame` | rust/src/force.rs:35 | `n` order-1 steps change neither the position nor the other chain |
| `Integration.RepeatFirstOrderVelocity` | rust/src/force.rs:35 | linear accumulation: after `n` steps the velocity on each axis has grown by `n * ((F[i] / mass) * timeStep)`; position and the other chain are untouched |
| `Integration.RepeatFirstOrderFromRest` | rust/src/force.rs:35 | starting from zero velocity, `n` steps give velocity `n * ((F[i] / mass) * timeStep)` on each axis |
| `Integration.SecondOrderOverwrites` | rust/src/force.rs:43 | overwrite, not accumulation: applying `g` after `f` equals applying `g` alone |
| `Integration.SecondOrderIdempotent` | rust/src/force.rs:42-43 | applying the order-2 rule twice with the same vector equals applying it once |
| `Integration.SecondOrderAxesIndependent` | rust/src/force.rs:42-43 | no cross-axis coupling: the new acceleration on axis `i` depends only on `F[i]` |
| `Integration.ApplyFirstOrder` | rust/src/force.rs:30-36 | the in-place update of the chosen chain's velocity matrix row leaves the body in exactly the state `FirstOrder` gives; only that chain's storage is modified |
| `Integration.ApplySecondOrder` | rust/src/force.rs:38-44 | the in-place overwrite of the chosen chain's acceleration row leaves the body in exactly the state `SecondOrder` gives; only that chain's storage is modified |
| `Forces.Force.New` | rust/src/force.rs:22-24 | the force built from `components` dereferences to exactly those components, in order, with the same length |
| `Forces.Force.From` | rust/src/force.rs:78-85 | wrapping a vector stores that vector unchanged |
| `Forces.Force.Deref` | rust/src/force.rs:58-67 | the dereferenced vector, wrapped again, gives back the same force |
| `Forces.Force.Default` | rust/src/force.rs:13 | the default force of dimension `dim` has `dim` components, all zero |
| `Forces.Force.X` | rust/src/force.rs:26 | requires `DIM >= 1`; reads component 0 of the dereferenced vector |
| `Forces.Force.Y` | rust/src/force.rs:27 | requires `DIM >= 2`; reads component 1 of the dereferenced vector |
| `Forces.Force.Z` | rust/src/force.rs:28 | requires `DIM >= 3`; reads component 2 of the dereferenced vector |
| `Forces.Force.ApplyFirstOrder` | rust/src/force.rs:30-36 | on an order-1 body of the same dimension, performs the order-1 rule on the spatial chain; only the spatial storage is modified |
| `Forces.Force.ApplySecondOrder` | rust/src/force.rs:38-44 | on an order-2 body of the same dimension, performs the order-2 rule on the spatial chain; only the spatial storage is modified |
| `Forces.FromDerefRoundTrip` | rust/src/force.rs:58-85 | `From` and `Deref` are mutually inverse |
| `Forces.NewAxes` | rust/src/force.rs:22-28 | `x`, `y` and `z` of `new(arr)` are `arr[0]`, `arr[1]` and `arr[2]` whenever the dimension allows them |
| `Forces.DefaultAxes` | rust/src/force.rs:97-99 | every named axis of a default force reads zero |
| `Forces.DefaultFirstOrderIsIdentity` | rust/src/force.rs:34-35 | a default force applied to an order-1 body changes nothing |
| `Forces.OneDimensionalScenario` | rust/src/force.rs:34-35 | a 1-D force of 10 on a body of mass 2 at rest, with step 0.5, gives velocity 2.5 |
| `Torques.Torque.New` | rust/src/torque.rs:22-24 | the torque built from `components` dereferences to exactly those components, in order, with the same length |
| `Torques.Torque.From` | rust/src/torque.rs:78-85 | wrapping a vector stores that vector unchanged |
| `Torques.Torque.Deref` | rust/src/torque.rs:58-67 | the dereferenced vector, wrapped again, gives back the same torque |
| `Torques.Torque.Default` | rust/src/torque.rs:13 | the default torque of dimension `dim` has `dim` components, all zero |
| `Torques.Torque.U` | rust/src/torque.rs:26 | requires `DIM >= 1`; reads component 0 of the dereferenced vector |
| `Torques.Torque.V` | rust/src/torque.rs:27 | requires `DIM >= 2`; reads component 1 of the dereferenced vector |
| `Torques.Torque.W` | rust/src/torque.rs:28 | requires `DIM >= 3`; reads component 2 of the dereferenced vector |
| `Torques.Torque.ApplyFirstOrder` | rust/src/torque.rs:30-36 | on an order-1 body of the same dimension, performs the order-1 rule on the angular chain; only the angular storage is modified |
| `Torques.Torque.ApplySecondOrder` | rust/src/torque.rs:38-44 | on an order-2 body of the same dimension, performs the order-2 rule on the angular chain; only the angular storage is modified |
| `Torques.FromDerefRoundTrip` | rust/src/torque.rs:58-85 | `From` and `Deref` are mutually inverse |
| `Torques.NewAxes` | rust/src/torque.rs:22-28 | `u`, `v` and `w` of `new(arr)` are `arr[0]`, `arr[1]` and `arr[2]` whenever the dimension allows them |
| `Torques.DefaultAxes` | rust/src/torque.rs:97-99 | every named axis of a default torque reads zero |
| `Torques.DefaultFirstOrderIsIdentity` | rust/src/torque.rs:34-35 | a default torque applied to an order-1 body changes nothing |
| `Torques.ThreeDimensionalScenario` | rust/src/torque.rs:42-43 | a 3-D torque (0, 0, 6) on an order-2 body of inertia 3 at rest sets angular acceleration (0, 0, 2) and leaves angular velocity zero |

## Left out

- The generic `apply<ORD>` for `ORD >= 3` (rust/src/force.rs:46-55, rust/src/torque.rs:46-55).
  It computes `F / mass` and hands the rest to `Body::update_spatial_acceleration` or
  `update_angular_acceleration` of the external kinematics crate. That crate is not part of
  this model, so the cascade it performs would be invented behaviour.
- `DerefMut` (rust/src/force.rs:69-76, rust/src/torque.rs:69-76). It only hands out the inner
  vector for mutation; the vector's own mutation belongs to the external linear-algebra crate.
- IEEE floating point. `T` is generic, and the tests use `f32`. The model uses exact reals, so
  rounding, overflow, NaN and infinity are not captured.
- The external crates' own behaviour. Of the linear-algebra `Vector`, only component-wise `/`,
  `*` and `+` are modelled. The kinematics `Body` is reduced to a mass and the two chain
  matrices; `Body`'s constructor sets every derivative to zero.
- The derived `Clone`, `Debug` and `PartialEq` implementations, the unused `core::time` import,
  and the type aliases `Force1D` to `Force4D` and `Torque1D` to `Torque4D`. A dimension is only
  the length of the vector here.
- The compile-time `Assert`/`IsTrue` machinery itself. It appears only as `requires` clauses.
