# Aquarium-rs in Dafny

A model of the simulation core of Aquarium-rs, a small SDL aquarium in which prey fish
graze on plants and flee predators, and predators hunt prey. The model covers four parts.

- **The vector kernel** (`vectors.dfy`, module `Vectors`). `Vector2` is a value type with
  component-wise `+` and `-`, scaling, the dot product, negation, `length_sqr`, `length`,
  `norm`, and the `%` operator. Despite its name, `%` clamps the length to a limit.
- **The body** (`bodies.dfy`, module `Bodies`). A `Body` class holds health, mass, position,
  velocity and a cached unit velocity. `grow` and `shrink` change the mass in place.
- **Fish steering** (`fishes.dfy`, module `Fishes`). A fish is in one of four behaviours:
  WANDERING, SEEKING, ARRIVING or FLEEING. All behaviours go through one `steer` primitive,
  which has four parts:
  - a dead zone;
  - a ±0.6 ramp of the current speed towards a target speed;
  - a velocity increment clamped twice;
  - an explicit-Euler position update.

  Each behaviour is specified as a function on a `FishState` snapshot (`Steered`,
  `Wandered`, `Sought`, `Arrived`, `Fled`, `Pursued`, `Evaded`). The `Fish` class updates
  its own fields and its body's fields in place. Each of its methods is proved to leave
  `State()` equal to the matching function of the old state.
- **The aquarium frame** (`aquarium.dfy`, module `Aquariums`). It covers:
  - the nearest-target scan `check_proximity`, specified by the recursive `Winner` and
    characterised as "the first index of the least value in (0, `f64::MAX`)";
  - the three population passes, which walk from the last index to the first;
  - the screen pan driven by the four arrow keys;
  - the tick counter that switches plant growth on once every 121 frames.

`f64` is modelled as `real`. Dafny has no real square root, so every member that needs a
length takes the root as a parameter `sqrt` and requires `IsSqrt(sqrt)`: the root is
non-negative and squares back to its argument. Where the f64 code would divide by zero
and produce NaN, a `...Defined` predicate usually excludes the case. Examples are
normalising a zero vector, `1.0 / mass` at mass 0, and a clamp of the zero vector to a
negative limit. There is one deliberate exception: steering uses the corrected clamp (see
Findings), which maps the zero vector to itself at limit 0, where the f64 `%` as written
computes NaN. Random vectors (`Vector2::random_in_radius`) become
parameters: the initial velocity of a body and the wander jitter of each fish.

`velocity_norm` is set when a body is created and never again. The code that would
refresh it in `steer` is commented out, and the model keeps it stale as well.

## Model

| member | source | states |
|---|---|---|
| `Vectors.Add` | src/vectors.rs:62-64 | taking either summand away from `a + b` leaves the other |
| `Vectors.Sub` | src/vectors.rs:74-87 | `a - b` (on values and on references) is the zero vector exactly when `a == b` |
| `Vectors.Scale` | src/vectors.rs:101-103 | `v * 1.0 == v`; the length and squared length laws are `LengthScale` and `LengthSqrScale` |
| `Vectors.Dot` | src/vectors.rs:41-43 | a vector dotted with itself is its squared length, and anything dotted with the zero vector is 0 |
| `Vectors.LengthSqr` | src/vectors.rs:33-35 | the squared length is never negative |
| `Vectors.NonZeroIff` | src/vectors.rs:33-35 | the squared length is positive exactly when the vector is not the zero vector |
| `Vectors.Length` | src/vectors.rs:37-39 | the length is non-negative, its square is `length_sqr`, and it is positive for a non-zero vector |
| `Vectors.DotSymmetric` | src/vectors.rs:41-43 | `a.dot(b) == b.dot(a)` |
| `Vectors.Product` | src/vectors.rs:90-96 | `v * w` between two vectors is their dot product, taken in either order |
| `Vectors.Norm` | src/vectors.rs:45-48 | `norm` needs a non-zero vector and yields a vector of length 1 pointing the same way (a positive multiple of the input) |
| `Vectors.DotNorm` | src/vectors.rs:41-48 | the dot product of the two normalised vectors, times both lengths, is the dot product of the originals |
| `Vectors.SubAddCancel` | src/vectors.rs:59-80 | `(a - b) + b == a` for the component-wise `+` and `-` |
| `Vectors.AddAssign` | src/vectors.rs:67-72 | updating `x` and then `y` in place leaves `a` equal to `a + b` |
| `Vectors.LengthScale` | src/vectors.rs:98-104 | scaling by `k` multiplies the length by `abs(k)` |
| `Vectors.LengthSqrScale` | src/vectors.rs:98-104 | scaling by `k` multiplies the squared length by `k*k` |
| `Vectors.Clamp` | src/vectors.rs:109-116 | the corrected `%` (see Findings): for a non-negative limit the result is never longer than the limit |
| `Vectors.ClampAsWritten` | src/vectors.rs:109-116 | `%` with its strict `<`, defined unless a zero vector meets a non-positive limit; wherever it is defined it equals the corrected clamp |
| `Vectors.ClampTwiceAtZeroAsWritten` | src/vectors.rs:109-116 | as written, `(1, 0) % 0.0` is the zero vector, and applying `% 0.0` again divides zero by zero |
| `Vectors.ClampToZero` | src/vectors.rs:109-116 | as written, a non-zero vector clamped to 0 becomes the zero vector |
| `Vectors.ClampShort` | src/vectors.rs:110-113 | a vector no longer than the limit is returned unchanged |
| `Vectors.ClampLong` | src/vectors.rs:110-115 | a non-zero vector at least as long as a non-negative limit becomes a non-negative multiple of itself with length exactly the limit |
| `Vectors.ClampIdempotent` | src/vectors.rs:109-116 | for every limit >= 0, `(v % r) % r == v % r` |
| `Vectors.ClampNeg` | src/vectors.rs:109-136 | clamping commutes with negation |
| `Vectors.RemAssign` | src/vectors.rs:119-129 | `v %= r`, taking the length once and then updating both coordinates, leaves `v` equal to `v % r` as written |
| `Vectors.Neg` | src/vectors.rs:131-137 | `-v` negates both coordinates |
| `Vectors.NegInvolutive` | src/vectors.rs:131-137 | `-(-v) == v` |
| `Vectors.NegIsScale` | src/vectors.rs:131-137 | `-v == v * -1.0 == 0 - v` |
| `Vectors.LengthNeg` | src/vectors.rs:131-137 | negation keeps the length |
| `Vectors.Mag` | src/fishes.rs:95-99 | `mag(len)` scales a non-zero vector to length `len`; for `len > 0` it keeps the direction |
| `Bodies.Body.constructor` | src/bodies.rs:15-35 | stores health, mass, position and velocity, and sets `velocity_norm` to the velocity's `norm`, which has length 1 |
| `Bodies.Body.Rescale` | src/bodies.rs:37-43 | `rescale` changes nothing |
| `Bodies.Body.Grow` | src/bodies.rs:45-48 | the mass rises by exactly `mass_gained`; health, position, velocity and `velocity_norm` are unchanged |
| `Bodies.Body.Shrink` | src/bodies.rs:50-53 | the mass falls by exactly `mass_loss`; nothing else changes |
| `Bodies.GrowThenShrink` | src/bodies.rs:45-53 | `grow(m)` followed by `shrink(m)` restores the body exactly |
| `Bodies.ShrinkPastZero` | src/bodies.rs:50-53 | `shrink` has no floor: a body of mass 1 shrunk by 2 ends with mass -1 |
| `Fishes.IsSeeing` | src/fishes.rs:51-63 | seen exactly when `v·d >= range·abs(v)·abs(d)` (the cosine test) and `abs(d) <= depth`; when either vector is zero, the NaN comparison fails and only the depth decides |
| `Fishes.CosineTest` | src/fishes.rs:54 | comparing the cosine of the normalised vectors with `range` is the same as comparing the dot product with `range` times both lengths |
| `Fishes.InDeadZone` | src/fishes.rs:66 | steering at the fish's own position is always in the dead zone, and a force in the dead zone lies within 1 of the position on each axis |
| `Fishes.Ramp` | src/fishes.rs:70-76 | the current speed moves exactly 0.6 towards the target speed, or stays when equal |
| `Fishes.RampConverges` | src/fishes.rs:70-76 | far from the target, one ramp closes the gap by 0.6; within 0.6 of it, the speed stays within 0.6 |
| `Fishes.RampOscillates` | src/fishes.rs:70-76 | a speed within 0.6 of its target, but not on it, alternates between two values forever |
| `Fishes.SteerIncrement` | src/fishes.rs:78-79 | the velocity increment is never longer than the ramped speed, when that speed is non-negative |
| `Fishes.Steered` | src/fishes.rs:65-80 | in the dead zone nothing changes. Otherwise the current speed ramps, the velocity changes by at most the new speed, the position advances by the new velocity, and every other field, `velocity_norm` included, is kept |
| `Fishes.FreshFishSteerAsWritten` | src/fishes.rs:38-79 | with `%` as written, the first steer at the default speed of a fish fresh from `Fish::new` divides zero by zero; with the corrected clamp it is defined |
| `Fishes.NextWanderVector` | src/fishes.rs:91-96 | when already wandering, the wander vector gains the jitter; otherwise it is reseeded at length 10 in the direction of the velocity |
| `Fishes.Wandered` | src/fishes.rs:90-102 | after `wander` the fish is WANDERING, its wander vector is the one above, and its force and speed settings are kept |
| `Fishes.WanderRemembers` | src/fishes.rs:91-96 | a second `wander` only adds its jitter to the vector the first one left |
| `Fishes.SeekDesired` | src/fishes.rs:105 | the desired velocity of `seek` is never longer than `max_force` (for `max_force >= 0`) |
| `Fishes.FleeDesired` | src/fishes.rs:128 | the desired velocity of `flee` is never longer than `max_force` (for `max_force >= 0`) |
| `Fishes.FleeMirrorsSeek` | src/fishes.rs:104-132 | `flee` wants exactly the negation of what `seek` wants for the same target |
| `Fishes.Sought` | src/fishes.rs:104-109 | after `seek` the fish is SEEKING and its wander vector is kept |
| `Fishes.Fled` | src/fishes.rs:127-132 | after `flee` the fish is FLEEING and its wander vector is kept |
| `Fishes.ClippedSpeed` | src/fishes.rs:113-120 | the clipped speed is the minimum of `peak` and `peak*dist/100` |
| `Fishes.ClippedSpeedMonotone` | src/fishes.rs:113-120 | for `peak >= 0` the clipped speed never decreases as the distance grows |
| `Fishes.ClippedSpeedRegions` | src/fishes.rs:113-120 | for `peak > 0`: below distance 100 the speed is `peak*dist/100 < peak`; from 100 on it is `peak`; it is never negative |
| `Fishes.ArriveDesired` | src/fishes.rs:112-121 | the desired velocity of `arrive` has exactly the clipped speed as its length, which is at most `peak_speed` |
| `Fishes.Arrived` | src/fishes.rs:111-125 | after `arrive` the fish is ARRIVING and its wander vector is kept |
| `Fishes.PredictedPosition` | src/fishes.rs:135-136 | the predicted point lies ahead of the target by half the distance between the fish and the target; when that distance is positive, the offset is a positive multiple of the target's velocity |
| `Fishes.Pursued` | src/fishes.rs:134-139 | `pursuit` seeks the predicted point and ends SEEKING |
| `Fishes.Evaded` | src/fishes.rs:141-146 | `evade` flees the predicted point and ends FLEEING |
| `Fishes.Plant.constructor` | src/fishes.rs:4-6 | a plant is a body |
| `Fishes.Fish.constructor` | src/fishes.rs:38-49 | a new fish has health 100, is WANDERING with vision (0, 100), no force, no default or current speed, and a zero wander vector |
| `Fishes.Fish.Steer` | src/fishes.rs:65-88 | updating speed, velocity and position in place yields `Steered` of the old state |
| `Fishes.Fish.Wander` | src/fishes.rs:90-102 | in place, yields `Wandered` of the old state |
| `Fishes.Fish.Seek` | src/fishes.rs:104-109 | in place, yields `Sought` of the old state |
| `Fishes.Fish.Arrive` | src/fishes.rs:111-125 | in place, yields `Arrived` of the old state |
| `Fishes.Fish.Flee` | src/fishes.rs:127-132 | in place, yields `Fled` of the old state |
| `Fishes.Fish.Pursuit` | src/fishes.rs:134-139 | in place, yields `Pursued` of the old state |
| `Fishes.Fish.Evade` | src/fishes.rs:141-146 | in place, yields `Evaded` of the old state |
| `Aquariums.Winner` | src/main.rs:112-121 | the index the scan settles on always holds a positive value below `f64::MAX` |
| `Aquariums.WinnerIsFirstMinimum` | src/main.rs:112-123 | the scan finds nothing exactly when no value is a candidate; otherwise it finds a candidate no larger than any other and strictly smaller than every earlier one |
| `Aquariums.FirstMinimumUnique` | src/main.rs:114-120 | at most one index is the first least candidate |
| `Aquariums.WinnerCharacterized` | src/main.rs:112-123 | the scan returns `k` if and only if `k` is the first index of the least candidate |
| `Aquariums.CheckProximity` | src/main.rs:108-124 | the loop with `min_dist` starting at `f64::MAX` returns the target at the scan's winning index, or None |
| `Aquariums.Closest` | src/main.rs:112-123 | a target that is returned belongs to the population and has a value in (0, `f64::MAX`) |
| `Aquariums.ClosestSpec` | src/main.rs:108-124 | `check_proximity` returns None exactly when no target has a positive value below `f64::MAX`, and otherwise the earliest target with the least value |
| `Aquariums.Targets` | src/main.rs:115-119 | each target reports the position and velocity of its own body, in population order |
| `Aquariums.PreyTurn` | src/main.rs:149-164 | one prey turn (two scans, then evade, arrive or wander) yields `PreyStep` of the prey's old state |
| `Aquariums.PreyStep` | src/main.rs:152-164 | the prey ends FLEEING exactly when a predator is in sight, ARRIVING exactly when none is but a plant is, and WANDERING exactly when neither is |
| `Aquariums.PreyEvadesNearest` | src/main.rs:152-155 | a prey with a predator in sight evades the first nearest one and ends FLEEING |
| `Aquariums.PreyArrivesNearest` | src/main.rs:156-159 | with no predator in sight, a prey with a plant in sight arrives at the first nearest one and ends ARRIVING |
| `Aquariums.PreyWandersIff` | src/main.rs:152-163 | a prey ends WANDERING exactly when neither a predator nor a plant is in sight |
| `Aquariums.PredatorTurn` | src/main.rs:174-183 | one predator turn (a scan, then pursuit or wander) yields `PredatorStep` of the old state |
| `Aquariums.PredatorStep` | src/main.rs:176-183 | the predator ends SEEKING exactly when a prey is in sight, and WANDERING exactly when none is |
| `Aquariums.PredatorPursuesNearest` | src/main.rs:176-179 | a predator with a prey in sight pursues the first nearest one and ends SEEKING |
| `Aquariums.PredatorWandersIff` | src/main.rs:176-182 | a predator ends WANDERING exactly when no prey is in sight |
| `Aquariums.RootlingsStep` | src/main.rs:127-140 | visiting the plant at index `i` before the ones above it appends that plant's rootlings after theirs |
| `Aquariums.RootlingsCount` | src/main.rs:132-140 | every growing plant contributes exactly two rootlings |
| `Aquariums.Offset` | src/main.rs:190-202 | `offset(dx, dy)` moves a point by exactly `(dx, dy)` |
| `Aquariums.Pan` | src/main.rs:189-203 | each axis of the view moves exactly when one, but not both, of its two arrows is held, and by at most 6 |
| `Aquariums.OppositeArrowsCancel` | src/main.rs:189-203 | opposite arrow keys held together cancel out |
| `Aquariums.GrowthCadence` | src/main.rs:214-289 | growth is active on frame `k` exactly when `(k + 1) % 121 == 0`, because the counter exceeds `2*fps` on every 121st tick and is then reset |
| `Aquariums.Aquarium.Create` | src/main.rs:53-70 | `create` stores the start amounts and starts with no plants or fish, no pan and no zoom |
| `Aquariums.Aquarium.ProcessPlants` | src/main.rs:126-143 | visits each plant present on entry once, from the last to the first, and never visits rootlings. Existing plants are kept in order; when `do_grow` holds, each growing plant's rootlings are appended, otherwise nothing is. The body-sharing invariant `Valid` is kept, given that rootlings share no body with a fish |
| `Aquariums.Aquarium.ProcessPrey` | src/main.rs:146-167 | one turn changes only that prey, and leaves the plants and predators it looks at unchanged |
| `Aquariums.Aquarium.ProcessPreys` | src/main.rs:145-168 | every prey takes exactly one `PreyStep` on the plants and predators as they were at the start; the populations keep their members and order, and `Valid` is kept |
| `Aquariums.Aquarium.ProcessPredator` | src/main.rs:171-186 | one turn changes only that predator, and leaves the preys it looks at unchanged |
| `Aquariums.Aquarium.ProcessPredators` | src/main.rs:170-187 | every predator takes exactly one `PredatorStep` on the preys as they were at the start, and `Valid` is kept |
| `Aquariums.Aquarium.ProcessScreenSliding` | src/main.rs:189-203 | the view offset moves by `(6*(left-right), 6*(up-down))`, and nothing else changes, so `Valid` is kept |

## Left out

- Rendering and I/O are not modelled: SDL set-up, texture loading, `init`, event polling, `fill_bg`, `update_screen` and its sleep, and every `draw` call.
- `Vector2::random_in_radius` is not modelled (it uses a hardware random source and trigonometry). Its results are parameters with no assumed bound: the initial velocity of `Body::new` and the `jitter` of `wander`.
- `Vector2::new`, `from`, `Clone` and `Copy` are plain value construction and copying. `AddAssign` and `RemAssign` mutate a copied value, so they are modelled as methods that return the new value.
- f64 rounding, infinities and NaN are not modelled. Cases where the source would compute NaN or divide by zero are excluded by the `...Defined` predicates, with two exceptions. `is_seeing`'s NaN comparison is modelled. Steering uses the corrected clamp, so a zero vector clamped to limit 0 stays zero instead of becoming NaN (next line).
- `Fishes.SteerIncrement`, `Fishes.Steered`, `Fishes.Wandered`, `Fishes.Sought`, `Fishes.Fled`, `Fishes.Arrived`, `Fishes.Pursued`, `Fishes.Evaded`, their `Fish` methods, `Aquariums.PreyStep` and `Aquariums.PredatorStep` use the corrected clamp `Vectors.Clamp` (see Findings). Their `...Defined` predicates admit a zero vector clamped to limit 0. There the source's `%` computes `0 * (0 / 0)`, which is NaN, while the model yields the zero vector. Example: on the first `wander` of a fish fresh from `Fish::new`, the source's velocity becomes NaN, but the model keeps the velocity. They agree with the source on every other input.
- The square root is a parameter characterised by `IsSqrt`, not a defined function.
- Plant growth (`Plant::grow`) is called but not defined in this revision. `ProcessPlants` takes it as a parameter that may return a pair of rootlings. Plants have no other behaviour.
- `in_sight` and the `Vision` and `Position` traits are not defined in this revision. The sight value is a parameter `(FishState, Vector2) -> real`.
- `Vector2::mag` and `Vector2::offset` are called but not defined. `Mag` scales a non-zero vector to a given length; `Offset` translates by `(dx, dy)`.
- The `Position` trait's `pos()` and `vel()` are called in `check_proximity` but not defined. `Targets` assumes they return the body's position and velocity.
- `pursuit` and `evade` are declared on a whole `Fish` but called with a position and a velocity. The model takes the position and velocity, the only fields they read.
- `is_seeing` reads only the target body's position, so the model takes that position.
- `Fish::new` follows its three-argument definition (plus the random velocity). The five-argument calls in `init` belong to the left-out `init`.
- One frame of the main loop is not modelled as a single method: the model does not compose `process_plants`, `process_preys`, `process_predators` and `process_screen_sliding` per frame. Each pass is modelled on its own, and `GrowthCadence` models the tick counter. Every pass keeps the invariant `Valid` (no body is shared), so the passes can follow one another. `ProcessPlants` requires that the rootlings returned by the growth parameter share no body with a fish. In the source they are newly built plants.
- `offset_zoom` and the start amounts are only stored, as in the source. The start amounts are 32-bit unsigned (`u32`).
- Rectangles, collision rectangles and textures exist only in commented-out code and are not modelled.

## Findings

| source | as written | input that shows it | evidently intended | confidence | as-written member | corrected member |
|---|---|---|---|---|---|---|
| src/vectors.rs:109-116 | `%` returns the vector unchanged only when its length is strictly below the limit, and otherwise multiplies by `rhs / mag` | `(1, 0) % 0.0 % 0.0`: the first clamp gives `(0, 0)`; the second computes `0 * (0 / 0)`, which is NaN. The same happens on the first `wander` of a fish fresh from `Fish::new` (src/fishes.rs:38-49, 98-101), where `max_force`, `current_speed` and `default_speed` are all 0 | compare with `<=`. A vector already within the limit is left alone, the zero vector clamps to itself at limit 0, and the clamp is idempotent for every limit >= 0. On all inputs where the original is defined, it gives the same result | medium, not executed | `Vectors.ClampAsWritten`, `Vectors.ClampTwiceAtZeroAsWritten`, `Fishes.FreshFishSteerAsWritten` | `Vectors.Clamp`, `Vectors.ClampIdempotent` |
