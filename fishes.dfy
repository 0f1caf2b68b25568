/** Fish steering (src/fishes.rs): a four-state behaviour machine over one `steer` primitive.
    The behaviours are first specified as functions on a `FishState` snapshot; the `Fish`
    class then updates its fields and its body in place and is proved against them. */
module Fishes {
  import opened Vectors
  import opened Bodies

  datatype FishBehaviour = Wandering | Seeking | Arriving | Fleeing

  /** `FishVision`: `range` is the least cosine to a target that still counts as seen,
      `depth` the greatest distance. */
  datatype FishVision = FishVision(range: real, depth: real)

  /** Everything a fish and its body hold, as one value. */
  datatype FishState = FishState(
    health: real, mass: real, position: Vector2, velocity: Vector2, velocityNorm: Vector2,
    behaviour: FishBehaviour, vision: FishVision,
    maxForce: real, peakSpeed: real, defaultSpeed: real, currentSpeed: real,
    wanderVector: Vector2)

  /** The change of `current_speed` per `steer` call. */
  const SpeedStep: real := 0.6
  /** The length `wander` gives its wander vector and the steering target. */
  const WanderLength: real := 10.0
  /** The distance below which `arrive` slows down. */
  const ArrivalRadius: real := 100.0

  // ---------------------------------------------------------------------------
  // is_seeing

  /** `is_seeing`: the target is seen when the cosine between the velocity and the offset
      to the target is at least `vision.range` and the target is at most `vision.depth`
      away. When either vector is zero its `norm` is NaN in f64, the cosine comparison is
      false, and only the distance decides. */
  function IsSeeing(sqrt: real -> real, s: FishState, target: Vector2): (r: bool)
    requires IsSqrt(sqrt)
    ensures var d := Sub(target, s.position);
      NonZero(s.velocity) && NonZero(d) ==>
        (r <==> Dot(s.velocity, d) >= s.vision.range * (Length(sqrt, s.velocity) * Length(sqrt, d))
                && Length(sqrt, d) <= s.vision.depth)
    ensures var d := Sub(target, s.position);
      !(NonZero(s.velocity) && NonZero(d)) ==> (r <==> Length(sqrt, d) <= s.vision.depth)
  {
    var toTarget := Sub(target, s.position);
    var coneFails := NonZero(s.velocity) && NonZero(toTarget) &&
      (CosineTest(sqrt, s.velocity, toTarget, s.vision.range);
       Dot(Norm(sqrt, s.velocity), Norm(sqrt, toTarget)) < s.vision.range);
    assert NonZero(s.velocity) && NonZero(toTarget) ==>
      (coneFails <==> Dot(s.velocity, toTarget) < s.vision.range * (Length(sqrt, s.velocity) * Length(sqrt, toTarget)));
    if coneFails then false
    else if Length(sqrt, toTarget) > s.vision.depth then false
    else true
  }

  /** The cosine test on unit vectors is the dot-product test scaled by both lengths. */
  lemma CosineTest(sqrt: real -> real, a: Vector2, b: Vector2, range: real)
    requires IsSqrt(sqrt) && NonZero(a) && NonZero(b)
    ensures Dot(Norm(sqrt, a), Norm(sqrt, b)) < range
        <==> Dot(a, b) < range * (Length(sqrt, a) * Length(sqrt, b))
  {
    var p := Length(sqrt, a) * Length(sqrt, b);
    MulPositive(Length(sqrt, a), Length(sqrt, b));
    DotNorm(sqrt, a, b);
    MulLessIff(Dot(Norm(sqrt, a), Norm(sqrt, b)), range, p);
  }

  lemma MulPositive(a: real, b: real)
    requires 0.0 < a && 0.0 < b
    ensures 0.0 < a * b
  {
  }

  /** Multiplying both sides by a positive number keeps a strict inequality, both ways. */
  lemma MulLessIff(a: real, b: real, p: real)
    requires 0.0 < p
    ensures a < b <==> a * p < b * p
  {
    if a < b {
      MulPositive(b - a, p);
      assert b * p - a * p == (b - a) * p;
    } else {
      MulNonNegative(a - b, p);
      assert a * p - b * p == (a - b) * p;
    }
  }

  // ---------------------------------------------------------------------------
  // steer

  /** The dead zone of `steer`: the steering force lies within distance 1 of the position,
      so it contains the position itself and lies inside the unit box around it. */
  function InDeadZone(s: FishState, force: Vector2): (r: bool)
    ensures force == s.position ==> r
    ensures r ==> Abs(force.x - s.position.x) < 1.0 && Abs(force.y - s.position.y) < 1.0
  {
    var d := Sub(force, s.position);
    SquareNonNegative(d.x);
    SquareNonNegative(d.y);
    SquareBelowOne(d.x);
    SquareBelowOne(d.y);
    LengthSqr(d) < 1.0
  }

  /** A number whose square is below 1 lies strictly between -1 and 1. */
  lemma SquareBelowOne(a: real)
    ensures a * a < 1.0 ==> Abs(a) < 1.0
  {
    if 1.0 <= Abs(a) {
      MulNonNegative(Abs(a) - 1.0, Abs(a) + 1.0);
      assert (Abs(a) - 1.0) * (Abs(a) + 1.0) == Abs(a) * Abs(a) - 1.0;
      assert Abs(a) * Abs(a) == a * a;
    }
  }

  /** The speed ramp of `steer`: one step of 0.6 towards the target speed, none when equal.
      The speed `steer` then clamps to is this new current speed in every case. */
  function Ramp(current: real, target: real): (r: real)
    ensures current == target ==> r == current
    ensures current != target ==> Abs(r - current) == SpeedStep
    ensures current < target ==> current < r
    ensures target < current ==> r < current
  {
    if current < target then current + SpeedStep
    else if current > target then current - SpeedStep
    else current
  }

  /** Far from the target the ramp closes the gap by exactly one step; near it (closer
      than one step) it lands within one step on either side. */
  lemma RampConverges(current: real, target: real)
    ensures Abs(current - target) >= SpeedStep ==>
      Abs(Ramp(current, target) - target) == Abs(current - target) - SpeedStep
    ensures Abs(current - target) < SpeedStep ==> Abs(Ramp(current, target) - target) < SpeedStep
  {
  }

  /** A speed strictly within one step of its target (but not on it) never settles: two
      ramps bring it back where it started. */
  lemma RampOscillates(current: real, target: real)
    requires 0.0 < Abs(current - target) < SpeedStep
    ensures Ramp(current, target) != current
    ensures Ramp(Ramp(current, target), target) == current
  {
  }

  /** The cases in which `steer` yields real numbers: in the dead zone nothing is computed;
      otherwise `1.0 / mass` must exist and neither clamp may divide zero by zero. */
  predicate SteerDefined(sqrt: real -> real, s: FishState, force: Vector2, clampSpeed: real)
    requires IsSqrt(sqrt)
  {
    InDeadZone(s, force) ||
    (s.mass != 0.0 && ClampDefined(force, s.maxForce) &&
     ClampDefined(Scale(Clamp(sqrt, force, s.maxForce), 1.0 / s.mass), Ramp(s.currentSpeed, clampSpeed)))
  }

  /** The velocity increment of one `steer` call: the force clamped to `max_force`, divided
      by the mass, clamped again to the ramped speed; never longer than that speed. */
  function SteerIncrement(sqrt: real -> real, s: FishState, force: Vector2, clampSpeed: real): (r: Vector2)
    requires IsSqrt(sqrt) && !InDeadZone(s, force) && SteerDefined(sqrt, s, force, clampSpeed)
    ensures 0.0 <= Ramp(s.currentSpeed, clampSpeed) ==> Length(sqrt, r) <= Ramp(s.currentSpeed, clampSpeed)
  {
    Clamp(sqrt, Scale(Clamp(sqrt, force, s.maxForce), 1.0 / s.mass), Ramp(s.currentSpeed, clampSpeed))
  }

  /** `steer`: in the dead zone nothing changes. Otherwise the current speed ramps, the
      velocity gains an increment no longer than the new speed, and the position advances
      by the new velocity (explicit Euler); nothing else changes, `velocity_norm` included. */
  function Steered(sqrt: real -> real, s: FishState, force: Vector2, clampSpeed: real): (r: FishState)
    requires IsSqrt(sqrt) && SteerDefined(sqrt, s, force, clampSpeed)
    ensures InDeadZone(s, force) ==> r == s
    ensures !InDeadZone(s, force) ==>
      r == s.(currentSpeed := Ramp(s.currentSpeed, clampSpeed), velocity := r.velocity,
              position := Add(s.position, r.velocity))
    ensures !InDeadZone(s, force) && 0.0 <= Ramp(s.currentSpeed, clampSpeed) ==>
      Length(sqrt, Sub(r.velocity, s.velocity)) <= Ramp(s.currentSpeed, clampSpeed)
  {
    if InDeadZone(s, force) then s
    else
      var inc := SteerIncrement(sqrt, s, force, clampSpeed);
      var v := Add(s.velocity, inc);
      assert Sub(v, s.velocity) == inc;
      s.(currentSpeed := Ramp(s.currentSpeed, clampSpeed), velocity := v, position := Add(s.position, v))
  }

  /** A fish as `Fish::new` leaves it has no force, no default speed and no current speed.
      Its first steer at the default speed (as `wander` does), with the clamp as written,
      clamps the zero vector to the limit 0 and so divides zero by zero; with the corrected
      clamp that steer is defined whenever the mass is non-zero. */
  lemma FreshFishSteerAsWritten(sqrt: real -> real, s: FishState, force: Vector2)
    requires IsSqrt(sqrt) && NonZero(force) && s.mass != 0.0
    requires s.maxForce == 0.0 && s.defaultSpeed == 0.0 && s.currentSpeed == 0.0
    ensures !ClampDefinedAsWritten(Scale(ClampAsWritten(sqrt, force, s.maxForce), 1.0 / s.mass),
                                   Ramp(s.currentSpeed, s.defaultSpeed))
    ensures SteerDefined(sqrt, s, force, s.defaultSpeed)
  {
    ClampToZero(sqrt, force);
    ScaleZero(1.0 / s.mass);
  }

  // ---------------------------------------------------------------------------
  // wander

  /** The wander vector after `wander`: jittered when already wandering, otherwise reseeded
      from the velocity at length 10 (which needs a non-zero velocity). */
  function NextWanderVector(sqrt: real -> real, s: FishState, jitter: Vector2): (r: Vector2)
    requires IsSqrt(sqrt) && (s.behaviour == Wandering || NonZero(s.velocity))
    ensures s.behaviour == Wandering ==> r == Add(s.wanderVector, jitter)
    ensures s.behaviour != Wandering ==>
      Length(sqrt, r) == WanderLength && exists k :: 0.0 < k && r == Scale(s.velocity, k)
  {
    if s.behaviour == Wandering then Add(s.wanderVector, jitter)
    else Mag(sqrt, s.velocity, WanderLength)
  }

  predicate WanderDefined(sqrt: real -> real, s: FishState, jitter: Vector2)
    requires IsSqrt(sqrt)
  {
    (s.behaviour == Wandering || NonZero(s.velocity)) &&
    var w := NextWanderVector(sqrt, s, jitter);
    NonZero(w) &&
    SteerDefined(sqrt, s.(behaviour := Wandering, wanderVector := w),
                 Sub(Mag(sqrt, w, WanderLength), s.velocity), s.defaultSpeed)
  }

  /** `wander`: the fish ends WANDERING with its wander vector remembered (jittered) or
      reseeded, and steers towards that vector at length 10, at `default_speed`. */
  function Wandered(sqrt: real -> real, s: FishState, jitter: Vector2): (r: FishState)
    requires IsSqrt(sqrt) && WanderDefined(sqrt, s, jitter)
    ensures r.behaviour == Wandering
    ensures r.wanderVector == NextWanderVector(sqrt, s, jitter)
    ensures r.maxForce == s.maxForce && r.peakSpeed == s.peakSpeed && r.defaultSpeed == s.defaultSpeed
  {
    var w := NextWanderVector(sqrt, s, jitter);
    var s1 := s.(behaviour := Wandering, wanderVector := w);
    Steered(sqrt, s1, Sub(Mag(sqrt, w, WanderLength), s1.velocity), s1.defaultSpeed)
  }

  /** Two wanders in a row: the second only adds its jitter to the vector the first left. */
  lemma WanderRemembers(sqrt: real -> real, s: FishState, j1: Vector2, j2: Vector2)
    requires IsSqrt(sqrt) && WanderDefined(sqrt, s, j1) && WanderDefined(sqrt, Wandered(sqrt, s, j1), j2)
    ensures Wandered(sqrt, Wandered(sqrt, s, j1), j2).wanderVector
         == Add(Wandered(sqrt, s, j1).wanderVector, j2)
  {
  }

  // ---------------------------------------------------------------------------
  // seek and flee

  /** The desired velocity of `seek`: the offset to the target, clamped to `max_force`. */
  function SeekDesired(sqrt: real -> real, s: FishState, target: Vector2): (r: Vector2)
    requires IsSqrt(sqrt) && ClampDefined(Sub(target, s.position), s.maxForce)
    ensures 0.0 <= s.maxForce ==> Length(sqrt, r) <= s.maxForce
  {
    Clamp(sqrt, Sub(target, s.position), s.maxForce)
  }

  /** The desired velocity of `flee`: the offset away from the target, clamped likewise. */
  function FleeDesired(sqrt: real -> real, s: FishState, target: Vector2): (r: Vector2)
    requires IsSqrt(sqrt) && ClampDefined(Sub(s.position, target), s.maxForce)
    ensures 0.0 <= s.maxForce ==> Length(sqrt, r) <= s.maxForce
  {
    Clamp(sqrt, Sub(s.position, target), s.maxForce)
  }

  /** Fleeing wants exactly the opposite of seeking the same target. */
  lemma FleeMirrorsSeek(sqrt: real -> real, s: FishState, target: Vector2)
    requires IsSqrt(sqrt) && ClampDefined(Sub(target, s.position), s.maxForce)
    ensures ClampDefined(Sub(s.position, target), s.maxForce)
    ensures FleeDesired(sqrt, s, target) == Neg(SeekDesired(sqrt, s, target))
  {
    var d := Sub(target, s.position);
    assert Sub(s.position, target) == Neg(d);
    ClampNeg(sqrt, d, s.maxForce);
  }

  predicate SeekDefined(sqrt: real -> real, s: FishState, target: Vector2)
    requires IsSqrt(sqrt)
  {
    ClampDefined(Sub(target, s.position), s.maxForce) &&
    SteerDefined(sqrt, s.(behaviour := Seeking), Sub(SeekDesired(sqrt, s, target), s.velocity), s.peakSpeed)
  }

  /** `seek`: the fish ends SEEKING, having steered by the desired velocity minus its own
      velocity at `peak_speed`; the wander vector is kept. */
  function Sought(sqrt: real -> real, s: FishState, target: Vector2): (r: FishState)
    requires IsSqrt(sqrt) && SeekDefined(sqrt, s, target)
    ensures r.behaviour == Seeking && r.wanderVector == s.wanderVector
  {
    Steered(sqrt, s.(behaviour := Seeking), Sub(SeekDesired(sqrt, s, target), s.velocity), s.peakSpeed)
  }

  predicate FleeDefined(sqrt: real -> real, s: FishState, target: Vector2)
    requires IsSqrt(sqrt)
  {
    ClampDefined(Sub(s.position, target), s.maxForce) &&
    SteerDefined(sqrt, s.(behaviour := Fleeing), Sub(FleeDesired(sqrt, s, target), s.velocity), s.peakSpeed)
  }

  /** `flee`: the fish ends FLEEING; the wander vector is kept. */
  function Fled(sqrt: real -> real, s: FishState, target: Vector2): (r: FishState)
    requires IsSqrt(sqrt) && FleeDefined(sqrt, s, target)
    ensures r.behaviour == Fleeing && r.wanderVector == s.wanderVector
  {
    Steered(sqrt, s.(behaviour := Fleeing), Sub(FleeDesired(sqrt, s, target), s.velocity), s.peakSpeed)
  }

  // ---------------------------------------------------------------------------
  // arrive

  /** The clipped speed of `arrive`: proportional to the distance, capped at `peak_speed`. */
  function ClippedSpeed(peak: real, dist: real): (r: real)
    ensures r <= peak && r <= peak * dist / ArrivalRadius
    ensures r == peak || r == peak * dist / ArrivalRadius
  {
    var a := peak * dist / ArrivalRadius;
    if a < peak then a else peak
  }

  /** For a non-negative peak the clipped speed never falls as the distance grows. */
  lemma ClippedSpeedMonotone(peak: real, d1: real, d2: real)
    requires 0.0 <= peak && d1 <= d2
    ensures ClippedSpeed(peak, d1) <= ClippedSpeed(peak, d2)
  {
    MulNonNegative(peak, d2 - d1);
    assert peak * d2 - peak * d1 == peak * (d2 - d1);
    assert peak * d1 / ArrivalRadius <= peak * d2 / ArrivalRadius;
  }

  /** Inside the arrival radius a positive peak is scaled down by distance/100; at or
      beyond it the full peak is used; the clipped speed is never negative. */
  lemma ClippedSpeedRegions(peak: real, dist: real)
    requires 0.0 < peak && 0.0 <= dist
    ensures dist < ArrivalRadius ==> ClippedSpeed(peak, dist) == peak * dist / ArrivalRadius < peak
    ensures ArrivalRadius <= dist ==> ClippedSpeed(peak, dist) == peak
    ensures 0.0 <= ClippedSpeed(peak, dist)
  {
    MulNonNegative(peak, dist);
    if dist < ArrivalRadius {
      MulLessIff(dist, ArrivalRadius, peak);
      assert dist * peak == peak * dist;
    } else {
      MulNonNegative(peak, dist - ArrivalRadius);
      assert peak * dist - peak * ArrivalRadius == peak * (dist - ArrivalRadius);
    }
  }

  /** The desired velocity of `arrive`: the offset to the target at the clipped speed; it is
      normalised, so the target must not be at the fish's own position. */
  function ArriveDesired(sqrt: real -> real, s: FishState, target: Vector2): (r: Vector2)
    requires IsSqrt(sqrt) && NonZero(Sub(target, s.position))
    ensures 0.0 <= s.peakSpeed ==>
      Length(sqrt, r) == ClippedSpeed(s.peakSpeed, Length(sqrt, Sub(target, s.position))) <= s.peakSpeed
  {
    var toTarget := Sub(target, s.position);
    var speed := ClippedSpeed(s.peakSpeed, Length(sqrt, toTarget));
    assert 0.0 < s.peakSpeed ==> 0.0 <= speed by {
      if 0.0 < s.peakSpeed {
        ClippedSpeedRegions(s.peakSpeed, Length(sqrt, toTarget));
      }
    }
    Mag(sqrt, toTarget, speed)
  }

  predicate ArriveDefined(sqrt: real -> real, s: FishState, target: Vector2)
    requires IsSqrt(sqrt)
  {
    NonZero(Sub(target, s.position)) &&
    SteerDefined(sqrt, s.(behaviour := Arriving), Sub(ArriveDesired(sqrt, s, target), s.velocity), s.peakSpeed)
  }

  /** `arrive`: the fish ends ARRIVING; the wander vector is kept. */
  function Arrived(sqrt: real -> real, s: FishState, target: Vector2): (r: FishState)
    requires IsSqrt(sqrt) && ArriveDefined(sqrt, s, target)
    ensures r.behaviour == Arriving && r.wanderVector == s.wanderVector
  {
    Steered(sqrt, s.(behaviour := Arriving), Sub(ArriveDesired(sqrt, s, target), s.velocity), s.peakSpeed)
  }

  // ---------------------------------------------------------------------------
  // pursuit and evade

  /** Where `pursuit` and `evade` expect the target: ahead of it along its velocity by half
      the current distance to it. */
  function PredictedPosition(sqrt: real -> real, s: FishState, targetPos: Vector2, targetVel: Vector2): (r: Vector2)
    requires IsSqrt(sqrt) && NonZero(targetVel)
    ensures Length(sqrt, Sub(r, targetPos)) == Length(sqrt, Sub(targetPos, s.position)) * 0.5
    ensures 0.0 < Length(sqrt, Sub(targetPos, s.position)) ==>
      exists k :: 0.0 < k && Sub(r, targetPos) == Scale(targetVel, k)
  {
    var scale := Length(sqrt, Sub(targetPos, s.position)) * 0.5;
    var r := Add(targetPos, Mag(sqrt, targetVel, scale));
    assert Sub(r, targetPos) == Mag(sqrt, targetVel, scale);
    r
  }

  predicate PursuitDefined(sqrt: real -> real, s: FishState, targetPos: Vector2, targetVel: Vector2)
    requires IsSqrt(sqrt)
  {
    NonZero(targetVel) && SeekDefined(sqrt, s, PredictedPosition(sqrt, s, targetPos, targetVel))
  }

  /** `pursuit`: seeks the predicted position, so the fish ends SEEKING. */
  function Pursued(sqrt: real -> real, s: FishState, targetPos: Vector2, targetVel: Vector2): (r: FishState)
    requires IsSqrt(sqrt) && PursuitDefined(sqrt, s, targetPos, targetVel)
    ensures r.behaviour == Seeking
  {
    Sought(sqrt, s, PredictedPosition(sqrt, s, targetPos, targetVel))
  }

  predicate EvadeDefined(sqrt: real -> real, s: FishState, targetPos: Vector2, targetVel: Vector2)
    requires IsSqrt(sqrt)
  {
    NonZero(targetVel) && FleeDefined(sqrt, s, PredictedPosition(sqrt, s, targetPos, targetVel))
  }

  /** `evade`: flees the predicted position, so the fish ends FLEEING. */
  function Evaded(sqrt: real -> real, s: FishState, targetPos: Vector2, targetVel: Vector2): (r: FishState)
    requires IsSqrt(sqrt) && EvadeDefined(sqrt, s, targetPos, targetVel)
    ensures r.behaviour == Fleeing
  {
    Fled(sqrt, s, PredictedPosition(sqrt, s, targetPos, targetVel))
  }

  // ---------------------------------------------------------------------------
  // The mutable entities

  /** `Plant`: a body and nothing else; its growth is not part of this model. */
  class Plant {
    const body: Body

    constructor (body: Body)
      ensures this.body == body
    {
      this.body := body;
    }
  }

  class Fish {
    const body: Body
    var behaviour: FishBehaviour
    var vision: FishVision
    var maxForce: real
    var peakSpeed: real
    var defaultSpeed: real
    var currentSpeed: real
    var wanderVector: Vector2

    function State(): FishState
      reads this, body
    {
      FishState(body.health, body.mass, body.position, body.velocity, body.velocityNorm,
                behaviour, vision, maxForce, peakSpeed, defaultSpeed, currentSpeed, wanderVector)
    }

    /** `Fish::new`: health 100, WANDERING, vision (0, 100), no force, resting, and a zero
        wander vector. The body's random initial velocity is the parameter `velocity`. */
    constructor (sqrt: real -> real, pos: Vector2, mass: real, peakSpeed: real, velocity: Vector2)
      requires IsSqrt(sqrt) && NonZero(velocity)
      ensures fresh(body)
      ensures State() == FishState(100.0, mass, pos, velocity, Norm(sqrt, velocity), Wandering,
                                   FishVision(0.0, 100.0), 0.0, peakSpeed, 0.0, 0.0, Zero)
    {
      body := new Body(sqrt, 100.0, mass, pos, velocity);
      behaviour := Wandering;
      vision := FishVision(0.0, 100.0);
      maxForce := 0.0;
      this.peakSpeed := peakSpeed;
      defaultSpeed := 0.0;
      currentSpeed := 0.0;
      wanderVector := Zero;
    }

    /** `steer`, in place. */
    method Steer(sqrt: real -> real, force: Vector2, clampSpeed: real)
      requires IsSqrt(sqrt) && SteerDefined(sqrt, State(), force, clampSpeed)
      modifies this, body
      ensures State() == Steered(sqrt, old(State()), force, clampSpeed)
    {
      if LengthSqr(Sub(force, body.position)) < 1.0 {
        return;
      }
      var clamp := clampSpeed;
      if currentSpeed < clamp {
        currentSpeed := currentSpeed + SpeedStep;
        clamp := currentSpeed;
      } else if currentSpeed > clamp {
        currentSpeed := currentSpeed - SpeedStep;
        clamp := currentSpeed;
      }
      assert clamp == Ramp(old(currentSpeed), clampSpeed);
      var increment := Clamp(sqrt, Scale(Clamp(sqrt, force, maxForce), 1.0 / body.mass), clamp);
      assert increment == SteerIncrement(sqrt, old(State()), force, clampSpeed);
      body.velocity := AddAssign(body.velocity, increment);
      body.position := AddAssign(body.position, body.velocity);
    }

    /** `wander`, in place; `jitter` stands for `Vector2::random_in_radius(3.0)`. */
    method Wander(sqrt: real -> real, jitter: Vector2)
      requires IsSqrt(sqrt) && WanderDefined(sqrt, State(), jitter)
      modifies this, body
      ensures State() == Wandered(sqrt, old(State()), jitter)
    {
      if behaviour == Wandering {
        wanderVector := AddAssign(wanderVector, jitter);
      } else {
        behaviour := Wandering;
        wanderVector := Mag(sqrt, body.velocity, WanderLength);
      }
      Steer(sqrt, Sub(Mag(sqrt, wanderVector, WanderLength), body.velocity), defaultSpeed);
    }

    /** `seek`, in place. */
    method Seek(sqrt: real -> real, target: Vector2)
      requires IsSqrt(sqrt) && SeekDefined(sqrt, State(), target)
      modifies this, body
      ensures State() == Sought(sqrt, old(State()), target)
    {
      var desired := Clamp(sqrt, Sub(target, body.position), maxForce);
      behaviour := Seeking;
      Steer(sqrt, Sub(desired, body.velocity), peakSpeed);
    }

    /** `arrive`, in place. */
    method Arrive(sqrt: real -> real, target: Vector2)
      requires IsSqrt(sqrt) && ArriveDefined(sqrt, State(), target)
      modifies this, body
      ensures State() == Arrived(sqrt, old(State()), target)
    {
      var toTarget := Sub(target, body.position);
      var clipped := ClippedSpeed(peakSpeed, Length(sqrt, toTarget));
      var desired := Mag(sqrt, toTarget, clipped);
      behaviour := Arriving;
      Steer(sqrt, Sub(desired, body.velocity), peakSpeed);
    }

    /** `flee`, in place. */
    method Flee(sqrt: real -> real, target: Vector2)
      requires IsSqrt(sqrt) && FleeDefined(sqrt, State(), target)
      modifies this, body
      ensures State() == Fled(sqrt, old(State()), target)
    {
      var desired := Clamp(sqrt, Sub(body.position, target), maxForce);
      behaviour := Fleeing;
      Steer(sqrt, Sub(desired, body.velocity), peakSpeed);
    }

    /** `pursuit`, given the target's position and velocity. */
    method Pursuit(sqrt: real -> real, targetPos: Vector2, targetVel: Vector2)
      requires IsSqrt(sqrt) && PursuitDefined(sqrt, State(), targetPos, targetVel)
      modifies this, body
      ensures State() == Pursued(sqrt, old(State()), targetPos, targetVel)
    {
      var scale := Length(sqrt, Sub(targetPos, body.position)) * 0.5;
      var desiredPos := Add(targetPos, Mag(sqrt, targetVel, scale));
      Seek(sqrt, desiredPos);
    }

    /** `evade`, given the target's position and velocity. */
    method Evade(sqrt: real -> real, targetPos: Vector2, targetVel: Vector2)
      requires IsSqrt(sqrt) && EvadeDefined(sqrt, State(), targetPos, targetVel)
      modifies this, body
      ensures State() == Evaded(sqrt, old(State()), targetPos, targetVel)
    {
      var scale := Length(sqrt, Sub(targetPos, body.position)) * 0.5;
      var desiredPos := Add(targetPos, Mag(sqrt, targetVel, scale));
      Flee(sqrt, desiredPos);
    }
  }
}
