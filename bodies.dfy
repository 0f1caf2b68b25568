/** The kinematic body shared by fish and plants (src/bodies.rs). */
module Bodies {
  import opened Vectors

  class Body {
    var health: real
    var mass: real
    var position: Vector2
    var velocity: Vector2
    /** Cached unit velocity; set by the constructor and not refreshed by anything else. */
    var velocityNorm: Vector2

    /** `Body::new`. The initial velocity is `Vector2::random_in_radius(1.0)` in the source;
        here it is a parameter, and it must be non-zero because it is normalised. */
    constructor (sqrt: real -> real, health: real, mass: real, position: Vector2, velocity: Vector2)
      requires IsSqrt(sqrt) && NonZero(velocity)
      ensures this.health == health && this.mass == mass
      ensures this.position == position && this.velocity == velocity
      ensures velocityNorm == Norm(sqrt, velocity)
      ensures Length(sqrt, velocityNorm) == 1.0
    {
      this.health := health;
      this.mass := mass;
      this.position := position;
      this.velocity := velocity;
      this.velocityNorm := Norm(sqrt, velocity);
    }

    /** `rescale`: its body is empty in this revision (the rectangle code is commented out). */
    method Rescale()
      modifies this
      ensures unchanged(this)
    {
    }

    /** `grow`: adds exactly `massGained` to the mass; nothing else changes. */
    method Grow(massGained: real)
      modifies this
      ensures mass == old(mass) + massGained
      ensures health == old(health) && position == old(position)
      ensures velocity == old(velocity) && velocityNorm == old(velocityNorm)
    {
      mass := mass + massGained;
      Rescale();
    }

    /** `shrink`: subtracts exactly `massLoss`, with no floor, so the mass may reach zero
        or go negative; nothing else changes. */
    method Shrink(massLoss: real)
      modifies this
      ensures mass == old(mass) - massLoss
      ensures health == old(health) && position == old(position)
      ensures velocity == old(velocity) && velocityNorm == old(velocityNorm)
    {
      mass := mass - massLoss;
      Rescale();
    }
  }

  /** Growing and then shrinking by the same amount restores the body exactly. */
  method GrowThenShrink(b: Body, m: real)
    modifies b
    ensures b.mass == old(b.mass) && b.health == old(b.health)
    ensures b.position == old(b.position) && b.velocity == old(b.velocity)
    ensures b.velocityNorm == old(b.velocityNorm)
  {
    b.Grow(m);
    b.Shrink(m);
  }

  /** Shrinking has no guard: a body of mass 1 shrunk by 2 ends with mass -1. */
  method ShrinkPastZero(b: Body)
    requires b.mass == 1.0
    modifies b
    ensures b.mass == -1.0 && b.mass < 0.0
  {
    b.Shrink(2.0);
  }
}
