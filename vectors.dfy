/** The 2-D vector kernel of the aquarium (src/vectors.rs).
    `f64` is modelled as `real`. A real square root cannot be defined in Dafny, so every
    member that needs a length takes the square root as a parameter `sqrt` and requires
    `IsSqrt(sqrt)`: it is non-negative and squares back to its argument. */
module Vectors {

  datatype Vector2 = Vector2(x: real, y: real)

  /** `Vector2::new(0.0, 0.0)`, also `Vector2::default()`. */
  const Zero: Vector2 := Vector2(0.0, 0.0)

  /** `sqrt` is the non-negative square root on the non-negative reals. */
  ghost predicate IsSqrt(sqrt: real -> real)
  {
    forall a :: 0.0 <= a ==> 0.0 <= sqrt(a) && sqrt(a) * sqrt(a) == a
  }

  function Abs(a: real): real
  {
    if a < 0.0 then -a else a
  }

  /** A non-negative number whose square is `a` is the square root of `a`. */
  lemma SqrtUnique(sqrt: real -> real, a: real, b: real)
    requires IsSqrt(sqrt) && 0.0 <= b && b * b == a
    ensures sqrt(a) == b
  {
    var s := sqrt(a);
    assert 0.0 <= s && s * s == a;
    assert (s - b) * (s + b) == 0.0;
    if s + b == 0.0 {
      assert s == 0.0 && b == 0.0;
    } else {
      assert s - b == 0.0;
    }
  }

  /** The square root is positive exactly on the positive reals. */
  lemma SqrtPositive(sqrt: real -> real, a: real)
    requires IsSqrt(sqrt) && 0.0 <= a
    ensures 0.0 < a ==> 0.0 < sqrt(a)
  {
    if 0.0 < a {
      assert sqrt(a) != 0.0;
    }
  }

  /** `Add`: component-wise sum; taking either summand away again leaves the other. */
  function Add(a: Vector2, b: Vector2): (r: Vector2)
    ensures Sub(r, b) == a && Sub(r, a) == b
  {
    Vector2(a.x + b.x, a.y + b.y)
  }

  /** `Sub` (on values and on references): component-wise difference; it is the zero
      vector exactly when the two vectors are equal. */
  function Sub(a: Vector2, b: Vector2): (r: Vector2)
    ensures r == Zero <==> a == b
  {
    Vector2(a.x - b.x, a.y - b.y)
  }

  /** `Mul<f64>`: scaling by a scalar; 1 keeps the vector, and a zero factor or a zero
      vector gives the zero vector. */
  function Scale(v: Vector2, k: real): (r: Vector2)
    ensures k == 1.0 ==> r == v
  {
    Vector2(v.x * k, v.y * k)
  }

  /** `Vector2::dot`: a vector dotted with itself is its squared length, and anything
      dotted with the zero vector is 0. */
  function Dot(a: Vector2, b: Vector2): (r: real)
    ensures a == b ==> r == LengthSqr(a)
    ensures a == Zero || b == Zero ==> r == 0.0
  {
    a.x * b.x + a.y * b.y
  }

  /** `Mul<Vector2>`: the `*` of two vectors is their dot product, in either order. */
  function Product(a: Vector2, b: Vector2): (r: real)
    ensures r == Dot(b, a)
  {
    Dot(a, b)
  }

  /** `Neg`: written in the source as scaling by -1. */
  function Neg(v: Vector2): (r: Vector2)
    ensures r.x == -v.x && r.y == -v.y
  {
    Scale(v, -1.0)
  }

  /** `Vector2::length_sqr`: never negative. */
  function LengthSqr(v: Vector2): (r: real)
    ensures 0.0 <= r
  {
    SquareNonNegative(v.x);
    SquareNonNegative(v.y);
    v.x * v.x + v.y * v.y
  }

  lemma SquareNonNegative(a: real)
    ensures 0.0 <= a * a
  {
    if a < 0.0 {
      assert 0.0 < (-a) * (-a);
    }
  }

  /** A vector is non-zero exactly when its squared length is positive; the model
      states "non-zero" as `NonZero`, in the form the length arithmetic uses. */
  predicate NonZero(v: Vector2)
  {
    0.0 < LengthSqr(v)
  }

  lemma NonZeroIff(v: Vector2)
    ensures NonZero(v) <==> v != Zero
  {
    SquareNonNegative(v.x);
    SquareNonNegative(v.y);
    if v.x != 0.0 {
      calc {
        LengthSqr(v);
      ==
        v.x * v.x + v.y * v.y;
      >=
        v.x * v.x;
      >
        0.0;
      }
    } else if v.y != 0.0 {
      calc {
        LengthSqr(v);
      ==
        v.x * v.x + v.y * v.y;
      >=
        v.y * v.y;
      >
        0.0;
      }
    }
  }

  /** `Vector2::length`: the square root of `length_sqr`. */
  function Length(sqrt: real -> real, v: Vector2): (r: real)
    requires IsSqrt(sqrt)
    ensures 0.0 <= r && r * r == LengthSqr(v)
    ensures NonZero(v) ==> 0.0 < r
  {
    SqrtPositive(sqrt, LengthSqr(v));
    sqrt(LengthSqr(v))
  }

  /** `Vector2::norm`: divides by the length, so the zero vector is excluded. */
  function Norm(sqrt: real -> real, v: Vector2): (r: Vector2)
    requires IsSqrt(sqrt) && NonZero(v)
    ensures Length(sqrt, r) == 1.0
    ensures exists k :: 0.0 < k && r == Scale(v, k)
  {
    var len := Length(sqrt, v);
    var k := 1.0 / len;
    assert 0.0 < len;
    assert 0.0 < k;
    LengthScale(sqrt, v, k);
    Scale(v, k)
  }

  /** The corrected clamp below divides by the length only when the vector is zero and
      the limit negative (the f64 code then yields NaN); this excludes that case. */
  predicate ClampDefined(v: Vector2, limit: real)
  {
    0.0 <= limit || NonZero(v)
  }

  /** `Rem<f64>`, the `%` operator: despite its name, a clamp of the length to `limit`.
      This is the corrected clamp the rest of the model uses: a vector no longer than the
      limit is returned as it is; otherwise it is rescaled to the limit. */
  function Clamp(sqrt: real -> real, v: Vector2, limit: real): (r: Vector2)
    requires IsSqrt(sqrt) && ClampDefined(v, limit)
    ensures 0.0 <= limit ==> Length(sqrt, r) <= limit
  {
    var mag := Length(sqrt, v);
    if mag <= limit then v
    else
      LengthScale(sqrt, v, limit / mag);
      Scale(v, limit / mag)
  }

  /** The cases in which `Rem<f64>` as written yields real numbers: it rescales whenever the
      length is not strictly below the limit, so a zero vector needs a positive limit. */
  predicate ClampDefinedAsWritten(v: Vector2, limit: real)
  {
    0.0 < limit || NonZero(v)
  }

  /** `Rem<f64>` as written, with the strict comparison; wherever it yields real numbers it
      agrees with the corrected `Clamp`. */
  function ClampAsWritten(sqrt: real -> real, v: Vector2, limit: real): (r: Vector2)
    requires IsSqrt(sqrt) && ClampDefinedAsWritten(v, limit)
    ensures ClampDefined(v, limit) && r == Clamp(sqrt, v, limit)
  {
    var mag := Length(sqrt, v);
    if mag < limit then v
    else
      assert mag == limit ==> limit / mag == 1.0 && Scale(v, limit / mag) == v;
      Scale(v, limit / mag)
  }

  /** As written, clamping twice to the limit 0 divides zero by zero: the first clamp maps
      (1, 0) to the zero vector, and the second then rescales the zero vector. */
  lemma ClampTwiceAtZeroAsWritten(sqrt: real -> real)
    requires IsSqrt(sqrt)
    ensures ClampAsWritten(sqrt, Vector2(1.0, 0.0), 0.0) == Zero
    ensures !ClampDefinedAsWritten(Zero, 0.0)
  {
  }

  /** Clamping a non-zero vector to the limit 0 gives the zero vector. */
  lemma ClampToZero(sqrt: real -> real, v: Vector2)
    requires IsSqrt(sqrt) && NonZero(v)
    ensures ClampAsWritten(sqrt, v, 0.0) == Zero
  {
    assert 0.0 / Length(sqrt, v) == 0.0;
  }

  lemma ScaleZero(k: real)
    ensures Scale(Zero, k) == Zero
  {
  }

  /** `Vector2::mag`, called by the steering code but not defined in this revision:
      scales a non-zero vector to the given length. */
  function Mag(sqrt: real -> real, v: Vector2, len: real): (r: Vector2)
    requires IsSqrt(sqrt) && NonZero(v)
    ensures 0.0 <= len ==> Length(sqrt, r) == len
    ensures 0.0 < len ==> exists k :: 0.0 < k && r == Scale(v, k)
  {
    var l := Length(sqrt, v);
    LengthScale(sqrt, v, len / l);
    assert 0.0 < len ==> 0.0 < len / l;
    Scale(v, len / l)
  }

  /** `AddAssign`: `a += b` updates the two coordinates one after the other. */
  method AddAssign(v: Vector2, rhs: Vector2) returns (v': Vector2)
    ensures v' == Add(v, rhs)
  {
    v' := v;
    v' := v'.(x := v'.x + rhs.x);
    v' := v'.(y := v'.y + rhs.y);
  }

  /** `RemAssign`: `v %= limit` clamps in place, with the length taken once before both
      updates; it agrees with the value form `%` as written. */
  method RemAssign(sqrt: real -> real, v: Vector2, limit: real) returns (v': Vector2)
    requires IsSqrt(sqrt) && ClampDefinedAsWritten(v, limit)
    ensures v' == ClampAsWritten(sqrt, v, limit)
  {
    v' := v;
    var mag := Length(sqrt, v');
    if mag < limit {
      return;
    }
    v' := v'.(x := v'.x * (limit / mag));
    v' := v'.(y := v'.y * (limit / mag));
  }

  // ---------------------------------------------------------------------------
  // Laws of the kernel

  lemma SubAddCancel(a: Vector2, b: Vector2)
    ensures Add(Sub(a, b), b) == a
  {
  }

  lemma DotSymmetric(a: Vector2, b: Vector2)
    ensures Dot(a, b) == Dot(b, a)
  {
  }

  lemma NegInvolutive(v: Vector2)
    ensures Neg(Neg(v)) == v
  {
  }

  /** Scaling by `k` multiplies the length by `|k|`. */
  lemma LengthScale(sqrt: real -> real, v: Vector2, k: real)
    requires IsSqrt(sqrt)
    ensures Length(sqrt, Scale(v, k)) == Abs(k) * Length(sqrt, v)
  {
    var l := Length(sqrt, v);
    var a := Abs(k);
    MulNonNegative(a, l);
    calc {
      (a * l) * (a * l);
    ==  { ProductSquare(a, l); }
      (a * a) * (l * l);
    ==  { assert a * a == k * k; }
      k * k * LengthSqr(v);
    ==  { LengthSqrScale(v, k); }
      LengthSqr(Scale(v, k));
    }
    SqrtUnique(sqrt, LengthSqr(Scale(v, k)), a * l);
  }

  lemma MulNonNegative(a: real, b: real)
    requires 0.0 <= a && 0.0 <= b
    ensures 0.0 <= a * b
  {
  }

  lemma LengthSqrScale(v: Vector2, k: real)
    ensures LengthSqr(Scale(v, k)) == k * k * LengthSqr(v)
  {
    assert (v.x * k) * (v.x * k) == k * k * (v.x * v.x);
    assert (v.y * k) * (v.y * k) == k * k * (v.y * v.y);
  }

  lemma ProductSquare(a: real, b: real)
    ensures (a * b) * (a * b) == (a * a) * (b * b)
  {
  }

  /** Negation keeps the length. */
  lemma LengthNeg(sqrt: real -> real, v: Vector2)
    requires IsSqrt(sqrt)
    ensures Length(sqrt, Neg(v)) == Length(sqrt, v)
  {
    assert LengthSqr(Neg(v)) == LengthSqr(v);
  }

  /** The clamp leaves a vector no longer than the limit alone. */
  lemma ClampShort(sqrt: real -> real, v: Vector2, limit: real)
    requires IsSqrt(sqrt) && Length(sqrt, v) <= limit
    ensures Clamp(sqrt, v, limit) == v
  {
  }

  /** A non-zero vector at least as long as a non-negative limit becomes a non-negative
      multiple of itself whose length is exactly the limit. */
  lemma ClampLong(sqrt: real -> real, v: Vector2, limit: real)
    requires IsSqrt(sqrt) && NonZero(v) && 0.0 <= limit <= Length(sqrt, v)
    ensures Length(sqrt, Clamp(sqrt, v, limit)) == limit
    ensures exists k :: 0.0 <= k && Clamp(sqrt, v, limit) == Scale(v, k)
  {
    var mag := Length(sqrt, v);
    if mag == limit {
      assert Clamp(sqrt, v, limit) == Scale(v, 1.0);
    } else {
      LengthScale(sqrt, v, limit / mag);
      assert Clamp(sqrt, v, limit) == Scale(v, limit / mag);
    }
  }

  /** Clamping twice to the same non-negative limit is clamping once. */
  lemma ClampIdempotent(sqrt: real -> real, v: Vector2, limit: real)
    requires IsSqrt(sqrt) && 0.0 <= limit
    ensures Clamp(sqrt, Clamp(sqrt, v, limit), limit) == Clamp(sqrt, v, limit)
  {
  }

  /** Clamping commutes with negation. */
  lemma ClampNeg(sqrt: real -> real, v: Vector2, limit: real)
    requires IsSqrt(sqrt) && ClampDefined(v, limit)
    ensures ClampDefined(Neg(v), limit)
    ensures Clamp(sqrt, Neg(v), limit) == Neg(Clamp(sqrt, v, limit))
  {
    LengthNeg(sqrt, v);
  }

  /** `-v` is `v * -1.0`, and the two kinds of `*` agree with the dot product and scaling. */
  lemma NegIsScale(v: Vector2)
    ensures Neg(v) == Scale(v, -1.0) && Neg(v) == Sub(Zero, v)
  {
  }

  /** The dot product of two unit vectors from `norm` is the cosine of their angle:
      the dot product divided by both lengths. */
  lemma DotNorm(sqrt: real -> real, a: Vector2, b: Vector2)
    requires IsSqrt(sqrt) && NonZero(a) && NonZero(b)
    ensures Dot(Norm(sqrt, a), Norm(sqrt, b)) * (Length(sqrt, a) * Length(sqrt, b)) == Dot(a, b)
  {
    var la, lb := Length(sqrt, a), Length(sqrt, b);
    var p, q := 1.0 / la, 1.0 / lb;
    assert (a.x * p) * (b.x * q) == p * q * (a.x * b.x);
    assert (a.y * p) * (b.y * q) == p * q * (a.y * b.y);
    calc {
      Dot(Scale(a, p), Scale(b, q));
    ==
      (a.x * p) * (b.x * q) + (a.y * p) * (b.y * q);
    ==
      p * q * (a.x * b.x) + p * q * (a.y * b.y);
    ==
      p * q * (a.x * b.x + a.y * b.y);
    ==
      p * q * Dot(a, b);
    }
    assert p * q * (la * lb) == (p * la) * (q * lb);
  }
}
