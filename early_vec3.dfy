/**
 * The earlier snapshot of the vector type in ray_tracer/src/vec3.rs: a
 * constructor, `length_squared`, `+` and `+=`. Its `+=` adds the right-hand
 * side's x component to all three components; the model keeps that as it is
 * and sets it against `+`.
 */
module EarlyVec3 {
  datatype Vec3 = Vec3(x: real, y: real, z: real)

  /** `Vec3::new(x, y, z)` stores exactly the three components, in order. */
  function New(x: real, y: real, z: real): (v: Vec3)
    ensures v.x == x && v.y == y && v.z == z
  {
    Vec3(x, y, z)
  }

  /** `length_squared`: a sum of squares, never negative, zero for the zero vector. */
  function LengthSquared(v: Vec3): (r: real)
    ensures r >= 0.0
    ensures v == Vec3(0.0, 0.0, 0.0) ==> r == 0.0
  {
    v.x * v.x + v.y * v.y + v.z * v.z
  }

  /** `impl Add for Vec3`. */
  function Add(u: Vec3, v: Vec3): Vec3 {
    Vec3(u.x + v.x, u.y + v.y, u.z + v.z)
  }

  /** `+` is commutative and has the zero vector as its identity. */
  lemma AddIsCommutativeWithIdentity(u: Vec3, v: Vec3)
    ensures Add(u, v) == Add(v, u)
    ensures Add(u, Vec3(0.0, 0.0, 0.0)) == u
  {
  }

  /** The snapshot's test: (1, 2, 3) + (1, 2, 3) == (2, 4, 6). */
  lemma AddExample()
    ensures Add(New(1.0, 2.0, 3.0), New(1.0, 2.0, 3.0)) == New(2.0, 4.0, 6.0)
  {
  }

  /** What `v += rhs` leaves in `v`, as the snapshot writes it: `rhs.x` goes into every component. */
  function AddAssignAsWritten(v: Vec3, rhs: Vec3): Vec3 {
    Vec3(v.x + rhs.x, v.y + rhs.x, v.z + rhs.x)
  }

  /** A `Vec3` place updated in place by `+=`. */
  class Vec3Cell {
    var x: real
    var y: real
    var z: real

    function Value(): Vec3
      reads this
    {
      Vec3(x, y, z)
    }

    constructor (v: Vec3)
      ensures Value() == v
    {
      x, y, z := v.x, v.y, v.z;
    }

    /** `impl AddAssign for Vec3` as written in the snapshot. */
    method AddAssign(rhs: Vec3)
      modifies this
      ensures Value() == AddAssignAsWritten(old(Value()), rhs)
    {
      x := x + rhs.x;
      y := y + rhs.x;
      z := z + rhs.x;
    }
  }

  /**
   * The snapshot's `+=` agrees with its `+` exactly when the right-hand side
   * has three equal components.
   */
  lemma AddAssignAgreesWithAddIff(v: Vec3, rhs: Vec3)
    ensures AddAssignAsWritten(v, rhs) == Add(v, rhs) <==> rhs.y == rhs.x && rhs.z == rhs.x
  {
    if AddAssignAsWritten(v, rhs) == Add(v, rhs) {
      assert v.y + rhs.x == v.y + rhs.y;
      assert v.z + rhs.x == v.z + rhs.z;
    }
  }

  /** The input of the snapshot's own test: `v += (1, 2, 3)` gives (2, 3, 4), not (2, 4, 6). */
  lemma AddAssignDisagreesWithAdd()
    ensures AddAssignAsWritten(New(1.0, 2.0, 3.0), New(1.0, 2.0, 3.0)) == New(2.0, 3.0, 4.0)
    ensures AddAssignAsWritten(New(1.0, 2.0, 3.0), New(1.0, 2.0, 3.0)) != Add(New(1.0, 2.0, 3.0), New(1.0, 2.0, 3.0))
  {
  }

  /** The same discrepancy through the in-place update. */
  method AddAssignExample() {
    var v := new Vec3Cell(New(1.0, 2.0, 3.0));
    v.AddAssign(New(1.0, 2.0, 3.0));
    assert v.Value() == Vec3(2.0, 3.0, 4.0);
    assert v.Value() != Add(New(1.0, 2.0, 3.0), New(1.0, 2.0, 3.0));
  }
}
