/**
 * Three-component vectors over the reals (src/vector3.rs). One type stands for
 * points, directions and colours, as `Point3` and `Colour` do in the source.
 * `f64` becomes `real`; the square root is a caller-supplied function `sqrt`,
 * and the random source is a caller-supplied stream of candidate draws.
 */
module Vector3 {
  import opened Options
  import opened RealArith

  datatype Vec3 = Vec3(x: real, y: real, z: real)

  /** `Vec3::default()`, also `Point3::default()` and `Colour::default()`. */
  const Zero := Vec3(0.0, 0.0, 0.0)

  /** Threshold of `near_zero`. */
  const NearZeroBound: real := 0.00000001

  // ---------------------------------------------------------------------------
  // Binary operators

  /** `impl Add for Vec3`. */
  function Add(u: Vec3, v: Vec3): Vec3 {
    Vec3(u.x + v.x, u.y + v.y, u.z + v.z)
  }

  /** `impl Sub for Vec3`: the inverse of `Add`. */
  function Sub(u: Vec3, v: Vec3): (r: Vec3)
    ensures Add(r, v) == u
  {
    Vec3(u.x - v.x, u.y - v.y, u.z - v.z)
  }

  /** `impl Neg for Vec3`: the additive inverse. */
  function Neg(v: Vec3): (r: Vec3)
    ensures Add(v, r) == Zero
  {
    Vec3(-v.x, -v.y, -v.z)
  }

  /** `impl Mul<f64> for Vec3`, `v * s`. */
  function Scale(v: Vec3, s: real): Vec3 {
    Vec3(v.x * s, v.y * s, v.z * s)
  }

  /** `impl Mul<Vec3> for f64`, `s * v`: agrees with `v * s`. */
  function ScaleLeft(s: real, v: Vec3): (r: Vec3)
    ensures r == Scale(v, s)
  {
    Vec3(v.x * s, v.y * s, v.z * s)
  }

  /** `impl Div<f64> for Vec3`: undoes `Scale` by the same non-zero factor. */
  function Div(v: Vec3, s: real): (r: Vec3)
    requires s != 0.0
    ensures Scale(r, s) == v
  {
    Vec3(v.x / s, v.y / s, v.z / s)
  }

  /** `impl Mul<Vec3> for Vec3`: component-wise product (colour attenuation). */
  function Mul(u: Vec3, v: Vec3): Vec3 {
    Vec3(u.x * v.x, u.y * v.y, u.z * v.z)
  }

  // ---------------------------------------------------------------------------
  // Products, lengths and directions

  /** `Vec3::dot`. */
  function Dot(u: Vec3, v: Vec3): real {
    u.x * v.x + u.y * v.y + u.z * v.z
  }

  /** `Vec3::length_squared`: the dot product of a vector with itself, never negative. */
  function LengthSquared(v: Vec3): (r: real)
    ensures r >= 0.0
    ensures r == Dot(v, v)
  {
    v.x * v.x + v.y * v.y + v.z * v.z
  }

  /** `Vec3::length`. */
  function Length(v: Vec3, sqrt: real -> real): real {
    sqrt(LengthSquared(v))
  }

  /** `Vec3::normalized`; the source divides by zero for a zero length. */
  function Normalized(v: Vec3, sqrt: real -> real): Vec3
    requires Length(v, sqrt) != 0.0
  {
    Div(v, Length(v, sqrt))
  }

  /** `Vec3::cross`: the result is orthogonal to both arguments. */
  function Cross(u: Vec3, v: Vec3): (r: Vec3)
    ensures Dot(r, u) == 0.0 && Dot(r, v) == 0.0
  {
    Vec3(u.y * v.z - u.z * v.y,
         u.z * v.x - u.x * v.z,
         u.x * v.y - u.y * v.x)
  }

  /**
   * `Vec3::reflect`: about a unit normal the normal component changes sign,
   * and a vector parallel to the surface is left as it is.
   */
  function Reflect(v: Vec3, n: Vec3): (r: Vec3)
    ensures Dot(n, n) == 1.0 ==> Dot(r, n) == -Dot(v, n)
    ensures Dot(v, n) == 0.0 ==> r == v
  {
    var r := Sub(v, ScaleLeft(2.0 * Dot(v, n), n));
    DotScaleLeft(v, n, 2.0 * Dot(v, n));
    r
  }

  /** The clamped cosine `min(dot(-v, n), 1.0)` that `refract` starts from. */
  function CosTheta(v: Vec3, n: Vec3): (c: real)
    ensures c <= 1.0 && c <= Dot(Neg(v), n)
    ensures c == 1.0 || c == Dot(Neg(v), n)
  {
    var d := Dot(Neg(v), n);
    if d < 1.0 then d else 1.0
  }

  /** `Vec3::refract` with the ratio `etai_over_etat` of refractive indices. */
  function Refract(v: Vec3, n: Vec3, etaiOverEtat: real, sqrt: real -> real): Vec3 {
    var cosTheta := CosTheta(v, n);
    var rOutPerp := ScaleLeft(etaiOverEtat, Add(v, ScaleLeft(cosTheta, n)));
    var rOutParallel := ScaleLeft(-sqrt(Abs(1.0 - LengthSquared(rOutPerp))), n);
    Add(rOutPerp, rOutParallel)
  }

  /** `Vec3::near_zero`: every component below 1e-8 in absolute value. */
  predicate NearZero(v: Vec3) {
    Abs(v.x) < NearZeroBound && Abs(v.y) < NearZeroBound && Abs(v.z) < NearZeroBound
  }

  // ---------------------------------------------------------------------------
  // Rejection samplers. The source loops until a draw is accepted; here the
  // draws are a finite stream supplied by the caller, and `None` means that
  // the stream ran out before any draw was accepted.

  /**
   * `Vec3::random_in_unit_sphere`: the first candidate (a point drawn with
   * every component in [-1, 1]) strictly inside the unit sphere.
   */
  method RandomInUnitSphere(candidates: seq<Vec3>) returns (p: Option<Vec3>)
    ensures p.Some? ==> LengthSquared(p.value) < 1.0
    ensures p.Some? ==> exists k :: 0 <= k < |candidates| && candidates[k] == p.value &&
                          forall j :: 0 <= j < k ==> LengthSquared(candidates[j]) >= 1.0
    ensures p.None? <==> forall j :: 0 <= j < |candidates| ==> LengthSquared(candidates[j]) >= 1.0
  {
    var i := 0;
    while i < |candidates|
      invariant 0 <= i <= |candidates|
      invariant forall j :: 0 <= j < i ==> LengthSquared(candidates[j]) >= 1.0
    {
      var q := candidates[i];
      if LengthSquared(q) >= 1.0 {
        i := i + 1;
        continue;
      }
      return Some(q);
    }
    return None;
  }

  /**
   * `Vec3::random_unit_vector`: the point accepted by `random_in_unit_sphere`,
   * normalized. The source divides by its length, so the accepted point (the
   * first candidate inside the sphere) must not have length zero; later
   * candidates are never looked at.
   */
  method RandomUnitVector(candidates: seq<Vec3>, sqrt: real -> real) returns (u: Option<Vec3>)
    requires forall j ::
               (0 <= j < |candidates| && LengthSquared(candidates[j]) < 1.0 &&
                (forall i :: 0 <= i < j ==> LengthSquared(candidates[i]) >= 1.0))
               ==> Length(candidates[j], sqrt) != 0.0
    ensures u.Some? ==> exists k :: 0 <= k < |candidates| && LengthSquared(candidates[k]) < 1.0 &&
                          Length(candidates[k], sqrt) != 0.0 && u.value == Normalized(candidates[k], sqrt) &&
                          forall j :: 0 <= j < k ==> LengthSquared(candidates[j]) >= 1.0
    ensures u.None? <==> forall j :: 0 <= j < |candidates| ==> LengthSquared(candidates[j]) >= 1.0
  {
    var p := RandomInUnitSphere(candidates);
    if p.Some? {
      u := Some(Normalized(p.value, sqrt));
    } else {
      u := None;
    }
  }

  /**
   * `Vec3::random_in_unit_disk`: each candidate is the pair of draws for x and
   * y; z is always 0. Returns the first point strictly inside the unit disk.
   */
  method RandomInUnitDisk(candidates: seq<(real, real)>) returns (p: Option<Vec3>)
    ensures p.Some? ==> LengthSquared(p.value) < 1.0 && p.value.z == 0.0
    ensures p.Some? ==> exists k :: 0 <= k < |candidates| && p.value == Vec3(candidates[k].0, candidates[k].1, 0.0) &&
                          forall j :: 0 <= j < k ==> LengthSquared(Vec3(candidates[j].0, candidates[j].1, 0.0)) >= 1.0
    ensures p.None? <==> forall j :: 0 <= j < |candidates| ==> LengthSquared(Vec3(candidates[j].0, candidates[j].1, 0.0)) >= 1.0
  {
    var i := 0;
    while i < |candidates|
      invariant 0 <= i <= |candidates|
      invariant forall j :: 0 <= j < i ==> LengthSquared(Vec3(candidates[j].0, candidates[j].1, 0.0)) >= 1.0
    {
      var q := Vec3(candidates[i].0, candidates[i].1, 0.0);
      if LengthSquared(q) >= 1.0 {
        i := i + 1;
        continue;
      } else {
        return Some(q);
      }
    }
    return None;
  }

  // ---------------------------------------------------------------------------
  // Compound assignment

  /** A `Vec3` place that `+=`, `*=` and `/=` update in place through `&mut self`. */
  class Vec3Cell {
    var x: real
    var y: real
    var z: real

    function Value(): Vec3
      reads this
    {
      Vec3(x, y, z)
    }

    constructor (v: Vec3)
      ensures Value() == v
    {
      x, y, z := v.x, v.y, v.z;
    }

    /** `impl AddAssign for Vec3`: `v += w` leaves `v == old(v) + w`. */
    method AddAssign(rhs: Vec3)
      modifies this
      ensures Value() == Add(old(Value()), rhs)
    {
      x := x + rhs.x;
      y := y + rhs.y;
      z := z + rhs.z;
    }

    /** `impl MulAssign<f64> for Vec3`: `v *= s` leaves `v == old(v) * s`. */
    method MulAssign(rhs: real)
      modifies this
      ensures Value() == Scale(old(Value()), rhs)
    {
      x := x * rhs;
      y := y * rhs;
      z := z * rhs;
    }

    /** `impl DivAssign<f64> for Vec3`: `v /= s` leaves `v == old(v) / s`. */
    method DivAssign(rhs: real)
      requires rhs != 0.0
      modifies this
      ensures Value() == Div(old(Value()), rhs)
    {
      x := x / rhs;
      y := y / rhs;
      z := z / rhs;
    }
  }

  /** The source's `add_assign` test, as a client of `Vec3Cell`. */
  method AddAssignExamples() {
    var v1 := new Vec3Cell(Vec3(1.0, 2.0, 3.0));
    var v2 := new Vec3Cell(Vec3(-2.0, 0.0, 2.0));
    v1.AddAssign(v2.Value());
    assert v1.Value() == Vec3(-1.0, 2.0, 5.0);
    v2.AddAssign(Vec3(-3.0, -6.0, -9.0));
    assert v2.Value() == Vec3(-5.0, -6.0, -7.0);
  }

  /** The source's `mul_assign` and `multiply_by_float` tests. */
  method MulAssignExamples() {
    var v := new Vec3Cell(Vec3(1.0, 2.0, 3.0));
    v.MulAssign(2.0);
    assert v.Value() == Vec3(2.0, 4.0, 6.0);

    var v1 := new Vec3Cell(Vec3(1.0, 2.0, 3.0));
    v1.MulAssign(-3.0);
    var v2 := new Vec3Cell(Vec3(-2.0, 0.0, 2.0));
    v2.MulAssign(2.0);
    assert v1.Value() == Vec3(-3.0, -6.0, -9.0);
    assert v2.Value() == Vec3(-4.0, 0.0, 4.0);
  }

  /** The source's `div_assign` and `divide_by_float` tests. */
  method DivAssignExamples() {
    var v := new Vec3Cell(Vec3(2.0, 4.0, 6.0));
    v.DivAssign(2.0);
    assert v.Value() == Vec3(1.0, 2.0, 3.0);

    var v1 := new Vec3Cell(Vec3(3.0, 6.0, 9.0));
    v1.DivAssign(-3.0);
    assert v1.Value() == Vec3(-1.0, -2.0, -3.0);
    var v2 := new Vec3Cell(Vec3(-2.0, 0.0, 2.0));
    v2.DivAssign(2.0);
    assert v2.Value() == Vec3(-1.0, 0.0, 1.0);
  }

  // ---------------------------------------------------------------------------
  // Lemmas

  lemma DotScaleLeft(v: Vec3, n: Vec3, s: real)
    ensures Dot(Sub(v, ScaleLeft(s, n)), n) == Dot(v, n) - s * Dot(n, n)
  {
    assert (v.x - n.x * s) * n.x == v.x * n.x - s * (n.x * n.x);
    assert (v.y - n.y * s) * n.y == v.y * n.y - s * (n.y * n.y);
    assert (v.z - n.z * s) * n.z == v.z * n.z - s * (n.z * n.z);
  }

  lemma DotNeg(v: Vec3, n: Vec3)
    ensures Dot(Neg(v), n) == -Dot(v, n)
  {
  }

  lemma LengthSquaredOfDifference(u: Vec3, w: Vec3)
    ensures LengthSquared(Sub(u, w)) == LengthSquared(u) - 2.0 * Dot(u, w) + LengthSquared(w)
  {
    assert (u.x - w.x) * (u.x - w.x) == u.x * u.x - 2.0 * (u.x * w.x) + w.x * w.x;
    assert (u.y - w.y) * (u.y - w.y) == u.y * u.y - 2.0 * (u.y * w.y) + w.y * w.y;
    assert (u.z - w.z) * (u.z - w.z) == u.z * u.z - 2.0 * (u.z * w.z) + w.z * w.z;
  }

  lemma LengthSquaredOfSum(u: Vec3, w: Vec3)
    ensures LengthSquared(Add(u, w)) == LengthSquared(u) + 2.0 * Dot(u, w) + LengthSquared(w)
  {
    assert (u.x + w.x) * (u.x + w.x) == u.x * u.x + 2.0 * (u.x * w.x) + w.x * w.x;
    assert (u.y + w.y) * (u.y + w.y) == u.y * u.y + 2.0 * (u.y * w.y) + w.y * w.y;
    assert (u.z + w.z) * (u.z + w.z) == u.z * u.z + 2.0 * (u.z * w.z) + w.z * w.z;
  }

  lemma DotScaled(u: Vec3, n: Vec3, c: real)
    ensures Dot(u, ScaleLeft(c, n)) == c * Dot(u, n)
    ensures LengthSquared(ScaleLeft(c, n)) == c * c * LengthSquared(n)
  {
    assert u.x * (n.x * c) + u.y * (n.y * c) + u.z * (n.z * c) == c * (u.x * n.x + u.y * n.y + u.z * n.z);
    assert (n.x * c) * (n.x * c) + (n.y * c) * (n.y * c) + (n.z * c) * (n.z * c)
        == c * c * (n.x * n.x + n.y * n.y + n.z * n.z);
  }

  /** The source's operator tests: each operator acts component by component. */
  lemma OperatorExamples()
    ensures Add(Vec3(1.0, 2.0, 3.0), Vec3(1.0, 2.0, 3.0)) == Vec3(2.0, 4.0, 6.0)
    ensures Neg(Vec3(1.0, 2.0, 3.0)) == Vec3(-1.0, -2.0, -3.0)
    ensures Neg(Vec3(-2.0, 0.0, 2.0)) == Vec3(2.0, 0.0, -2.0)
    ensures Scale(Vec3(1.0, 2.0, 3.0), 3.0) == Vec3(3.0, 6.0, 9.0)
    ensures Div(Vec3(3.0, 6.0, 9.0), 3.0) == Vec3(1.0, 2.0, 3.0)
    ensures Cross(Vec3(2.0, 3.0, 4.0), Vec3(5.0, 6.0, 7.0)) == Vec3(-3.0, 6.0, -3.0)
    ensures !NearZero(Vec3(0.003, 0.003505, 0.9))
    ensures NearZero(Vec3(0.000000009, 0.000000006, 0.000000001))
  {
  }

  /**
   * `+` is commutative and associative with `Vec3::default()` as identity,
   * every vector has its negation as inverse, and `-` adds the negation.
   */
  lemma AddLaws(u: Vec3, v: Vec3, w: Vec3)
    ensures Add(u, v) == Add(v, u)
    ensures Add(Add(u, v), w) == Add(u, Add(v, w))
    ensures Add(u, Zero) == u
    ensures Add(u, Neg(u)) == Zero
    ensures Sub(u, v) == Add(u, Neg(v))
  {
  }

  /**
   * `v * s` distributes over `+` of vectors and of factors, composes by
   * multiplying the factors, has 1 as identity, and `-v` is `v * -1`.
   */
  lemma ScaleLaws(u: Vec3, v: Vec3, s: real, t: real)
    ensures Scale(Add(u, v), s) == Add(Scale(u, s), Scale(v, s))
    ensures Scale(u, s + t) == Add(Scale(u, s), Scale(u, t))
    ensures Scale(Scale(u, s), t) == Scale(u, s * t)
    ensures Scale(u, 1.0) == u && Scale(u, 0.0) == Zero
    ensures Neg(u) == Scale(u, -1.0)
  {
    ScaleDistributes(u, v, s, t);
    ScaleComposes(u, s, t);
  }

  lemma ScaleDistributes(u: Vec3, v: Vec3, s: real, t: real)
    ensures Scale(Add(u, v), s) == Add(Scale(u, s), Scale(v, s))
    ensures Scale(u, s + t) == Add(Scale(u, s), Scale(u, t))
  {
    assert (u.x + v.x) * s == u.x * s + v.x * s;
    assert (u.y + v.y) * s == u.y * s + v.y * s;
    assert (u.z + v.z) * s == u.z * s + v.z * s;
    assert u.x * (s + t) == u.x * s + u.x * t;
    assert u.y * (s + t) == u.y * s + u.y * t;
    assert u.z * (s + t) == u.z * s + u.z * t;
  }

  lemma ScaleComposes(u: Vec3, s: real, t: real)
    ensures Scale(Scale(u, s), t) == Scale(u, s * t)
  {
    assert (u.x * s) * t == u.x * (s * t);
    assert (u.y * s) * t == u.y * (s * t);
    assert (u.z * s) * t == u.z * (s * t);
  }

  /**
   * `s * v` agrees with `v * s`, multiplies every dot product with `v` by `s`
   * and the squared length of `v` by `s^2`.
   */
  lemma ScaleLeftLaws(s: real, u: Vec3, v: Vec3)
    ensures ScaleLeft(s, v) == Scale(v, s)
    ensures Dot(u, ScaleLeft(s, v)) == s * Dot(u, v)
    ensures LengthSquared(ScaleLeft(s, v)) == s * s * LengthSquared(v)
  {
    DotScaled(u, v, s);
  }

  /** The component-wise product is commutative, has (1, 1, 1) as identity, and scales by a constant vector. */
  lemma MulLaws(u: Vec3, v: Vec3, s: real)
    ensures Mul(u, v) == Mul(v, u)
    ensures Mul(u, Vec3(1.0, 1.0, 1.0)) == u
    ensures Mul(u, Vec3(s, s, s)) == Scale(u, s)
  {
  }

  /**
   * `dot` is symmetric and linear in each argument, and `dot(v, v)` vanishes
   * only for the zero vector.
   */
  lemma DotLaws(u: Vec3, v: Vec3, w: Vec3, s: real)
    ensures Dot(u, v) == Dot(v, u)
    ensures Dot(Add(u, v), w) == Dot(u, w) + Dot(v, w)
    ensures Dot(Scale(u, s), v) == s * Dot(u, v)
    ensures Dot(u, u) == 0.0 <==> u == Zero
  {
    DotAdditive(u, v, w);
    DotScaled(v, u, s);
    DotSelfZero(u);
  }

  lemma DotAdditive(u: Vec3, v: Vec3, w: Vec3)
    ensures Dot(Add(u, v), w) == Dot(u, w) + Dot(v, w)
  {
  }

  lemma DotSelfZero(u: Vec3)
    ensures Dot(u, u) == 0.0 <==> u == Zero
  {
    if Dot(u, u) == 0.0 {
      SumOfSquaresZero(u.x, u.y, u.z);
    }
  }

  /** `near_zero` holds exactly when every component lies strictly between -1e-8 and 1e-8. */
  lemma NearZeroComponents(v: Vec3)
    ensures NearZero(v) <==> (-NearZeroBound < v.x < NearZeroBound && -NearZeroBound < v.y < NearZeroBound &&
                              -NearZeroBound < v.z < NearZeroBound)
  {
  }

  /** A near-zero vector is short: its squared length is below 3e-16. */
  lemma NearZeroIsShort(v: Vec3)
    requires NearZero(v)
    ensures LengthSquared(v) < 0.0000000000000003
  {
    assert NearZeroBound * NearZeroBound == 0.0000000000000001;
    SquareBelow(v.x, NearZeroBound);
    SquareBelow(v.y, NearZeroBound);
    SquareBelow(v.z, NearZeroBound);
  }

  /** Conversely, a vector with squared length below `1e-16` is near zero. */
  lemma ShortIsNearZero(v: Vec3)
    requires LengthSquared(v) < NearZeroBound * NearZeroBound
    ensures NearZero(v)
  {
    ComponentBelow(v.x, v.y, v.z, NearZeroBound);
    ComponentBelow(v.y, v.x, v.z, NearZeroBound);
    ComponentBelow(v.z, v.x, v.y, NearZeroBound);
  }

  /** Reflecting twice about the same unit normal gives back the original vector. */
  lemma ReflectInvolution(v: Vec3, n: Vec3)
    requires Dot(n, n) == 1.0
    ensures Reflect(Reflect(v, n), n) == v
  {
    var d := Dot(v, n);
    var r := Reflect(v, n);
    assert Dot(r, n) == -d;
    assert Reflect(r, n) == Sub(r, ScaleLeft(2.0 * -d, n));
  }

  /**
   * Reflection about a unit normal keeps the part along the surface: only the
   * normal component changes (its sign, by the contract of `Reflect`).
   */
  lemma ReflectKeepsTangent(v: Vec3, n: Vec3)
    requires Dot(n, n) == 1.0
    ensures var r := Reflect(v, n);
            Sub(r, ScaleLeft(Dot(r, n), n)) == Sub(v, ScaleLeft(Dot(v, n), n))
  {
    var d := Dot(v, n);
    var r := Reflect(v, n);
    assert Dot(r, n) == -d;
    assert r == Sub(v, ScaleLeft(2.0 * d, n));
  }

  /**
   * Lagrange's identity: `|u x v|^2 = |u|^2 |v|^2 - (u . v)^2`, so the cross
   * product has the length `|u| |v| sin(angle)` on top of being orthogonal to
   * both arguments.
   */
  lemma CrossLength(u: Vec3, v: Vec3)
    ensures LengthSquared(Cross(u, v)) == LengthSquared(u) * LengthSquared(v) - Dot(u, v) * Dot(u, v)
  {
    assert LengthSquared(Cross(u, v))
        == (u.y * v.z - u.z * v.y) * (u.y * v.z - u.z * v.y)
         + (u.z * v.x - u.x * v.z) * (u.z * v.x - u.x * v.z)
         + (u.x * v.y - u.y * v.x) * (u.x * v.y - u.y * v.x);
  }

  /** Reflection about a unit normal keeps the length. */
  lemma ReflectKeepsLength(v: Vec3, n: Vec3)
    requires LengthSquared(n) == 1.0
    ensures LengthSquared(Reflect(v, n)) == LengthSquared(v)
  {
    var d := Dot(v, n);
    var k := ScaleLeft(2.0 * d, n);
    LengthSquaredOfDifference(v, k);
    DotScaled(v, n, 2.0 * d);
    assert LengthSquared(k) == (2.0 * d) * (2.0 * d);
    assert 2.0 * Dot(v, k) == 4.0 * (d * d);
    assert (2.0 * d) * (2.0 * d) == 4.0 * (d * d);
  }

  /** Two unit vectors have a dot product in [-1, 1]. */
  lemma UnitDotBounded(u: Vec3, w: Vec3)
    requires LengthSquared(u) == 1.0 && LengthSquared(w) == 1.0
    ensures -1.0 <= Dot(u, w) <= 1.0
  {
    LengthSquaredOfDifference(u, w);
    LengthSquaredOfSum(u, w);
  }

  /** For unit vectors the clamp in `refract` never bites. */
  lemma CosThetaOfUnits(v: Vec3, n: Vec3)
    requires LengthSquared(v) == 1.0 && LengthSquared(n) == 1.0
    ensures CosTheta(v, n) == -Dot(v, n)
    ensures -1.0 <= CosTheta(v, n) <= 1.0
  {
    UnitDotBounded(v, n);
    DotNeg(v, n);
  }

  /** A square root that is exact on the non-negative reals. */
  ghost predicate ExactSqrt(sqrt: real -> real) {
    forall a :: 0.0 <= a ==> 0.0 <= sqrt(a) && sqrt(a) * sqrt(a) == a
  }

  /**
   * Refraction through a ratio of 1 (equal refractive indices) does not bend a
   * unit ray that meets a unit normal from the front.
   */
  lemma RefractRatioOneUnchanged(v: Vec3, n: Vec3, sqrt: real -> real)
    requires ExactSqrt(sqrt)
    requires LengthSquared(v) == 1.0 && LengthSquared(n) == 1.0 && Dot(v, n) <= 0.0
    ensures Refract(v, n, 1.0, sqrt) == v
  {
    var d := Dot(v, n);
    RefractPerpendicular(v, n, 1.0);
    var p := ScaleLeft(1.0, Add(v, ScaleLeft(CosTheta(v, n), n)));
    var t := Sub(v, ScaleLeft(d, n));
    assert p == t;
    var s := sqrt(Abs(1.0 - LengthSquared(p)));
    assert 0.0 <= s && s * s == d * d;
    SquareRootUnique(s, -d);
    assert Refract(v, n, 1.0, sqrt) == Add(t, ScaleLeft(d, n));
  }

  /**
   * With an exact square root, `length` is the non-negative root of the
   * squared length, and it is zero only for the zero vector.
   */
  lemma LengthIsRoot(v: Vec3, sqrt: real -> real)
    requires ExactSqrt(sqrt)
    ensures Length(v, sqrt) >= 0.0 && Length(v, sqrt) * Length(v, sqrt) == LengthSquared(v)
    ensures Length(v, sqrt) == 0.0 <==> v == Zero
  {
    var l := Length(v, sqrt);
    assert 0.0 <= l && l * l == LengthSquared(v);
    RootZero(l, LengthSquared(v));
    DotSelfZero(v);
  }

  /**
   * With an exact square root, `normalized` gives a unit vector pointing the
   * same way: scaling it back by the length gives the original vector.
   */
  lemma NormalizedIsUnit(v: Vec3, sqrt: real -> real)
    requires ExactSqrt(sqrt) && Length(v, sqrt) != 0.0
    ensures LengthSquared(Normalized(v, sqrt)) == 1.0
    ensures Scale(Normalized(v, sqrt), Length(v, sqrt)) == v
  {
    var l := Length(v, sqrt);
    var u := Normalized(v, sqrt);
    LengthIsRoot(v, sqrt);
    assert ScaleLeft(l, u) == v;
    DotScaled(u, u, l);
    ProductIsOne(l * l, LengthSquared(u), LengthSquared(ScaleLeft(l, u)));
  }

  /**
   * The part `t = v - dot(v, n) n` of a unit `v` along the surface with unit
   * normal `n` is orthogonal to `n`, with squared length `1 - dot(v, n)^2`.
   */
  lemma TangentPart(v: Vec3, n: Vec3)
    requires LengthSquared(v) == 1.0 && LengthSquared(n) == 1.0
    ensures var t := Sub(v, ScaleLeft(Dot(v, n), n));
            && Dot(t, n) == 0.0
            && LengthSquared(t) == 1.0 - Dot(v, n) * Dot(v, n)
  {
    var d := Dot(v, n);
    DotScaleLeft(v, n, d);
    TangentLength(v, n, d);
  }

  /** With `d = dot(v, n)` and unit `v`, `n`: `|v - d n|^2 = 1 - d^2`. */
  lemma TangentLength(v: Vec3, n: Vec3, d: real)
    requires LengthSquared(v) == 1.0 && LengthSquared(n) == 1.0 && d == Dot(v, n)
    ensures LengthSquared(Sub(v, ScaleLeft(d, n))) == 1.0 - d * d
  {
    var k := ScaleLeft(d, n);
    LengthSquaredOfDifference(v, k);
    DotScaled(v, n, d);
    assert Dot(v, k) == d * d;
    assert LengthSquared(k) == d * d;
  }

  /** `v + (-d) n` is `v - d n`. */
  lemma AddNegScaled(v: Vec3, n: Vec3, d: real)
    ensures Add(v, ScaleLeft(-d, n)) == Sub(v, ScaleLeft(d, n))
  {
  }

  /** Scaling the first argument of `dot` scales the product. */
  lemma ScaledDot(c: real, u: Vec3, n: Vec3)
    ensures Dot(ScaleLeft(c, u), n) == c * Dot(u, n)
  {
    assert (u.x * c) * n.x + (u.y * c) * n.y + (u.z * c) * n.z == c * (u.x * n.x + u.y * n.y + u.z * n.z);
  }

  /**
   * The perpendicular part of `refract` for unit `v` and `n`:
   * `r_out_perp = ratio (v + cos_theta n)` is `ratio` times the part of `v`
   * along the surface, so it is orthogonal to `n`, with squared length
   * `ratio^2 (1 - dot(v, n)^2)`.
   */
  lemma RefractPerpendicular(v: Vec3, n: Vec3, ratio: real)
    requires LengthSquared(v) == 1.0 && LengthSquared(n) == 1.0
    ensures var p := ScaleLeft(ratio, Add(v, ScaleLeft(CosTheta(v, n), n)));
            && p == ScaleLeft(ratio, Sub(v, ScaleLeft(Dot(v, n), n)))
            && Dot(p, n) == 0.0
            && LengthSquared(p) == ratio * ratio * (1.0 - Dot(v, n) * Dot(v, n))
  {
    var d := Dot(v, n);
    CosThetaOfUnits(v, n);
    AddNegScaled(v, n, d);
    var t := Sub(v, ScaleLeft(d, n));
    TangentPart(v, n);
    ScaledDot(ratio, t, n);
    DotScaled(t, t, ratio);
  }

  /**
   * `refract` of a unit vector at a unit normal, when the perpendicular part is
   * not too long (`ratio^2 (1 - cos^2) <= 1`, no total internal reflection),
   * with an exact square root: the result is a unit vector, it leaves on the
   * far side of the surface (`dot(r, n) <= 0`), and its part along the surface
   * is `ratio` times that of `v` (Snell's law).
   */
  lemma RefractSnell(v: Vec3, n: Vec3, ratio: real, sqrt: real -> real)
    requires ExactSqrt(sqrt)
    requires LengthSquared(v) == 1.0 && LengthSquared(n) == 1.0
    requires ratio * ratio * (1.0 - Dot(v, n) * Dot(v, n)) <= 1.0
    ensures var r := Refract(v, n, ratio, sqrt);
            && LengthSquared(r) == 1.0
            && Dot(r, n) <= 0.0
            && Sub(r, ScaleLeft(Dot(r, n), n)) == ScaleLeft(ratio, Sub(v, ScaleLeft(Dot(v, n), n)))
  {
    var p := ScaleLeft(ratio, Add(v, ScaleLeft(CosTheta(v, n), n)));
    RefractPerpendicular(v, n, ratio);
    var s := sqrt(Abs(1.0 - LengthSquared(p)));
    assert 0.0 <= s && s * s == 1.0 - LengthSquared(p);
    var q := ScaleLeft(-s, n);
    var r := Refract(v, n, ratio, sqrt);
    assert r == Add(p, q);
    RefractParts(p, n, s);
  }

  /**
   * A vector `p` orthogonal to a unit `n`, plus `-s n` with `s >= 0` and
   * `s^2 = 1 - |p|^2`: a unit vector whose normal component is `-s` and whose
   * part along the surface is `p`.
   */
  lemma RefractParts(p: Vec3, n: Vec3, s: real)
    requires LengthSquared(n) == 1.0 && Dot(p, n) == 0.0
    requires 0.0 <= s && s * s == 1.0 - LengthSquared(p)
    ensures var r := Add(p, ScaleLeft(-s, n));
            && LengthSquared(r) == 1.0
            && Dot(r, n) == -s
            && Sub(r, ScaleLeft(Dot(r, n), n)) == p
  {
    var q := ScaleLeft(-s, n);
    LengthSquaredOfSum(p, q);
    DotScaled(p, n, -s);
    DotScaled(n, n, -s);
    assert (-s) * (-s) == s * s;
    assert Dot(Add(p, q), n) == Dot(p, n) + Dot(n, q);
  }
}
