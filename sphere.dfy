/**
 * Ray-sphere intersection (src/sphere.rs). The quadratic
 * `a t^2 + 2 half_b t + c = 0` for the ray parameter `t` is solved with the
 * caller's square root; the nearer root in range is preferred, then the
 * farther one.
 */
module Spheres {
  import opened Options
  import opened RealArith
  import opened Vector3
  import opened Rays
  import opened Materials
  import opened Hittables

  /** `Sphere`: as declared, it carries no material. */
  datatype Sphere = Sphere(center: Vec3, radius: real)

  /** `a`, `half_b` and `c` of the quadratic (src/sphere.rs:13-16). */
  function QuadA(r: Ray): real {
    LengthSquared(r.dir)
  }

  function HalfB(s: Sphere, r: Ray): real {
    Dot(Sub(r.orig, s.center), r.dir)
  }

  function QuadC(s: Sphere, r: Ray): real {
    LengthSquared(Sub(r.orig, s.center)) - s.radius * s.radius
  }

  /** The quarter discriminant `half_b^2 - a c`. */
  function Discriminant(s: Sphere, r: Ray): real {
    HalfB(s, r) * HalfB(s, r) - QuadA(r) * QuadC(s, r)
  }

  /** The nearer root `(-half_b - sqrtd) / a` and the farther root `(-half_b + sqrtd) / a`. */
  function NearRoot(s: Sphere, r: Ray, sqrt: real -> real): real
    requires QuadA(r) != 0.0
  {
    (-HalfB(s, r) - sqrt(Discriminant(s, r))) / QuadA(r)
  }

  function FarRoot(s: Sphere, r: Ray, sqrt: real -> real): real
    requires QuadA(r) != 0.0
  {
    (-HalfB(s, r) + sqrt(Discriminant(s, r))) / QuadA(r)
  }

  predicate InRange(t: real, tMin: real, tMax: real) {
    !(t < tMin || tMax < t)
  }

  /**
   * The record for a hit at `root` (src/sphere.rs:30-34): a default record
   * with `t` and `p` set, then oriented against the ray by `set_face_normal`
   * with the outward normal `(p - center) / radius`.
   */
  function RecordAt(s: Sphere, r: Ray, root: real): HitRecord
    requires s.radius != 0.0
  {
    var rec := DefaultRecord().(t := root).(p := At(r, root));
    SetFaceNormal(rec, r, Div(Sub(rec.p, s.center), s.radius))
  }

  /**
   * `impl Hittable for Sphere`, as a function of its inputs. The source divides
   * by `a` and by the radius, so both must be non-zero.
   */
  function SphereHit(s: Sphere, r: Ray, tMin: real, tMax: real, sqrt: real -> real): Option<HitRecord>
    requires QuadA(r) != 0.0 && s.radius != 0.0
  {
    if Discriminant(s, r) < 0.0 then None
    else if InRange(NearRoot(s, r, sqrt), tMin, tMax) then Some(RecordAt(s, r, NearRoot(s, r, sqrt)))
    else if InRange(FarRoot(s, r, sqrt), tMin, tMax) then Some(RecordAt(s, r, FarRoot(s, r, sqrt)))
    else None
  }

  /**
   * `Sphere::hit` step by step: `root` starts at the nearer root and is
   * replaced by the farther one when out of range; the record is filled in
   * field by field.
   */
  method Hit(s: Sphere, r: Ray, tMin: real, tMax: real, sqrt: real -> real) returns (res: Option<HitRecord>)
    requires QuadA(r) != 0.0 && s.radius != 0.0
    ensures res == SphereHit(s, r, tMin, tMax, sqrt)
    ensures res.Some? ==> tMin <= res.value.t <= tMax
    ensures Discriminant(s, r) < 0.0 ==> res.None?
  {
    var oc := Sub(r.orig, s.center);
    var a := LengthSquared(r.dir);
    var halfB := Dot(oc, r.dir);
    var c := LengthSquared(oc) - s.radius * s.radius;

    var discriminant := halfB * halfB - a * c;
    if discriminant < 0.0 {
      return None;
    }
    var sqrtd := sqrt(discriminant);
    assert discriminant == Discriminant(s, r);

    var root := (-halfB - sqrtd) / a;
    if root < tMin || tMax < root {
      root := (-halfB + sqrtd) / a;
      if root < tMin || tMax < root {
        return None;
      }
    }
    var rec := DefaultRecord();
    rec := rec.(t := root);
    rec := rec.(p := At(r, rec.t));
    var outwardNormal := Div(Sub(rec.p, s.center), s.radius);
    rec := SetFaceNormal(rec, r, outwardNormal);
    return Some(rec);
  }

  // ---------------------------------------------------------------------------
  // Properties

  /** A negative discriminant means the ray misses. */
  lemma NegativeDiscriminantMisses(s: Sphere, r: Ray, tMin: real, tMax: real, sqrt: real -> real)
    requires QuadA(r) != 0.0 && s.radius != 0.0
    requires Discriminant(s, r) < 0.0
    ensures SphereHit(s, r, tMin, tMax, sqrt).None?
  {
  }

  /**
   * Root selection: the nearer root when it is in range, else the farther root
   * when that is in range, else no hit (provided the discriminant is not
   * negative). A returned parameter always lies in `[tMin, tMax]`.
   */
  lemma RootSelection(s: Sphere, r: Ray, tMin: real, tMax: real, sqrt: real -> real)
    requires QuadA(r) != 0.0 && s.radius != 0.0
    ensures var res := SphereHit(s, r, tMin, tMax, sqrt);
            var near := NearRoot(s, r, sqrt);
            var far := FarRoot(s, r, sqrt);
            && (res.Some? ==> tMin <= res.value.t <= tMax)
            && (Discriminant(s, r) >= 0.0 && tMin <= near <= tMax ==> res.Some? && res.value.t == near)
            && (Discriminant(s, r) >= 0.0 && !(tMin <= near <= tMax) && tMin <= far <= tMax ==>
                  res.Some? && res.value.t == far)
            && (res.Some? <==> Discriminant(s, r) >= 0.0 && (tMin <= near <= tMax || tMin <= far <= tMax))
  {
  }

  /**
   * The record of a hit: its point is `r.at(t)`, its material is the default
   * one, and its normal is the outward normal `(p - center) / radius` or its
   * opposite, whichever faces against the ray.
   */
  lemma HitRecordShape(s: Sphere, r: Ray, tMin: real, tMax: real, sqrt: real -> real)
    requires QuadA(r) != 0.0 && s.radius != 0.0
    ensures var res := SphereHit(s, r, tMin, tMax, sqrt);
            res.Some? ==>
              var h := res.value;
              var outward := Div(Sub(h.p, s.center), s.radius);
              && h.p == At(r, h.t)
              && h.material == DefaultMaterial()
              && (h.frontFace <==> Dot(r.dir, outward) < 0.0)
              && (h.normal == outward || h.normal == Neg(outward))
              && Dot(r.dir, h.normal) <= 0.0
  {
  }

  /** The quadratic `a t^2 + 2 half_b t + c` whose roots are the hit parameters. */
  function Quadratic(s: Sphere, r: Ray, t: real): real {
    (t * t) * QuadA(r) + 2.0 * (t * HalfB(s, r)) + QuadC(s, r)
  }

  /** With an exact square root, the nearer root solves the quadratic. */
  lemma NearRootSolvesQuadratic(s: Sphere, r: Ray, sqrt: real -> real)
    requires QuadA(r) != 0.0 && ExactSqrt(sqrt) && Discriminant(s, r) >= 0.0
    ensures Quadratic(s, r, NearRoot(s, r, sqrt)) == 0.0
  {
    var d := sqrt(Discriminant(s, r));
    QuotientRootOfQuadratic(QuadA(r), HalfB(s, r), QuadC(s, r), d, -HalfB(s, r) - d, NearRoot(s, r, sqrt));
  }

  /** With an exact square root, the farther root solves the quadratic. */
  lemma FarRootSolvesQuadratic(s: Sphere, r: Ray, sqrt: real -> real)
    requires QuadA(r) != 0.0 && ExactSqrt(sqrt) && Discriminant(s, r) >= 0.0
    ensures Quadratic(s, r, FarRoot(s, r, sqrt)) == 0.0
  {
    var d := sqrt(Discriminant(s, r));
    QuotientRootOfQuadratic(QuadA(r), HalfB(s, r), QuadC(s, r), d, -HalfB(s, r) + d, FarRoot(s, r, sqrt));
  }

  /**
   * With an exact square root, every root of the quadratic is the nearer or
   * the farther root, and the discriminant is then not negative.
   */
  lemma RootIsNearOrFarRoot(s: Sphere, r: Ray, t: real, sqrt: real -> real)
    requires QuadA(r) != 0.0 && ExactSqrt(sqrt) && Quadratic(s, r, t) == 0.0
    ensures Discriminant(s, r) >= 0.0
    ensures t == NearRoot(s, r, sqrt) || t == FarRoot(s, r, sqrt)
  {
    var a, hb, c := QuadA(r), HalfB(s, r), QuadC(s, r);
    CompletedSquare(a, hb, c, t);
    var e := sqrt(Discriminant(s, r));
    assert 0.0 <= e && e * e == hb * hb - a * c;
    RootIsNearOrFar(a, hb, c, e, t);
  }

  /** With an exact square root, the nearer root is not after the farther one. */
  lemma NearRootFirst(s: Sphere, r: Ray, sqrt: real -> real)
    requires QuadA(r) != 0.0 && ExactSqrt(sqrt) && Discriminant(s, r) >= 0.0
    ensures NearRoot(s, r, sqrt) <= FarRoot(s, r, sqrt)
  {
    var e := sqrt(Discriminant(s, r));
    QuotientsOrdered(-HalfB(s, r) - e, -HalfB(s, r) + e, QuadA(r));
  }

  /**
   * The closest valid root: with an exact square root, when the ray meets the
   * sphere at some `t` in `[tMin, tMax]`, `hit` reports a hit, and its `t` is
   * no later than that one.
   */
  lemma SphereReportsNearestRoot(s: Sphere, r: Ray, tMin: real, tMax: real, sqrt: real -> real, t: real)
    requires QuadA(r) != 0.0 && s.radius != 0.0 && ExactSqrt(sqrt)
    requires Quadratic(s, r, t) == 0.0 && tMin <= t <= tMax
    ensures SphereHit(s, r, tMin, tMax, sqrt).Some?
    ensures SphereHit(s, r, tMin, tMax, sqrt).value.t <= t
  {
    RootIsNearOrFarRoot(s, r, t, sqrt);
    NearRootFirst(s, r, sqrt);
    RootSelection(s, r, tMin, tMax, sqrt);
  }

  /**
   * With an exact square root, a hit point lies on the sphere:
   * `|p - center|^2 = radius^2`.
   */
  lemma HitPointOnSphere(s: Sphere, r: Ray, tMin: real, tMax: real, sqrt: real -> real)
    requires QuadA(r) != 0.0 && s.radius != 0.0 && ExactSqrt(sqrt)
    ensures var res := SphereHit(s, r, tMin, tMax, sqrt);
            res.Some? ==> LengthSquared(Sub(res.value.p, s.center)) == s.radius * s.radius
  {
    if Discriminant(s, r) >= 0.0 {
      NearRootSolvesQuadratic(s, r, sqrt);
      FarRootSolvesQuadratic(s, r, sqrt);
      RootOnSphere(s, r, NearRoot(s, r, sqrt));
      RootOnSphere(s, r, FarRoot(s, r, sqrt));
    }
  }

  /** The point of the ray at a root of the quadratic lies on the sphere. */
  lemma RootOnSphere(s: Sphere, r: Ray, t: real)
    requires Quadratic(s, r, t) == 0.0
    ensures LengthSquared(Sub(At(r, t), s.center)) == s.radius * s.radius
  {
    PointOnRayFromCenter(r, s.center, t);
    QuadraticTerms(s, r);
  }

  /**
   * The squared distance from a point `c` to the point `at(t)` of a ray:
   * `|at(t) - c|^2 = |orig - c|^2 + 2 t ((orig - c) . dir) + t^2 |dir|^2`.
   */
  lemma PointOnRayFromCenter(r: Ray, c: Vec3, t: real)
    ensures LengthSquared(Sub(At(r, t), c))
         == LengthSquared(Sub(r.orig, c)) + 2.0 * (t * Dot(Sub(r.orig, c), r.dir)) + (t * t) * LengthSquared(r.dir)
  {
    AtFromCenter(r, c, t);
    LengthSquaredAlongRay(Sub(r.orig, c), r.dir, t);
  }

  /** `a`, `half_b` and `c` spelled out. */
  lemma QuadraticTerms(s: Sphere, r: Ray)
    ensures QuadA(r) == LengthSquared(r.dir)
    ensures HalfB(s, r) == Dot(Sub(r.orig, s.center), r.dir)
    ensures QuadC(s, r) == LengthSquared(Sub(r.orig, s.center)) - s.radius * s.radius
  {
  }

  /** `|u + t v|^2 = |u|^2 + 2 t (u . v) + t^2 |v|^2`. */
  lemma LengthSquaredAlongRay(u: Vec3, v: Vec3, t: real)
    ensures LengthSquared(Add(u, ScaleLeft(t, v))) == LengthSquared(u) + 2.0 * (t * Dot(u, v)) + (t * t) * LengthSquared(v)
  {
    LengthSquaredOfSum(u, ScaleLeft(t, v));
    DotScaled(u, v, t);
    DotScaled(v, v, t);
  }

  /** The point `at(t)` seen from `c` is the ray's origin seen from `c`, plus `t * dir`. */
  lemma AtFromCenter(r: Ray, c: Vec3, t: real)
    ensures Sub(At(r, t), c) == Add(Sub(r.orig, c), ScaleLeft(t, r.dir))
  {
  }

  // ---------------------------------------------------------------------------
  // The sphere as a list object

  /**
   * The sphere as an object of a `HittableList`: a total hit function. For a
   * zero-length direction the source finds the root `0 / 0`, a NaN that passes
   * both range tests, and returns a hit with `t = NaN`; for a zero radius it
   * returns a hit whose normal is infinite or NaN. The model reports no hit in
   * either case.
   */
  function AsObject(s: Sphere, sqrt: real -> real): HitFn {
    (r: Ray, lo: real, hi: real) =>
      if QuadA(r) != 0.0 && s.radius != 0.0 then SphereHit(s, r, lo, hi, sqrt) else None
  }

  /**
   * Narrowing the range down to the reported parameter keeps the report: the
   * nearer root stays preferred, and a farther root chosen because the nearer
   * one was out of range stays chosen.
   */
  lemma SphereStableWhenNarrowed(s: Sphere, r: Ray, lo: real, hi: real, hi': real, sqrt: real -> real)
    requires QuadA(r) != 0.0 && s.radius != 0.0
    requires SphereHit(s, r, lo, hi, sqrt).Some?
    requires SphereHit(s, r, lo, hi, sqrt).value.t <= hi' <= hi
    ensures SphereHit(s, r, lo, hi', sqrt) == SphereHit(s, r, lo, hi, sqrt)
  {
  }

  /**
   * A sphere object only reports hits in range, and its report is stable when
   * the range is narrowed down to the reported `t`. That the report is the
   * nearest root in range is `SphereReportsNearestRoot`.
   */
  lemma SphereIsWellBehaved(s: Sphere, sqrt: real -> real)
    ensures RespectsRange(AsObject(s, sqrt))
    ensures StableWhenNarrowed(AsObject(s, sqrt))
  {
    var f := AsObject(s, sqrt);
    forall r, lo, hi | f(r, lo, hi).Some?
      ensures lo <= f(r, lo, hi).value.t <= hi
    {
      RootSelection(s, r, lo, hi, sqrt);
    }
    forall r, lo, hi, hi' | f(r, lo, hi).Some? && f(r, lo, hi).value.t <= hi' <= hi
      ensures f(r, lo, hi') == f(r, lo, hi)
    {
      SphereStableWhenNarrowed(s, r, lo, hi, hi', sqrt);
    }
  }

  /**
   * A scene of spheres: the list returns a hit exactly when some sphere is hit
   * on the whole range, and then one at least as near as any sphere's hit.
   */
  lemma SceneOfSpheresNearest(spheres: seq<Sphere>, r: Ray, tMin: real, tMax: real, sqrt: real -> real)
    ensures var objs := seq(|spheres|, i requires 0 <= i < |spheres| => AsObject(spheres[i], sqrt));
            var res := ClosestHit(objs, r, tMin, tMax);
            && (res.None? <==> forall i :: 0 <= i < |objs| ==> objs[i](r, tMin, tMax).None?)
            && (res.Some? ==> tMin <= res.value.t <= tMax)
            && forall i :: 0 <= i < |objs| && objs[i](r, tMin, tMax).Some? ==>
                 res.Some? && res.value.t <= objs[i](r, tMin, tMax).value.t
  {
    var objs := seq(|spheres|, i requires 0 <= i < |spheres| => AsObject(spheres[i], sqrt));
    forall i | 0 <= i < |objs|
      ensures RespectsRange(objs[i]) && StableWhenNarrowed(objs[i])
    {
      SphereIsWellBehaved(spheres[i], sqrt);
    }
    ClosestHitNoneIff(objs, r, tMin, tMax);
    ClosestHitInRange(objs, r, tMin, tMax);
    ClosestHitIsNearest(objs, r, tMin, tMax);
  }

  /**
   * The nearest intersection of a scene: with an exact square root, when the
   * ray meets any sphere of the list at some `t` in `[tMin, tMax]`, the list
   * reports a hit no later than `t`.
   */
  lemma SceneHitIsNearestIntersection(spheres: seq<Sphere>, r: Ray, tMin: real, tMax: real, sqrt: real -> real, k: int, t: real)
    requires ExactSqrt(sqrt) && 0 <= k < |spheres|
    requires QuadA(r) != 0.0 && spheres[k].radius != 0.0
    requires Quadratic(spheres[k], r, t) == 0.0 && tMin <= t <= tMax
    ensures var objs := seq(|spheres|, i requires 0 <= i < |spheres| => AsObject(spheres[i], sqrt));
            var res := ClosestHit(objs, r, tMin, tMax);
            res.Some? && res.value.t <= t
  {
    var objs := seq(|spheres|, i requires 0 <= i < |spheres| => AsObject(spheres[i], sqrt));
    SphereReportsNearestRoot(spheres[k], r, tMin, tMax, sqrt, t);
    assert objs[k](r, tMin, tMax) == SphereHit(spheres[k], r, tMin, tMax, sqrt);
    SceneOfSpheresNearest(spheres, r, tMin, tMax, sqrt);
  }
}
