/**
 * How a ray leaves a surface (src/material.rs:37-89): `scatter` and Schlick's
 * `reflectance`. The random draws are parameters: `sample` is the vector the
 * branch draws (`random_in_unit_sphere()` for a metal, `random_unit_vector()`
 * for a Lambertian surface) and `draw` is the uniform `random_f64()` a
 * dielectric compares against its reflectance.
 */
module Scattering {
  import opened RealArith
  import opened Vector3
  import opened Rays
  import opened Materials
  import opened Hittables

  /** The triple `(attenuation, scattered, should_scatter)` that `scatter` returns. */
  datatype ScatterResult = ScatterResult(attenuation: Vec3, scattered: Ray, doesScatter: bool)

  /** `x.powf(5.0)` for the base `1 - cosine`, as a fifth power. */
  function Pow5(x: real): real {
    x * x * x * x * x
  }

  /** `((1 - ref_idx) / (1 + ref_idx))^2`, the reflectance at normal incidence. */
  function SchlickR0(refIdx: real): real
    requires 1.0 + refIdx != 0.0
  {
    var q := (1.0 - refIdx) / (1.0 + refIdx);
    q * q
  }

  /** `reflectance`: Schlick's approximation `r0 + (1 - r0) (1 - cosine)^5`. */
  function Reflectance(cosine: real, refIdx: real): real
    requires 1.0 + refIdx != 0.0
  {
    var r0 := SchlickR0(refIdx);
    r0 + (1.0 - r0) * Pow5(1.0 - cosine)
  }

  /**
   * The ratio of refractive indices seen by the ray: `1 / index` entering a
   * front face, `index` leaving through a back face.
   */
  function RefractionRatio(frontFace: bool, index: real): (ratio: real)
    requires frontFace ==> index != 0.0
    ensures frontFace ==> ratio * index == 1.0
    ensures !frontFace ==> ratio == index
  {
    if frontFace then 1.0 / index else index
  }

  /**
   * What `scatter` needs to stay away from division by zero: the incoming
   * direction is normalized by a metal and a dielectric, and a dielectric
   * divides by its index (entering) and by `1 + ratio` (in `reflectance`).
   */
  predicate ScatterDefined(rIn: Ray, rec: HitRecord, sqrt: real -> real) {
    match rec.material
    case Lambertian(_) => true
    case Metal(_, _) => Length(rIn.dir, sqrt) != 0.0
    case Dielectric(index) =>
      Length(rIn.dir, sqrt) != 0.0 && (rec.frontFace ==> index != 0.0) &&
      1.0 + RefractionRatio(rec.frontFace, index) != 0.0
  }

  /** The Lambertian direction: `normal + sample`, replaced by `normal` when near zero. */
  function LambertianDirection(normal: Vec3, sample: Vec3): (dir: Vec3)
    ensures dir == normal || dir == Add(normal, sample)
    ensures !NearZero(normal) ==> !NearZero(dir)
  {
    var scatterDirection := Add(normal, sample);
    if NearZero(scatterDirection) then normal else scatterDirection
  }

  /**
   * `scatter(r_in, rec)` with the branch's random draws as parameters. Every
   * branch sends the scattered ray from the hit point.
   */
  function Scatter(rIn: Ray, rec: HitRecord, sample: Vec3, draw: real, sqrt: real -> real): (res: ScatterResult)
    requires ScatterDefined(rIn, rec, sqrt)
    ensures res.scattered.orig == rec.p
  {
    match rec.material
    case Metal(albedo, fuzz) =>
      var reflected := Reflect(Normalized(rIn.dir, sqrt), rec.normal);
      var scattered := Ray(rec.p, Add(reflected, ScaleLeft(fuzz, sample)));
      ScatterResult(albedo, scattered, Dot(scattered.dir, rec.normal) > 0.0)
    case Lambertian(albedo) =>
      ScatterResult(albedo, Ray(rec.p, LambertianDirection(rec.normal, sample)), true)
    case Dielectric(index) =>
      var refractionRatio := RefractionRatio(rec.frontFace, index);
      var unitDir := Normalized(rIn.dir, sqrt);
      var direction := DielectricDirection(unitDir, rec.normal, refractionRatio, draw, sqrt);
      ScatterResult(Vec3(1.0, 1.0, 1.0), Ray(rec.p, direction), true)
  }

  // ---------------------------------------------------------------------------
  // Lambertian

  /**
   * A Lambertian surface always scatters, attenuating by its albedo, towards
   * `normal + sample` unless that is near zero, in which case exactly along the
   * normal; with a normal that is not near zero the direction never is.
   */
  lemma LambertianScatter(rIn: Ray, rec: HitRecord, sample: Vec3, draw: real, sqrt: real -> real)
    requires rec.material.Lambertian?
    ensures var res := Scatter(rIn, rec, sample, draw, sqrt);
            && res.doesScatter
            && res.attenuation == rec.material.albedo
            && res.scattered.orig == rec.p
            && (NearZero(Add(rec.normal, sample)) ==> res.scattered.dir == rec.normal)
            && (!NearZero(Add(rec.normal, sample)) ==> res.scattered.dir == Add(rec.normal, sample))
            && (!NearZero(rec.normal) ==> !NearZero(res.scattered.dir))
  {
  }

  // ---------------------------------------------------------------------------
  // Metal

  /**
   * A metal attenuates by its albedo and scatters exactly when the scattered
   * direction leaves on the normal's side.
   */
  lemma MetalScatter(rIn: Ray, rec: HitRecord, sample: Vec3, draw: real, sqrt: real -> real)
    requires rec.material.Metal? && Length(rIn.dir, sqrt) != 0.0
    ensures var res := Scatter(rIn, rec, sample, draw, sqrt);
            && res.attenuation == rec.material.albedo
            && res.scattered.orig == rec.p
            && (res.doesScatter <==> Dot(res.scattered.dir, rec.normal) > 0.0)
            && res.scattered.dir ==
                 Add(Reflect(Normalized(rIn.dir, sqrt), rec.normal), ScaleLeft(rec.material.fuzz, sample))
  {
  }

  /**
   * A perfect mirror (fuzz 0) sends the ray along the reflection of the unit
   * incoming direction; about a unit normal it scatters exactly when the ray
   * came in against the normal.
   */
  lemma MetalMirror(rIn: Ray, rec: HitRecord, sample: Vec3, draw: real, sqrt: real -> real)
    requires rec.material.Metal? && rec.material.fuzz == 0.0 && Length(rIn.dir, sqrt) != 0.0
    ensures var res := Scatter(rIn, rec, sample, draw, sqrt);
            var unitDir := Normalized(rIn.dir, sqrt);
            && res.scattered.dir == Reflect(unitDir, rec.normal)
            && (Dot(rec.normal, rec.normal) == 1.0 ==> (res.doesScatter <==> Dot(unitDir, rec.normal) < 0.0))
  {
    var unitDir := Normalized(rIn.dir, sqrt);
    assert ScaleLeft(0.0, sample) == Zero;
    assert Add(Reflect(unitDir, rec.normal), Zero) == Reflect(unitDir, rec.normal);
  }

  // ---------------------------------------------------------------------------
  // Dielectric

  /** `sin_theta = sqrt(1 - cos_theta^2)`. */
  function SinTheta(cosTheta: real, sqrt: real -> real): real {
    sqrt(1.0 - cosTheta * cosTheta)
  }

  /** `ratio * sin_theta > 1`: Snell's law has no solution, the ray is totally reflected. */
  predicate CannotRefract(ratio: real, cosTheta: real, sqrt: real -> real) {
    ratio * SinTheta(cosTheta, sqrt) > 1.0
  }

  /**
   * The dielectric's choice between reflecting and refracting the unit
   * direction `unitDir` through the ratio of indices `ratio`, given the draw:
   * under total internal reflection it reflects whatever the draw; otherwise
   * it reflects exactly when the reflectance exceeds the draw.
   */
  function DielectricDirection(unitDir: Vec3, normal: Vec3, ratio: real, draw: real, sqrt: real -> real): (dir: Vec3)
    requires 1.0 + ratio != 0.0
    ensures dir == Reflect(unitDir, normal) || dir == Refract(unitDir, normal, ratio, sqrt)
    ensures CannotRefract(ratio, CosTheta(unitDir, normal), sqrt) ==> dir == Reflect(unitDir, normal)
  {
    var cosTheta := CosTheta(unitDir, normal);
    if CannotRefract(ratio, cosTheta, sqrt) || Reflectance(cosTheta, ratio) > draw then Reflect(unitDir, normal)
    else Refract(unitDir, normal, ratio, sqrt)
  }

  /**
   * A dielectric always scatters and absorbs nothing (attenuation (1, 1, 1)).
   * Under total internal reflection it reflects whatever the draw; otherwise
   * it reflects exactly when the reflectance exceeds the draw, and refracts
   * through the ratio of indices when it does not.
   */
  lemma DielectricScatter(rIn: Ray, rec: HitRecord, sample: Vec3, draw: real, sqrt: real -> real)
    requires rec.material.Dielectric? && ScatterDefined(rIn, rec, sqrt)
    ensures var res := Scatter(rIn, rec, sample, draw, sqrt);
            var unitDir := Normalized(rIn.dir, sqrt);
            var ratio := RefractionRatio(rec.frontFace, rec.material.indexOfRefraction);
            var c := CosTheta(unitDir, rec.normal);
            && res.doesScatter
            && res.attenuation == Vec3(1.0, 1.0, 1.0)
            && res.scattered.orig == rec.p
            && (CannotRefract(ratio, c, sqrt) ==> res.scattered.dir == Reflect(unitDir, rec.normal))
            && (!CannotRefract(ratio, c, sqrt) && Reflectance(c, ratio) > draw ==>
                  res.scattered.dir == Reflect(unitDir, rec.normal))
            && (!CannotRefract(ratio, c, sqrt) && Reflectance(c, ratio) <= draw ==>
                  res.scattered.dir == Refract(unitDir, rec.normal, ratio, sqrt))
  {
  }

  /** Total internal reflection does not depend on the draw. */
  lemma TotalInternalReflectionIgnoresDraw(rIn: Ray, rec: HitRecord, sample: Vec3, draw1: real, draw2: real, sqrt: real -> real)
    requires rec.material.Dielectric? && ScatterDefined(rIn, rec, sqrt)
    requires CannotRefract(RefractionRatio(rec.frontFace, rec.material.indexOfRefraction),
                           CosTheta(Normalized(rIn.dir, sqrt), rec.normal), sqrt)
    ensures Scatter(rIn, rec, sample, draw1, sqrt) == Scatter(rIn, rec, sample, draw2, sqrt)
  {
  }

  /**
   * A dielectric of index 1 does not bend light: with an exact square root, a
   * unit normal and an incoming direction meeting it from the front, a
   * draw that does not trigger a reflection lets the ray through unchanged.
   */
  lemma MatchedIndexPassesStraight(rIn: Ray, rec: HitRecord, sample: Vec3, draw: real, sqrt: real -> real)
    requires rec.material == Dielectric(1.0) && Length(rIn.dir, sqrt) != 0.0
    requires ExactSqrt(sqrt)
    requires LengthSquared(rec.normal) == 1.0
    requires Dot(Normalized(rIn.dir, sqrt), rec.normal) <= 0.0
    requires Reflectance(CosTheta(Normalized(rIn.dir, sqrt), rec.normal), 1.0) <= draw
    ensures Scatter(rIn, rec, sample, draw, sqrt).scattered.dir == Normalized(rIn.dir, sqrt)
  {
    var unitDir := Normalized(rIn.dir, sqrt);
    NormalizedIsUnit(rIn.dir, sqrt);
    CosThetaOfUnits(unitDir, rec.normal);
    EqualIndicesRefract(CosTheta(unitDir, rec.normal), sqrt);
    DielectricScatter(rIn, rec, sample, draw, sqrt);
    RefractRatioOneUnchanged(unitDir, rec.normal, sqrt);
  }

  /**
   * A dielectric with a positive index keeps rays unit length: with an exact
   * square root and a unit normal, the scattered direction is a unit vector,
   * whether it is the reflection or the refraction of the unit direction.
   */
  lemma DielectricKeepsUnitLength(rIn: Ray, rec: HitRecord, sample: Vec3, draw: real, sqrt: real -> real)
    requires rec.material.Dielectric? && rec.material.indexOfRefraction > 0.0
    requires Length(rIn.dir, sqrt) != 0.0 && ExactSqrt(sqrt) && LengthSquared(rec.normal) == 1.0
    ensures LengthSquared(Scatter(rIn, rec, sample, draw, sqrt).scattered.dir) == 1.0
  {
    var index := rec.material.indexOfRefraction;
    var ratio := RefractionRatio(rec.frontFace, index);
    PositiveRatio(rec.frontFace, index, ratio);
    var unitDir := Normalized(rIn.dir, sqrt);
    NormalizedIsUnit(rIn.dir, sqrt);
    DielectricScatter(rIn, rec, sample, draw, sqrt);
    var dir := Scatter(rIn, rec, sample, draw, sqrt).scattered.dir;
    var c := CosTheta(unitDir, rec.normal);
    if dir == Reflect(unitDir, rec.normal) {
      ReflectKeepsLength(unitDir, rec.normal);
    } else {
      CosThetaOfUnits(unitDir, rec.normal);
      RefractionBelowOne(ratio, c, Dot(unitDir, rec.normal), sqrt);
      RefractSnell(unitDir, rec.normal, ratio, sqrt);
    }
  }

  /** A positive index gives a positive ratio of indices. */
  lemma PositiveRatio(frontFace: bool, index: real, ratio: real)
    requires index > 0.0 && ratio == RefractionRatio(frontFace, index)
    ensures ratio > 0.0
  {
    if frontFace {
      ReciprocalPositive(ratio, index);
    }
  }

  /**
   * When Snell's law has a solution (`ratio * sin_theta <= 1`), the
   * perpendicular part of the refracted ray is at most unit length.
   */
  lemma RefractionBelowOne(ratio: real, c: real, d: real, sqrt: real -> real)
    requires ExactSqrt(sqrt) && 0.0 < ratio && -1.0 <= c <= 1.0 && c == -d
    requires !CannotRefract(ratio, c, sqrt)
    ensures ratio * ratio * (1.0 - d * d) <= 1.0
  {
    SquareAtMostOne(c);
    var s := SinTheta(c, sqrt);
    assert 0.0 <= s && s * s == 1.0 - c * c;
    assert ratio * SinTheta(c, sqrt) <= 1.0;
    ProductSquareAtMostOne(ratio, s);
    assert c * c == d * d;
  }

  /** Between equal indices there is no total internal reflection. */
  lemma EqualIndicesRefract(c: real, sqrt: real -> real)
    requires ExactSqrt(sqrt) && 0.0 <= c <= 1.0
    ensures !CannotRefract(1.0, c, sqrt)
  {
    SquareLe(c, 1.0);
    var s := SinTheta(c, sqrt);
    assert 0.0 <= s && s * s == 1.0 - c * c;
    SquareRootAtMostOne(s, 1.0 - c * c);
  }

  // ---------------------------------------------------------------------------
  // Reflectance

  /** `reflectance` at normal incidence (cosine 1) is Schlick's `r0`. */
  lemma ReflectanceAtNormalIncidence(refIdx: real)
    requires 1.0 + refIdx != 0.0
    ensures Reflectance(1.0, refIdx) == SchlickR0(refIdx)
  {
    assert Pow5(0.0) == 0.0;
  }

  /** At grazing incidence (cosine 0) everything is reflected. */
  lemma ReflectanceAtGrazingIncidence(refIdx: real)
    requires 1.0 + refIdx != 0.0
    ensures Reflectance(0.0, refIdx) == 1.0
  {
    assert Pow5(1.0) == 1.0;
  }

  /** Between equal indices `r0` vanishes and only the fifth-power term is left. */
  lemma ReflectanceMatchedIndex(cosine: real)
    ensures Reflectance(cosine, 1.0) == Pow5(1.0 - cosine)
  {
  }

  /**
   * For a non-negative index and a cosine in [0, 1] the reflectance is a
   * probability, at least `r0`.
   */
  lemma ReflectanceBounds(cosine: real, refIdx: real)
    requires 0.0 <= cosine <= 1.0 && 0.0 <= refIdx
    ensures SchlickR0(refIdx) <= Reflectance(cosine, refIdx) <= 1.0
    ensures 0.0 <= SchlickR0(refIdx) <= 1.0
  {
    var q := (1.0 - refIdx) / (1.0 + refIdx);
    QuotientWithinOne(refIdx, q);
    SquareAtMostOne(q);
    var r0 := SchlickR0(refIdx);
    assert r0 == q * q;
    var p := Pow5(1.0 - cosine);
    FifthPowerWithinOne(1.0 - cosine);
    assert 0.0 <= p <= 1.0;
    ProductWithin(1.0 - r0, p);
    assert Reflectance(cosine, refIdx) == r0 + (1.0 - r0) * p;
  }
}
