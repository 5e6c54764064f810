/**
 * The closed set of surface materials (src/material.rs:4-35): the enum, its
 * three constructors and its default. The scattering rules are in module
 * `Scattering`, which needs hit records; hit records in turn carry a material,
 * so the two halves of the source file are split to keep modules acyclic.
 */
module Materials {
  import opened Vector3

  /** `Material`: `Colour` is a `Vec3`, as in the source. */
  datatype Material =
    | Lambertian(albedo: Vec3)
    | Metal(albedo: Vec3, fuzz: real)
    | Dielectric(indexOfRefraction: real)

  /** `Material::new_lambertian`. */
  function NewLambertian(albedo: Vec3): (m: Material)
    ensures m.Lambertian? && m.albedo == albedo
  {
    Lambertian(albedo)
  }

  /**
   * `Material::new_metal`: the fuzz is kept when below 1 and clamped to 1
   * otherwise, so a stored fuzz never exceeds 1.
   */
  function NewMetal(albedo: Vec3, fuzz: real): (m: Material)
    ensures m.Metal? && m.albedo == albedo
    ensures m.fuzz <= 1.0 && m.fuzz <= fuzz
    ensures fuzz < 1.0 ==> m.fuzz == fuzz
    ensures fuzz >= 1.0 ==> m.fuzz == 1.0
  {
    Metal(albedo, if fuzz < 1.0 then fuzz else 1.0)
  }

  /** `Material::new_dielectric`. */
  function NewDielectric(indexOfRefraction: real): (m: Material)
    ensures m.Dielectric? && m.indexOfRefraction == indexOfRefraction
  {
    Dielectric(indexOfRefraction)
  }

  /** `impl Default for Material`: a Lambertian surface with a black albedo. */
  function DefaultMaterial(): (m: Material)
    ensures m.Lambertian? && m.albedo == Zero
  {
    Lambertian(Zero)
  }

  /** Clamping is idempotent: rebuilding a metal from its stored fuzz changes nothing. */
  lemma NewMetalIdempotent(albedo: Vec3, fuzz: real)
    ensures NewMetal(albedo, NewMetal(albedo, fuzz).fuzz) == NewMetal(albedo, fuzz)
  {
  }
}
