/**
 * Rays. `src/ray.rs` is not part of this model; its shape is fixed by its uses:
 * a ray has an origin `orig` and a direction `dir`, and `at(t)` is the point
 * `orig + t * dir` (src/sphere.rs:32, src/camera.rs:35-38).
 */
module Rays {
  import opened Vector3

  datatype Ray = Ray(orig: Vec3, dir: Vec3)

  /** `Ray::at`: the point reached after travelling `t` times the direction. */
  function At(r: Ray, t: real): (p: Vec3)
    ensures Sub(p, r.orig) == ScaleLeft(t, r.dir)
  {
    Add(r.orig, ScaleLeft(t, r.dir))
  }

  /** `at(0)` is the origin, and moving along the ray is additive in `t`. */
  lemma AtIsAffine(r: Ray, s: real, t: real)
    ensures At(r, 0.0) == r.orig
    ensures At(r, s + t) == Add(At(r, s), ScaleLeft(t, r.dir))
  {
    assert (s + t) * r.dir.x == s * r.dir.x + t * r.dir.x;
    assert (s + t) * r.dir.y == s * r.dir.y + t * r.dir.y;
    assert (s + t) * r.dir.z == s * r.dir.z + t * r.dir.z;
  }
}
