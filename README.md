# A verified model of a Monte Carlo ray tracer

This project models the core of a small Rust ray tracer in Dafny. The core
covers:

- three-component vector algebra;
- rays;
- the closest-hit scan over a list of objects;
- ray-sphere intersection;
- the three surface materials and how they scatter light;
- the pinhole camera;
- an earlier snapshot of the vector type.

The model works over `real` in place of `f64`. The square root, the tangent
and the degrees-to-radians conversion are parameters of type `real -> real`.
Lemmas that need an exact square root take `ExactSqrt(sqrt)` as a hypothesis.
The random source also becomes explicit inputs:

- the rejection samplers take a finite stream of candidate draws;
- `scatter` takes the vector sample and the uniform draw it would have made.

Modules, one file each:

| file | module | models |
|---|---|---|
| options.dfy | `Options` | `Option<T>` |
| arith.dfy | `RealArith` | small facts about products of reals used by the proofs |
| vector3.dfy | `Vector3` | src/vector3.rs |
| ray.dfy | `Rays` | the `Ray` type used by src/sphere.rs and src/camera.rs |
| material.dfy | `Materials` | the `Material` enum, its constructors and default (src/material.rs:4-35) |
| hittable.dfy | `Hittables` | src/hittable.rs |
| sphere.dfy | `Spheres` | src/sphere.rs |
| scatter.dfy | `Scattering` | `scatter` and `reflectance` (src/material.rs:37-89) |
| camera.dfy | `Cameras` | src/camera.rs |
| early_vec3.dfy | `EarlyVec3` | ray_tracer/src/vec3.rs |

src/material.rs is split across two modules. A hit record carries a material,
and `scatter` reads hit records, so one module would have to import the other
both ways.

Where the code mutates, the model does too:

- The compound assignments (`+=`, `*=`, `/=`) are methods of a `Vec3Cell`
  class. Each one updates three fields in place.
- `HittableList` is a class with a `seq` field that `add` and `clear` reassign.
  Its `hit` is a `while` loop that keeps `closest_so_far` and the remembered
  record. The loop is proved against a left fold, `ScanFrom`.
- The rejection samplers are loops over their candidate stream.
- `Sphere::hit` is a method that reassigns `root`. It is proved equal to the
  function `SphereHit`, which the lemmas use.

Everything else is a function, as in the source.

## Model

| member | source | states |
|---|---|---|
| Vector3.Sub | src/vector3.rs:139-149 | `u - v` is the inverse of `+`: `(u - v) + v == u` |
| Vector3.Neg | src/vector3.rs:151-161 | `-v` is the additive inverse: `v + (-v) == 0` |
| Vector3.ScaleLeftLaws | src/vector3.rs:187-197 | `s * v` (`ScaleLeft`) agrees with `v * s`, multiplies every dot product with `v` by `s` and the squared length of `v` by `s^2` |
| Vector3.Div | src/vector3.rs:175-185 | `v / s` undoes `* s` for a non-zero `s` |
| Vector3.LengthSquared | src/vector3.rs:19-21 | `length_squared` is never negative and equals `dot(v, v)` |
| Vector3.DotLaws | src/vector3.rs:31-33 | `dot` (`Dot`) is symmetric, additive and homogeneous in its first argument, and `dot(v, v) == 0` iff `v` is the zero vector |
| Vector3.LengthIsRoot | src/vector3.rs:23-25 | with an exact square root, `length` (`Length`) is non-negative, squares to `length_squared`, and is zero iff the vector is zero |
| Vector3.NormalizedIsUnit | src/vector3.rs:27-29 | with an exact square root and a non-zero length, `normalized` (`Normalized`) has squared length 1 and scaled back by the length gives the original vector |
| Vector3.Cross | src/vector3.rs:77-83 | the cross product is orthogonal to both arguments |
| Vector3.Reflect | src/vector3.rs:66-68 | about a unit normal, the normal component changes sign; a vector with no normal component is unchanged |
| Vector3.CosTheta | src/vector3.rs:71 | `refract`'s `cos_theta` is never above 1 and is `min(dot(-v, n), 1)` |
| Vector3.RandomInUnitSphere | src/vector3.rs:47-55 | the result is the first candidate with squared length below 1, so it lies strictly inside the unit sphere; there is none exactly when every candidate is rejected |
| Vector3.RandomUnitVector | src/vector3.rs:57-59 | the result is the normalized point accepted by `random_in_unit_sphere` (only that point must have a non-zero length); there is none exactly when every candidate is rejected |
| Vector3.RandomInUnitDisk | src/vector3.rs:85-99 | the result is the first candidate pair inside the unit disk, with z = 0 and squared length below 1; there is none exactly when every candidate is rejected |
| Vector3.Vec3Cell.constructor | src/vector3.rs:15-17 | a new place holds exactly the given vector |
| Vector3.Vec3Cell.AddAssign | src/vector3.rs:103-109 | `v += w` leaves `v == old(v) + w` |
| Vector3.Vec3Cell.MulAssign | src/vector3.rs:111-117 | `v *= s` leaves `v == old(v) * s` |
| Vector3.Vec3Cell.DivAssign | src/vector3.rs:119-125 | `v /= s` leaves `v == old(v) / s` |
| Vector3.AddAssignExamples | src/vector3.rs:214-225 | the `add_assign` test: `(1,2,3) += (-2,0,2)` gives (-1,2,5), then `(-2,0,2) += (-3,-6,-9)` gives (-5,-6,-7) |
| Vector3.MulAssignExamples | src/vector3.rs:227-251 | the `mul_assign` and `multiply_by_float` tests: `(1,2,3) *= 2` gives (2,4,6), `(1,2,3) *= -3` gives (-3,-6,-9), `(-2,0,2) *= 2` gives (-4,0,4) |
| Vector3.DivAssignExamples | src/vector3.rs:234-263 | the `div_assign` and `divide_by_float` tests: `(2,4,6) /= 2` gives (1,2,3), `(3,6,9) /= -3` gives (-1,-2,-3), `(-2,0,2) /= 2` gives (-1,0,1) |
| Vector3.AddLaws | src/vector3.rs:127-161 | `+` (`Add`) is commutative and associative with identity 0, `v + (-v) == 0`, and `u - v == u + (-v)` |
| Vector3.ScaleLaws | src/vector3.rs:151-173 | `v * s` (`Scale`) distributes over `+` of vectors and of factors, `(v * s) * t == v * (s t)`, `v * 1 == v`, `v * 0 == 0`, and `-v == v * -1` |
| Vector3.MulLaws | src/vector3.rs:199-208 | the component-wise product (`Mul`) is commutative, has identity (1, 1, 1), and multiplying by `(s, s, s)` is `v * s` |
| Vector3.OperatorExamples | src/vector3.rs:266-311 | the source's operator, `near_zero` and `cross` tests, e.g. (1,2,3)+(1,2,3) = (2,4,6) and cross((2,3,4),(5,6,7)) = (-3,6,-3) |
| Vector3.NearZeroComponents | src/vector3.rs:61-64 | `near_zero` holds exactly when every component lies strictly between -1e-8 and 1e-8 |
| Vector3.NearZeroIsShort | src/vector3.rs:61-64 | a near-zero vector (`NearZero`) has squared length below 3e-16 |
| Vector3.ShortIsNearZero | src/vector3.rs:61-64 | conversely, a vector with squared length below 1e-16 is near zero |
| Vector3.ReflectInvolution | src/vector3.rs:66-68 | reflecting twice about the same unit normal gives the original vector |
| Vector3.ReflectKeepsLength | src/vector3.rs:66-68 | reflection about a unit normal keeps the squared length |
| Vector3.ReflectKeepsTangent | src/vector3.rs:66-68 | reflection about a unit normal keeps the part of the vector along the surface, so with `Reflect`'s sign flip of the normal part it is the mirror image |
| Vector3.CrossLength | src/vector3.rs:77-83 | Lagrange's identity: the squared length of `u x v` is `length_squared(u) * length_squared(v) - dot(u, v)^2` |
| Vector3.UnitDotBounded | src/vector3.rs:31-33 | the dot product of two unit vectors lies in [-1, 1] |
| Vector3.CosThetaOfUnits | src/vector3.rs:70-71 | for unit vectors the clamp in `refract` never bites: `cos_theta == -dot(v, n)` |
| Vector3.RefractRatioOneUnchanged | src/vector3.rs:70-75 | with an exact square root, refracting a unit ray through index ratio 1 at a unit normal it meets from the front leaves it unchanged |
| Vector3.RefractPerpendicular | src/vector3.rs:70-72 | for unit `v` and `n`, `r_out_perp` is `ratio` times the part of `v` along the surface, orthogonal to `n`, with squared length `ratio^2 (1 - dot(v, n)^2)` |
| Vector3.RefractSnell | src/vector3.rs:70-75 | `refract` (`Refract`) of a unit ray at a unit normal, without total internal reflection and with an exact square root, is a unit vector leaving on the far side (`dot(r, n) <= 0`) whose part along the surface is `ratio` times that of the incoming ray (Snell's law) |
| Rays.At | src/sphere.rs:32 | `at(t) - orig == t * dir` |
| Rays.AtIsAffine | src/camera.rs:35-38 | `at(0)` is the origin, and `at(s + t) == at(s) + t * dir` |
| Materials.NewLambertian | src/material.rs:12-14 | builds a Lambertian material with the given albedo |
| Materials.NewMetal | src/material.rs:15-20 | builds a metal; the fuzz is kept below 1 and clamped to 1 otherwise, so it never exceeds 1 or the argument |
| Materials.NewDielectric | src/material.rs:22-26 | builds a dielectric with the given index |
| Materials.DefaultMaterial | src/material.rs:29-35 | the default material is Lambertian with a zero albedo |
| Materials.NewMetalIdempotent | src/material.rs:15-20 | clamping the fuzz twice is the same as clamping once |
| Hittables.DefaultRecord | src/hittable.rs:3-9 | the default record has every field at its default and the default material |
| Hittables.SetFaceNormal | src/hittable.rs:17-20 | `front_face` holds iff `dot(dir, outward) < 0`; the normal is `outward` on a front face and `-outward` otherwise; so `dot(dir, normal) <= 0`; the other fields are unchanged |
| Hittables.SetFaceNormalIdempotent | src/hittable.rs:17-20 | orienting a record twice against the same ray gives the same record |
| Hittables.HittableList.constructor | src/hittable.rs:11-14 | a new list is empty |
| Hittables.HittableList.Clear | src/hittable.rs:28-30 | `clear` leaves the list empty |
| Hittables.HittableList.Add | src/hittable.rs:31-33 | `add` appends one object at the end and keeps the others in order |
| Hittables.HittableList.Hit | src/hittable.rs:38-50 | the loop returns `ClosestHit`; the result is `None` iff every object misses on `[t_min, t_max]`; with range-respecting objects the returned `t` lies in `[t_min, t_max]` |
| Hittables.ScanKeepsSome | src/hittable.rs:42-47 | once a record is remembered, the scan returns some record |
| Hittables.ScanNoneIff | src/hittable.rs:39-49 | a scan starting from nothing finds nothing iff every object misses on the whole range |
| Hittables.ClosestHitNoneIff | src/hittable.rs:38-50 | `hit` (the fold `ClosestHit`) returns `None` iff every object returns `None` on `[t_min, t_max]` |
| Hittables.ScanBound | src/hittable.rs:40-46 | `closest_so_far` never increases during the scan, and a remembered `t` stays at least `t_min` |
| Hittables.ClosestHitInRange | src/hittable.rs:38-50 | if every object respects its range, a returned record has `t_min <= t <= t_max` |
| Hittables.ScanLastHit | src/hittable.rs:42-49 | the scan's result is the start record when nobody hit, or the record of the last object that hit when asked on `[t_min, c]` with `c` the bound left by the objects before it, with every later object missing below its `t` |
| Hittables.ClosestHitIsLastHit | src/hittable.rs:42-49 | a returned record (of `ClosestHit`) is the one the last object that hit produced on `[t_min, closest_so_far]`, `closest_so_far` being what the earlier objects left |
| Hittables.ScanNearest | src/hittable.rs:38-50 | with objects whose report is stable when the range is narrowed down to it, the scan's `t` is at most any object's `t` on `[t_min, t_max]` |
| Hittables.ClosestHitIsNearest | src/hittable.rs:38-50 | with such objects, `hit` returns a record whose `t` is at most the `t` any object reports on `[t_min, t_max]` |
| Spheres.Hit | src/sphere.rs:12-37 | the step-by-step method equals `SphereHit`; a returned `t` is in range; a negative discriminant gives `None` |
| Spheres.NegativeDiscriminantMisses | src/sphere.rs:18-19 | a negative discriminant `half_b^2 - a c` yields `None` |
| Spheres.RootSelection | src/sphere.rs:22-29 | in `SphereHit` (the function form of `hit`), the nearer root is chosen when in range, else the farther one when in range, else `None`; a hit exists iff the discriminant is non-negative and some root is in range; a returned `t` lies in `[t_min, t_max]` |
| Spheres.HitRecordShape | src/sphere.rs:30-34 | the record built by `RecordAt`: its point is `r.at(t)`; its normal is `±(p - center) / radius`, facing against the ray; its material is the default |
| Spheres.NearRootSolvesQuadratic | src/sphere.rs:13-23 | with an exact square root, the nearer root `(-half_b - sqrt(d)) / a` solves `a t^2 + 2 half_b t + c = 0` |
| Spheres.FarRootSolvesQuadratic | src/sphere.rs:13-25 | with an exact square root, the farther root `(-half_b + sqrt(d)) / a` solves the same quadratic |
| Spheres.PointOnRayFromCenter | src/sphere.rs:13-16 | `|at(t) - center|^2 == |orig - center|^2 + 2 t ((orig - center) . dir) + t^2 |dir|^2` |
| Spheres.RootOnSphere | src/sphere.rs:13-16 | any root `t` of the quadratic puts `at(t)` on the sphere: `|at(t) - center|^2 == radius^2` |
| Spheres.HitPointOnSphere | src/sphere.rs:13-32 | with an exact square root, a hit point satisfies `|p - center|^2 == radius^2` |
| Spheres.SphereStableWhenNarrowed | src/sphere.rs:22-29 | narrowing `t_max` down to the reported `t` keeps the same report |
| Spheres.RootIsNearOrFarRoot | src/sphere.rs:13-25 | with an exact square root, every root of the quadratic is the nearer or the farther root, and the discriminant is then not negative |
| Spheres.NearRootFirst | src/sphere.rs:22-25 | with an exact square root, the nearer root `(-half_b - sqrtd) / a` is at most the farther one `(-half_b + sqrtd) / a` |
| Spheres.SphereReportsNearestRoot | src/sphere.rs:12-37 | with an exact square root, if the ray meets the sphere at any `t` in `[t_min, t_max]`, `hit` reports a hit whose `t` is at most that one: the closest valid root |
| Spheres.SphereIsWellBehaved | src/sphere.rs:12-37 | a sphere object reports only in-range hits, and its report is stable when the range is narrowed down to it |
| Spheres.SceneOfSpheresNearest | src/hittable.rs:38-50 | for a list of spheres, `hit` is `None` iff every sphere misses; otherwise it returns an in-range record no farther than any sphere's own hit |
| Spheres.SceneHitIsNearestIntersection | src/hittable.rs:38-50 | with an exact square root, if the ray meets any sphere of the list at a `t` in `[t_min, t_max]`, the list's `hit` returns a record whose `t` is at most that one |
| Scattering.RefractionRatio | src/material.rs:60-64 | the ratio is `1 / index` on a front face (`ratio * index == 1`) and `index` otherwise |
| Scattering.LambertianDirection | src/material.rs:47-52 | the direction is `normal + sample` or `normal`; it is never near zero when the normal is not |
| Scattering.Scatter | src/material.rs:37-83 | every branch sends the scattered ray from `rec.p` |
| Scattering.LambertianScatter | src/material.rs:46-55 | Lambertian always scatters with attenuation = albedo; the direction is exactly `rec.normal` when `normal + sample` is near zero and `normal + sample` otherwise |
| Scattering.MetalScatter | src/material.rs:39-45 | metal attenuates by albedo, scatters iff `dot(scattered.dir, normal) > 0`, and sends the ray along `reflect(unit dir, normal) + fuzz * sample` |
| Scattering.MetalMirror | src/material.rs:39-44 | with fuzz 0 the direction is exactly `reflect(unit dir, normal)`; about a unit normal it scatters iff the ray came in against the normal |
| Scattering.DielectricDirection | src/material.rs:66-77 | the direction is the reflection or the refraction of the unit direction, and the reflection whenever `ratio * sin_theta > 1` |
| Scattering.DielectricScatter | src/material.rs:57-81 | a dielectric always scatters with attenuation (1, 1, 1); it reflects under total internal reflection, reflects when the reflectance exceeds the draw, and refracts otherwise |
| Scattering.TotalInternalReflectionIgnoresDraw | src/material.rs:70-74 | under total internal reflection the result does not depend on the random draw |
| Scattering.EqualIndicesRefract | src/material.rs:68-70 | with ratio 1 and a cosine in [0, 1], `cannot_refract` is false |
| Scattering.MatchedIndexPassesStraight | src/material.rs:57-81 | with an exact square root and a unit normal, a dielectric of index 1 lets a ray met from the front through unbent (along its normalized direction) when the draw does not trigger a reflection |
| Scattering.DielectricKeepsUnitLength | src/material.rs:57-81 | with an exact square root, a unit normal and a positive index, the dielectric's scattered direction, reflected or refracted, is a unit vector |
| Scattering.RefractionBelowOne | src/material.rs:66-70 | when `ratio * sin_theta <= 1` (`cannot_refract` false), `ratio^2 (1 - cos_theta^2) <= 1`, so `refract`'s perpendicular part is at most unit length |
| Scattering.ReflectanceAtNormalIncidence | src/material.rs:85-89 | `reflectance` (`Reflectance`) at cosine 1, `reflectance(1, idx)`, is Schlick's `r0 = ((1 - idx) / (1 + idx))^2` |
| Scattering.ReflectanceAtGrazingIncidence | src/material.rs:85-89 | `reflectance(0, idx) == 1` |
| Scattering.ReflectanceMatchedIndex | src/material.rs:85-89 | for index 1, `r0` vanishes and `reflectance(c, 1) == (1 - c)^5` |
| Scattering.ReflectanceBounds | src/material.rs:85-89 | for a non-negative index and a cosine in [0, 1], `r0 <= reflectance <= 1` and `0 <= r0 <= 1` |
| Cameras.NewCamera | src/camera.rs:12-32 | the origin is zero; `horizontal` lies along x and `vertical` along y; the height is `2 tan(theta / 2)` and the width is `aspect_ratio` times the height; the lower-left corner is `(-w/2, -h/2, -1)` |
| Cameras.GetRay | src/camera.rs:34-39 | the ray starts at the camera's origin and reaches `lower_left + u horizontal + v vertical` at parameter 1 |
| Cameras.NewCameraRayDirection | src/camera.rs:12-39 | for a new camera the direction through `(u, v)` is `((u - 1/2) w, (v - 1/2) h, -1)` |
| Cameras.CenterRayOnAxis | src/camera.rs:18-24 | `get_ray(0.5, 0.5)` leaves the origin along (0, 0, -1) |
| Cameras.GetRayIsAffine | src/camera.rs:34-39 | moving `(u, v)` by `(du, dv)` adds `du horizontal + dv vertical` to the direction |
| EarlyVec3.New | ray_tracer/src/vec3.rs:11-13 | `new(x, y, z)` stores exactly x, y and z |
| EarlyVec3.LengthSquared | ray_tracer/src/vec3.rs:15-17 | `length_squared` is never negative and is zero for the zero vector |
| EarlyVec3.AddIsCommutativeWithIdentity | ray_tracer/src/vec3.rs:24-31 | `+` (`Add`) is commutative with the zero vector as identity |
| EarlyVec3.AddExample | ray_tracer/src/vec3.rs:47-52 | (1,2,3) + (1,2,3) = (2,4,6) |
| EarlyVec3.Vec3Cell.constructor | ray_tracer/src/vec3.rs:11-13 | a new place holds exactly the given vector |
| EarlyVec3.Vec3Cell.AddAssign | ray_tracer/src/vec3.rs:33-38 | `v += rhs`, as written, adds `rhs.x` to all three components |
| EarlyVec3.AddAssignAgreesWithAddIff | ray_tracer/src/vec3.rs:24-38 | `+=` as written (`AddAssignAsWritten`) agrees with `+` exactly when `rhs.y == rhs.x` and `rhs.z == rhs.x` |
| EarlyVec3.AddAssignDisagreesWithAdd | ray_tracer/src/vec3.rs:33-52 | on the test's own input, `(1,2,3) += (1,2,3)` gives (2,3,4), not the (2,4,6) that `+` gives |

## Left out

- src/main.rs and ray_tracer/src/main.rs are render drivers. Image output, progress messages, pixel quantisation, the scene set-up and their `ray_colour` functions are not modelled: the one in src/main.rs:62-72 shades a hit by its normal and a miss by the sky gradient, and the one in ray_tracer/src/main.rs:50-54 returns only the sky gradient.
- src/utils.rs (the random number generator and `degrees_to_radians`) and src/lib.rs (module wiring) are not part of this model. Randomness enters as explicit inputs, and the angle conversion and `tan` as function parameters.
- src/ray.rs is not part of this model. `Ray` is defined from its uses: `orig`, `dir` and `at(t) = orig + t * dir`.
- IEEE-754 floating point is not modelled. There is no rounding, NaN or infinity.
- Where the source would divide by zero, the model demands the divisor be non-zero. This covers a zero-length ray direction or a zero radius in `Sphere::hit`, normalizing a zero vector, and `/ 0`.
- `Spheres.AsObject` reports no hit for a zero-length direction or a zero radius. In the source, a zero direction makes `a`, `half_b` and the discriminant 0, so the root is `0/0 = NaN`; NaN fails both range comparisons, so `hit` returns `Some` with `t = NaN`. A zero radius divides `p - center` by 0, so the record's normal is infinite or NaN. Real numbers have no NaN, so these records are not modelled.
- The square root, `tan` and `powf` are not exact in the source. Properties that need an exact square root say so (`ExactSqrt`), and `powf(x, 5.0)` is a fifth power.
- Vector3.RandomInUnitSphere, Vector3.RandomUnitVector, Vector3.RandomInUnitDisk: the source loops until a draw is accepted, which ends only with probability 1. The model reads a finite stream of candidate draws and returns `None` if the stream runs out.
- Vector3.RandomInUnitSphere: the candidates are not required to have components in [-1, 1], as `random_in_range(-1.0, 1.0)` would give them.
- Statistical and physical claims are not stated. These include the cosine-weighted distribution of Lambertian scattering, the unbiasedness of the estimator and the accuracy of Schlick's approximation.
- That the sphere's outward normal has unit length is not proved; lemmas that need a unit normal (`Scattering.MatchedIndexPassesStraight`, `Scattering.DielectricKeepsUnitLength`, `Vector3.RefractSnell`) take it as a hypothesis. `normalized` is proved unit (`Vector3.NormalizedIsUnit`) under an exact square root.
- Scattering.Scatter: the metal and dielectric branches require the incoming direction to have a non-zero length. The dielectric branch also requires the index to be non-zero on a front face and `1 + ratio` to be non-zero, because the source divides by each.
- Scattering.LambertianDirection and Scattering.Reflectance: `scatter` reassigns its local `scatter_direction`, and `reflectance` squares `r0` in place. Both reassignments are expressed as functions of the final value.
- Hittables.SetFaceNormal: `set_face_normal` assigns two fields through `&mut self`. Because `HitRecord` is a value type here, it is a function that returns the updated record.
- Hittables.HitRecord: the record carries a `material` field that the struct in src/hittable.rs:4-9 lacks but `scatter` reads. `Sphere` in src/sphere.rs:5-9 has no material field, and the world built in src/main.rs:13-20 holds two spheres with only a centre and a radius. The model follows the code, so sphere records carry the default material.
- ray_tracer/src/vec3.rs:19-21 (`length` of the earlier snapshot) is the same definition as src/vector3.rs:23-25 and is modelled only once, as `Vector3.Length`.
- Hittables.HittableList.Hit: objects are their `hit` functions, so a list of `Box<dyn Hittable>` is a sequence of functions. The list's own `hit` is modelled, but a list cannot itself be an object inside another list (no nesting), and boxing is not modelled.

## Findings

| source | as written | input that shows it | evidently intended | confidence | as-written member | corrected member |
|---|---|---|---|---|---|---|
| ray_tracer/src/vec3.rs:33-38 | `add_assign` adds `rhs.x` to each of x, y and z | `v = (1,2,3); v += (1,2,3)` leaves (2,3,4) | component-wise `v += rhs`, agreeing with `+`, giving (2,4,6) | not executed | EarlyVec3.AddAssignDisagreesWithAdd | Vector3.Vec3Cell.AddAssign |
