/**
 * The pinhole camera of src/camera.rs: a viewport one unit in front of the
 * origin, looking down the negative z axis. The tangent and the conversion
 * from degrees to radians are caller-supplied functions.
 */
module Cameras {
  import opened Vector3
  import opened Rays

  /** The camera's four fields (src/camera.rs:4-9). */
  datatype Camera = Camera(origin: Vec3, lowerLeftCorner: Vec3, horizontal: Vec3, vertical: Vec3)

  /** The distance from the origin to the viewport. */
  const FocalLength: real := 1.0

  /** `2 * tan(theta / 2)` for the vertical field of view `vfov` in degrees. */
  function ViewportHeight(vfov: real, toRadians: real -> real, tan: real -> real): real {
    2.0 * tan(toRadians(vfov) / 2.0)
  }

  /**
   * `Camera::new(vfov, aspect_ratio)`: the origin sits at zero, the viewport
   * spans `horizontal` along x and `vertical` along y, its width is the
   * aspect ratio times its height, and its lower-left corner is half of each
   * span away from the axis, one focal length down the negative z axis.
   */
  function NewCamera(vfov: real, aspectRatio: real, toRadians: real -> real, tan: real -> real): (c: Camera)
    ensures c.origin == Zero
    ensures c.horizontal.y == 0.0 && c.horizontal.z == 0.0
    ensures c.vertical.x == 0.0 && c.vertical.z == 0.0
    ensures c.vertical.y == ViewportHeight(vfov, toRadians, tan)
    ensures c.horizontal.x == aspectRatio * c.vertical.y
    ensures c.lowerLeftCorner == Vec3(-c.horizontal.x / 2.0, -c.vertical.y / 2.0, -FocalLength)
  {
    var theta := toRadians(vfov);
    var h := tan(theta / 2.0);
    var viewportHeight := 2.0 * h;
    var viewportWidth := aspectRatio * viewportHeight;
    var horizontal := Vec3(viewportWidth, 0.0, 0.0);
    var vertical := Vec3(0.0, viewportHeight, 0.0);
    var origin := Zero;
    var lowerLeftCorner :=
      Sub(Sub(Sub(origin, Div(horizontal, 2.0)), Div(vertical, 2.0)), Vec3(0.0, 0.0, FocalLength));
    Camera(origin, lowerLeftCorner, horizontal, vertical)
  }

  /** The point of the viewport at fractions `u` across and `v` up. */
  function ViewportPoint(c: Camera, u: real, v: real): Vec3 {
    Add(Add(c.lowerLeftCorner, ScaleLeft(u, c.horizontal)), ScaleLeft(v, c.vertical))
  }

  /**
   * `Camera::get_ray(u, v)`: the ray leaves the camera's origin and reaches
   * the viewport point `(u, v)` at parameter 1.
   */
  function GetRay(c: Camera, u: real, v: real): (r: Ray)
    ensures r.orig == c.origin
    ensures At(r, 1.0) == ViewportPoint(c, u, v)
  {
    Ray(c.origin, Sub(Add(Add(c.lowerLeftCorner, ScaleLeft(u, c.horizontal)), ScaleLeft(v, c.vertical)), c.origin))
  }

  /**
   * For a camera built by `new`, the ray through `(u, v)` runs from the origin
   * towards `((u - 1/2) width, (v - 1/2) height, -1)`.
   */
  lemma NewCameraRayDirection(vfov: real, aspectRatio: real, toRadians: real -> real, tan: real -> real, u: real, v: real)
    ensures var c := NewCamera(vfov, aspectRatio, toRadians, tan);
            GetRay(c, u, v).dir == Vec3((u - 0.5) * c.horizontal.x, (v - 0.5) * c.vertical.y, -FocalLength)
  {
    var c := NewCamera(vfov, aspectRatio, toRadians, tan);
    var w := c.horizontal.x;
    var h := c.vertical.y;
    assert GetRay(c, u, v).dir == Vec3(-w / 2.0 + u * w, -h / 2.0 + v * h, -FocalLength);
    assert -w / 2.0 + u * w == (u - 0.5) * w;
    assert -h / 2.0 + v * h == (v - 0.5) * h;
  }

  /** The ray through the middle of the viewport looks straight down the axis. */
  lemma CenterRayOnAxis(vfov: real, aspectRatio: real, toRadians: real -> real, tan: real -> real)
    ensures var c := NewCamera(vfov, aspectRatio, toRadians, tan);
            GetRay(c, 0.5, 0.5) == Ray(Zero, Vec3(0.0, 0.0, -FocalLength))
  {
    NewCameraRayDirection(vfov, aspectRatio, toRadians, tan, 0.5, 0.5);
  }

  /**
   * `get_ray` is affine in `(u, v)`: moving across the viewport by `du` and
   * up by `dv` adds `du * horizontal + dv * vertical` to the direction.
   */
  lemma GetRayIsAffine(c: Camera, u: real, v: real, du: real, dv: real)
    ensures GetRay(c, u + du, v + dv).dir ==
            Add(GetRay(c, u, v).dir, Add(ScaleLeft(du, c.horizontal), ScaleLeft(dv, c.vertical)))
  {
    var a := GetRay(c, u + du, v + dv).dir;
    var b := Add(GetRay(c, u, v).dir, Add(ScaleLeft(du, c.horizontal), ScaleLeft(dv, c.vertical)));
    assert a.x == b.x;
    assert a.y == b.y;
    assert a.z == b.z;
  }
}
