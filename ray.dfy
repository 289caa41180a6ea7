/**
 * The ray of the renderer: an origin, a direction and the instant it is cast at.
 * The `time` member is read by the moving sphere and carried by every scattered ray.
 */
module Rays {

  import opened Vectors

  datatype Ray = Ray(origin: Point3, direction: Vec3, time: real)

  /** `At(t) = origin + t * direction`: the point reached after moving `t` along the ray. */
  function At(r: Ray, t: real): (p: Point3)
    ensures t == 0.0 ==> p == r.origin
    ensures Sub(p, r.origin) == Scale(t, r.direction)
  {
    Add(r.origin, Scale(t, r.direction))
  }
}
