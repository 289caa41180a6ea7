/**
 * The hit record of object/hittable.h: what an intersection reports, and the face
 * orientation step every primitive applies to its outward normal.
 *
 * The record is generic in the material type `M` (`shared_ptr<Material>` in the source).
 * `Record` is its value, `HitRecord` the object that `Hit` writes through its `HitRecord*` out-parameter.
 */
module Records {

  import opened Vectors
  import opened Rays

  datatype Record<M> = Record(p: Point3, normal: Vec3, material: M, t: real, u: real, v: real, frontFace: bool)

  /**
   * `SetFaceNormal(ray, outward_normal)`: the record faces the ray exactly when the ray runs
   * against the outward normal, and the stored normal always points back against the ray.
   */
  function WithFaceNormal<M>(rec: Record<M>, ray: Ray, outward: Vec3): (out: Record<M>)
    ensures out.frontFace <==> Dot(ray.direction, outward) < 0.0
    ensures out.normal == outward || out.normal == Neg(outward)
    ensures out.frontFace ==> out.normal == outward
    ensures !out.frontFace ==> out.normal == Neg(outward)
    ensures out.p == rec.p && out.t == rec.t && out.u == rec.u && out.v == rec.v
    ensures out.material == rec.material
  {
    var front := Dot(ray.direction, outward) < 0.0;
    rec.(frontFace := front, normal := if front then outward else Neg(outward))
  }

  /** The oriented normal never points along the ray, and orienting keeps its length. */
  lemma FaceNormalAgainstRay<M>(rec: Record<M>, ray: Ray, outward: Vec3)
    ensures Dot(ray.direction, WithFaceNormal(rec, ray, outward).normal) <= 0.0
    ensures LengthSquared(WithFaceNormal(rec, ray, outward).normal) == LengthSquared(outward)
  {
    DotNeg(ray.direction, outward);
    LengthSquaredNeg(outward);
  }

  /**
   * Orienting a record again by its own (already oriented) normal keeps the normal and marks
   * the record as front-facing, unless the ray grazes the surface.
   */
  lemma ReorientOwnNormal<M>(rec: Record<M>, ray: Ray, outward: Vec3)
    requires Dot(ray.direction, outward) != 0.0
    ensures var once := WithFaceNormal(rec, ray, outward);
            var twice := WithFaceNormal(once, ray, once.normal);
            twice.normal == once.normal && twice.frontFace
  {
    DotNeg(ray.direction, outward);
  }

  /** A `HitRecord` object: the fields that `Hit` and `SetFaceNormal` assign in place. */
  class HitRecord<M> {
    var p: Point3
    var normal: Vec3
    var material: M
    var t: real
    var u: real
    var v: real
    var frontFace: bool

    function Value(): Record<M>
      reads this
    {
      Record(p, normal, material, t, u, v, frontFace)
    }

    constructor (init: Record<M>)
      ensures Value() == init
    {
      p, normal, material := init.p, init.normal, init.material;
      t, u, v, frontFace := init.t, init.u, init.v, init.frontFace;
    }

    /** `*hit_record = other`: every field copied. */
    method Assign(rec: Record<M>)
      modifies this
      ensures Value() == rec
    {
      p, normal, material := rec.p, rec.normal, rec.material;
      t, u, v, frontFace := rec.t, rec.u, rec.v, rec.frontFace;
    }

    /** `SetFaceNormal`: assigns `front_face` and then `normal`, nothing else. */
    method SetFaceNormal(ray: Ray, outward: Vec3)
      modifies this
      ensures Value() == WithFaceNormal(old(Value()), ray, outward)
    {
      frontFace := Dot(ray.direction, outward) < 0.0;
      normal := if frontFace then outward else Neg(outward);
    }
  }
}
