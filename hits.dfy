/** The hit record of include/Util.h and the material variants it refers to.
    The source's `Material` class hierarchy with virtual `scatter` becomes one
    datatype with a constructor per class; the scatter rules live in module
    Materials. */
module Hits {
  import opened Vectors

  type PositiveReal = x: real | x > 0.0 witness 1.0

  datatype Material =
    | Absorbing                                   // the base class `Material`
    | Lambertian(albedo: Vec3)                    // `LambertianMaterial`
    | Metal(albedo: Vec3, fuzz: real)             // `MetalMaterial`
    | Dielectric(refractionIndexBase: PositiveReal) // `DialectricMaterial`

  /** A colour whose channels all lie in [0, 1]. */
  predicate InUnitCube(c: Vec3)
  {
    0.0 <= c.x <= 1.0 && 0.0 <= c.y <= 1.0 && 0.0 <= c.z <= 1.0
  }

  /** The material never brightens light: any albedo lies in the unit cube. */
  predicate AlbedoWithinUnit(m: Material)
  {
    (m.Lambertian? || m.Metal?) ==> InUnitCube(m.albedo)
  }

  /** `HitRecord`: the point, the oriented normal, the material of the surface
      that was hit, the ray parameter and whether the ray met the outside. */
  datatype HitRecord = HitRecord(p: Vec3, n: Vec3, material: Material, t: real, isFrontFace: bool) {

    /** `setFaceNormal`: orient the stored normal against the ray. */
    function SetFaceNormal(r: Ray, outwardNormal: Vec3): (rec: HitRecord)
      ensures rec.isFrontFace <==> Dot(r.dir, outwardNormal) < 0.0
      ensures rec.n == (if rec.isFrontFace then outwardNormal else Neg(outwardNormal))
      ensures Dot(r.dir, rec.n) <= 0.0
      ensures rec.isFrontFace ==> Dot(r.dir, rec.n) < 0.0
      ensures rec.p == p && rec.t == t && rec.material == material
    {
      var front := Dot(r.dir, outwardNormal) < 0.0;
      DotNeg(r.dir, outwardNormal);
      this.(isFrontFace := front, n := if front then outwardNormal else Neg(outwardNormal))
    }
  }
}
