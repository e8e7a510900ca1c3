/** Ray (src/ray.ts): an origin and an unnormalised direction. */
module Rays {
  import opened Vectors

  datatype Ray = Ray(orig: Point3, dir: Vec3)

  /** at(t) = orig + t dir. */
  function At(r: Ray, t: real): Point3 {
    Add(r.orig, Scale(r.dir, t))
  }

  /** at(0) is the origin, and at(t) - orig is t dir. */
  lemma AtOrigin(r: Ray, t: real)
    ensures At(r, 0.0) == r.orig
    ensures Sub(At(r, t), r.orig) == Scale(r.dir, t)
  {}

  /** at is affine in t. */
  lemma AtAffine(r: Ray, t: real, s: real)
    ensures At(r, t + s) == Add(At(r, t), Scale(r.dir, s))
  {}
}
