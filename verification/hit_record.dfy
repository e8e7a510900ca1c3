/**
 * HitRecord (js/hittable.js): what an intersection reports. The record is
 * generic in the material so that materials, which read records, and shapes,
 * which write them, can be declared apart. The source mutates one record
 * through setFaceNormal and copy; here each returns the record's new value.
 */
module Hits {
  import opened Results
  import opened ExtReals
  import opened Vectors
  import opened Rays

  datatype HitRecord<M> = HitRecord(
    p: Point3,
    normal: Vec3,
    t: real,
    frontface: bool,
    material: M,
    u: real,
    v: real)

  /**
   * setFaceNormal: a front-face hit when the ray runs against the outward
   * normal, and the stored normal always faces the incoming ray.
   */
  function SetFaceNormal<M>(rec: HitRecord<M>, r: Ray, outward: Vec3): (res: HitRecord<M>)
    ensures res.frontface <==> Dot(r.dir, outward) < 0.0
    ensures res.normal == outward || res.normal == Neg(outward)
    ensures Dot(r.dir, res.normal) <= 0.0
    ensures res.p == rec.p && res.t == rec.t && res.material == rec.material
    ensures res.u == rec.u && res.v == rec.v
  {
    var front := Dot(r.dir, outward) < 0.0;
    rec.(frontface := front, normal := if front then outward else Neg(outward))
  }

  /** copy: the receiver's value after all seven fields are taken from `other`. */
  function Copy<M>(self: HitRecord<M>, other: HitRecord<M>): (res: HitRecord<M>)
    ensures res.p == other.p && res.normal == other.normal && res.t == other.t
    ensures res.frontface == other.frontface && res.material == other.material
    ensures res.u == other.u && res.v == other.v
  {
    self.(p := other.p, normal := other.normal, t := other.t, frontface := other.frontface,
          material := other.material, u := other.u, v := other.v)
  }

  /** copy leaves nothing of the receiver behind, and setFaceNormal is idempotent. */
  lemma HitRecordLaws<M>(self: HitRecord<M>, other: HitRecord<M>, r: Ray, outward: Vec3)
    ensures Copy(self, other) == other
    ensures SetFaceNormal(SetFaceNormal(self, r, outward), r, outward) == SetFaceNormal(self, r, outward)
  {}

  /** The stored normal is the outward one exactly on a front-face hit. */
  lemma FaceNormalOrientation<M>(rec: HitRecord<M>, r: Ray, outward: Vec3)
    ensures var res := SetFaceNormal(rec, r, outward);
      && (res.frontface ==> res.normal == outward)
      && (!res.frontface ==> res.normal == Neg(outward))
  {}

  /**
   * A shape accepts a root strictly inside the window: the source rejects
   * `root <= tmin || root >= tmax`, and tmax may be Infinity.
   */
  predicate InWindow(t: real, tmin: real, tmax: ExtReal) {
    tmin < t && Lt(Fin(t), tmax)
  }

  /** What a hit found with a wider window becomes under the bound `tmax`. */
  function Clip<M>(o: Option<HitRecord<M>>, tmax: ExtReal): (r: Option<HitRecord<M>>)
    ensures r.Some? <==> o.Some? && Lt(Fin(o.value.t), tmax)
    ensures r.Some? ==> r == o
  {
    if o.Some? && Lt(Fin(o.value.t), tmax) then o else None
  }

  /** Clipping twice clips by the smaller bound. */
  lemma ClipTwice<M>(o: Option<HitRecord<M>>, t1: Bound, t2: Bound)
    requires Le(t2, t1)
    ensures Clip(Clip(o, t1), t2) == Clip(o, t2)
  {
    if o.Some? && Lt(Fin(o.value.t), t2) {
      LtLeTransitive(Fin(o.value.t), t2, t1);
    }
  }
}
