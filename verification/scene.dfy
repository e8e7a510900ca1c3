/**
 * The scene (js/hittable.js and the hit of src/bvh.ts): spheres, quads,
 * lists and BVH nodes behind one `hit` interface. A list searches its
 * objects in order, each up to the nearest hit found so far; a node first
 * tests its box, then searches its right child up to its left child's hit.
 * The record the source threads through these calls is written only on
 * success, so each search returns an Option of the record it would leave.
 */
module Scenes {
  import opened Results
  import opened ExtReals
  import opened Intervals
  import opened Vectors
  import opened Rays
  import opened Boxes
  import opened Hits
  import opened Materials
  import Numeric
  import Spheres
  import Quads

  /**
   * Spheres, quads and lists cache their bounding box. A node's cached box
   * is the hull of its children's boxes, written once by its constructor,
   * so it is derived here rather than stored.
   */
  datatype Hittable =
    | SphereObj(sphere: Spheres.Sphere, bbox: AABB)
    | QuadObj(quad: Quads.Quad, bbox: AABB)
    | List(objects: seq<Hittable>, bbox: AABB)
    | Node(left: Hittable, right: Hittable)

  /** boundingBox(): the cached box; for a node, AABB.fromAABBs of its children's boxes. */
  function BoundingBox(h: Hittable): (box: AABB)
    ensures h.Node? ==> SubBox(BoundingBox(h.left), box) && SubBox(BoundingBox(h.right), box)
  {
    if h.Node? then FromAABBs(BoundingBox(h.left), BoundingBox(h.right)) else h.bbox
  }

  /** new Sphere(center, radius, mat): the box is computed once, from the center and radius. */
  function NewSphere(s: Spheres.Sphere): (h: Hittable)
    ensures h.SphereObj? && h.sphere == s && Ordered(BoundingBox(h))
  {
    SphereObj(s, Spheres.BoundingBox(s))
  }

  /** The cached box holds every point of the sphere's surface. */
  lemma NewSphereCovers(s: Spheres.Sphere, p: Point3)
    requires Spheres.OnSphere(s, p)
    ensures Inside(BoundingBox(NewSphere(s)), p)
  {
    Spheres.SurfaceInsideBox(s, p);
  }

  /**
   * new Quad(Q, u, v, mat) as a scene leaf: the box is computed once, from Q,
   * u and v. The leaf caches the corrected two-diagonal box; the source's
   * one-diagonal box is Quads.BoxAsWritten.
   */
  function NewQuad(q: Quads.Quad): (h: Hittable)
    ensures h.QuadObj? && h.quad == q
  {
    QuadObj(q, Quads.BoundingBox(q))
  }

  /** The cached box holds every point of the parallelogram. */
  lemma NewQuadCovers(q: Quads.Quad, a: real, b: real)
    requires 0.0 <= a <= 1.0 && 0.0 <= b <= 1.0
    ensures Inside(BoundingBox(NewQuad(q)), Quads.Corner(q.q, q.u, q.v, a, b))
  {
    Quads.ParallelogramInsideBox(q.q, q.u, q.v, a, b);
  }

  // ---------------------------------------------------------------------------
  // hit

  /**
   * obj.hit(ray, tmin, tmax, rec). A sphere of radius 0 is reported as a
   * miss (the source divides by the radius and records a NaN normal).
   */
  function Hit(m: Numeric.MathLib, h: Hittable, r: Ray, tmin: real, tmax: Bound): (res: Option<Record>)
    ensures res.Some? ==> InWindow(res.value.t, tmin, tmax)
    decreases h, 1
  {
    match h
    case SphereObj(s, _) => if s.radius == 0.0 then None else Spheres.Hit(m, s, r, tmin, tmax)
    case QuadObj(q, _) => Quads.Hit(q, r, tmin, tmax)
    case List(_, _) => ListFrom(m, h, 0, r, tmin, tmax, None)
    case Node(left, right) =>
      if !Boxes.Hit(BoundingBox(h), r, Interval(Fin(tmin), tmax)).hit then None
      else
        var hitLeft := Hit(m, left, r, tmin, tmax);
        var hitRight := Hit(m, right, r, tmin, if hitLeft.Some? then Fin(hitLeft.value.t) else tmax);
        if hitRight.Some? then hitRight else hitLeft
  }

  /**
   * HittableList.hit from object `i` on, with `closest` the closestSoFar
   * bound and `acc` the record copied so far. Each accepted hit lies strictly
   * inside the current bound, so the bound only shrinks.
   */
  function ListFrom(m: Numeric.MathLib, list: Hittable, i: nat, r: Ray, tmin: real, closest: Bound,
                    acc: Option<Record>): (res: Option<Record>)
    requires list.List? && i <= |list.objects|
    ensures res.Some? ==> res == acc || InWindow(res.value.t, tmin, closest)
    decreases list, 0, |list.objects| - i
  {
    if i == |list.objects| then acc
    else
      var found := Hit(m, list.objects[i], r, tmin, closest);
      if found.Some? then
        var res := ListFrom(m, list, i + 1, r, tmin, Fin(found.value.t), found);
        assert res.Some? ==> res == found || InWindow(res.value.t, tmin, Fin(found.value.t));
        res
      else
        ListFrom(m, list, i + 1, r, tmin, closest, acc)
  }

  // ---------------------------------------------------------------------------
  // The list's operations

  /** new HittableList(objects): the box starts as the default, whatever the objects. */
  function NewList(objects: seq<Hittable>): (list: Hittable)
    ensures list.List? && list.objects == objects && list.bbox == Default
  {
    List(objects, Default)
  }

  /** add(object): append, and widen the cached box by the object's box. */
  function Add(list: Hittable, obj: Hittable): (res: Hittable)
    requires list.List?
    ensures res.List? && res.objects == list.objects + [obj]
    ensures SubBox(list.bbox, res.bbox) && SubBox(BoundingBox(obj), res.bbox)
  {
    List(list.objects + [obj], FromAABBs(list.bbox, BoundingBox(obj)))
  }

  /** clear(): the objects go, the cached box stays as it was. */
  function Clear(list: Hittable): (res: Hittable)
    requires list.List?
    ensures res.List? && res.objects == [] && res.bbox == list.bbox
  {
    List([], list.bbox)
  }

  /** A list built by adding `objects` one after another to `list`. */
  function AddAll(list: Hittable, objects: seq<Hittable>): (res: Hittable)
    requires list.List?
    ensures res.List?
    decreases |objects|
  {
    if objects == [] then list
    else AddAll(Add(list, objects[0]), objects[1..])
  }

  /** Adding keeps every earlier object and appends the new ones in order. */
  lemma {:induction false} AddAllAppends(list: Hittable, objects: seq<Hittable>)
    requires list.List?
    ensures AddAll(list, objects).objects == list.objects + objects
    decreases |objects|
  {
    if objects != [] {
      var next := Add(list, objects[0]);
      AddAllAppends(next, objects[1..]);
      assert next.objects + objects[1..] == list.objects + objects;
    }
  }

  /** The cached box of a list built by adding covers its starting box and every added object's box. */
  lemma {:induction false} AddAllCovers(list: Hittable, objects: seq<Hittable>)
    requires list.List?
    ensures SubBox(list.bbox, AddAll(list, objects).bbox)
    ensures forall i :: 0 <= i < |objects| ==> SubBox(BoundingBox(objects[i]), AddAll(list, objects).bbox)
    decreases |objects|
  {
    if objects != [] {
      var next := Add(list, objects[0]);
      AddAllCovers(next, objects[1..]);
      var res := AddAll(next, objects[1..]);
      assert res == AddAll(list, objects);
      SubBoxTransitive(list.bbox, next.bbox, res.bbox);
      SubBoxTransitive(BoundingBox(objects[0]), next.bbox, res.bbox);
      forall i | 1 <= i < |objects|
        ensures SubBox(BoundingBox(objects[i]), res.bbox)
      {
        assert objects[i] == objects[1..][i - 1];
      }
    }
  }

  /** A cleared list reports no hit, whatever its stale box. */
  lemma ClearedListMisses(m: Numeric.MathLib, list: Hittable, r: Ray, tmin: real, tmax: Bound)
    requires list.List?
    ensures Hit(m, Clear(list), r, tmin, tmax).None?
  {}

  // ---------------------------------------------------------------------------
  // The nearest hit, defined independently of the search

  /** An object's hit with no upper bound on t. */
  function Unbounded(m: Numeric.MathLib, o: Hittable, r: Ray, tmin: real): Option<Record> {
    Hit(m, o, r, tmin, PosInf)
  }

  /** A hit's distance along the ray; +Infinity for a miss. */
  function Dist(o: Option<Record>): Bound {
    if o.Some? then Fin(o.value.t) else PosInf
  }

  /**
   * The hit of least t among the objects' unbounded hits, the earliest
   * object winning a tie: a later hit replaces an earlier one only when it
   * is strictly nearer.
   */
  function Nearest(m: Numeric.MathLib, objects: seq<Hittable>, r: Ray, tmin: real): Option<Record>
    decreases |objects|
  {
    if objects == [] then None
    else
      var init := Nearest(m, objects[..|objects| - 1], r, tmin);
      var last := Unbounded(m, objects[|objects| - 1], r, tmin);
      if last.Some? && (init.None? || last.value.t < init.value.t) then last else init
  }

  /** `d` is the least distance of the objects' unbounded hits. */
  ghost predicate IsLeastDist(d: Bound, m: Numeric.MathLib, objects: seq<Hittable>, r: Ray, tmin: real) {
    && (forall j :: 0 <= j < |objects| ==> Le(d, Dist(Unbounded(m, objects[j], r, tmin))))
    && (d == PosInf || exists j :: 0 <= j < |objects| && d == Dist(Unbounded(m, objects[j], r, tmin)))
  }

  /** The first n objects of a sequence are searched alike whether taken from the prefix or the whole. */
  lemma PrefixUnbounded(m: Numeric.MathLib, objects: seq<Hittable>, n: nat, r: Ray, tmin: real)
    requires n <= |objects|
    ensures forall j :: 0 <= j < n ==> Unbounded(m, objects[..n][j], r, tmin) == Unbounded(m, objects[j], r, tmin)
  {
    forall j | 0 <= j < n
      ensures Unbounded(m, objects[..n][j], r, tmin) == Unbounded(m, objects[j], r, tmin)
    {
      assert objects[..n][j] == objects[j];
    }
  }

  /** No object's hit is nearer than Nearest. */
  lemma {:induction false} NearestLowerBound(m: Numeric.MathLib, objects: seq<Hittable>, r: Ray, tmin: real)
    ensures var res := Nearest(m, objects, r, tmin);
      forall j :: 0 <= j < |objects| ==> Le(Dist(res), Dist(Unbounded(m, objects[j], r, tmin)))
    decreases |objects|
  {
    if objects != [] {
      var n := |objects| - 1;
      var init := Nearest(m, objects[..n], r, tmin);
      var last := Unbounded(m, objects[n], r, tmin);
      var res := Nearest(m, objects, r, tmin);
      NearestLowerBound(m, objects[..n], r, tmin);
      PrefixUnbounded(m, objects, n, r, tmin);
      LeTotal(Dist(init), Dist(last));
      var dr, di, dl := Dist(res), Dist(init), Dist(last);
      assert Le(dr, di) && Le(dr, dl) by {
        LeTotal(di, dl);
        if res == last { LeReflexive(dl); } else { LeReflexive(di); }
      }
      forall j | 0 <= j < |objects|
        ensures Le(dr, Dist(Unbounded(m, objects[j], r, tmin)))
      {
        if j < n {
          var dj := Dist(Unbounded(m, objects[..n][j], r, tmin));
          LeTransitive(dr, di, dj);
        }
      }
    }
  }

  /** Nearest is some object's hit, and every earlier object's hit is strictly farther. */
  lemma {:induction false} NearestAttained(m: Numeric.MathLib, objects: seq<Hittable>, r: Ray, tmin: real)
    ensures var res := Nearest(m, objects, r, tmin);
      res.Some? ==> exists i :: (
        && 0 <= i < |objects| && res == Unbounded(m, objects[i], r, tmin)
        && forall j :: 0 <= j < i ==> Lt(Dist(res), Dist(Unbounded(m, objects[j], r, tmin))))
    decreases |objects|
  {
    if objects != [] {
      var n := |objects| - 1;
      var init := Nearest(m, objects[..n], r, tmin);
      var last := Unbounded(m, objects[n], r, tmin);
      var res := Nearest(m, objects, r, tmin);
      PrefixUnbounded(m, objects, n, r, tmin);
      if res.Some? {
        if res == last && (init.None? || last.value.t < init.value.t) {
          NearestLowerBound(m, objects[..n], r, tmin);
          forall j | 0 <= j < n
            ensures Lt(Dist(res), Dist(Unbounded(m, objects[j], r, tmin)))
          {
            LtLeTransitive(Dist(res), Dist(init), Dist(Unbounded(m, objects[j], r, tmin)));
          }
        } else {
          NearestAttained(m, objects[..n], r, tmin);
          var i :| 0 <= i < n && init == Unbounded(m, objects[..n][i], r, tmin) &&
            forall j :: 0 <= j < i ==> Lt(Dist(init), Dist(Unbounded(m, objects[..n][j], r, tmin)));
          assert res == Unbounded(m, objects[i], r, tmin);
        }
      }
    }
  }

  /**
   * Nearest is the first object's hit among those of least t: no object is
   * nearer, every earlier object is strictly farther, and it misses only
   * when every object misses.
   */
  lemma NearestIsFirstMinimum(m: Numeric.MathLib, objects: seq<Hittable>, r: Ray, tmin: real)
    ensures var res := Nearest(m, objects, r, tmin);
      forall j :: 0 <= j < |objects| ==> Le(Dist(res), Dist(Unbounded(m, objects[j], r, tmin)))
    ensures var res := Nearest(m, objects, r, tmin);
      res.Some? ==> exists i :: (
        && 0 <= i < |objects| && res == Unbounded(m, objects[i], r, tmin)
        && forall j :: 0 <= j < i ==> Lt(Dist(res), Dist(Unbounded(m, objects[j], r, tmin))))
    ensures var res := Nearest(m, objects, r, tmin);
      res.None? ==> forall j :: 0 <= j < |objects| ==> Unbounded(m, objects[j], r, tmin).None?
  {
    NearestLowerBound(m, objects, r, tmin);
    NearestAttained(m, objects, r, tmin);
  }

  /** Nearest's distance is the least distance of the objects' hits. */
  lemma NearestIsLeast(m: Numeric.MathLib, objects: seq<Hittable>, r: Ray, tmin: real)
    ensures IsLeastDist(Dist(Nearest(m, objects, r, tmin)), m, objects, r, tmin)
  {
    NearestIsFirstMinimum(m, objects, r, tmin);
    var res := Nearest(m, objects, r, tmin);
    if res.Some? {
      var i :| 0 <= i < |objects| && res == Unbounded(m, objects[i], r, tmin) &&
        forall j :: 0 <= j < i ==> Lt(Dist(res), Dist(Unbounded(m, objects[j], r, tmin)));
      assert Dist(res) == Dist(Unbounded(m, objects[i], r, tmin));
    }
  }

  /** The least distance is determined by the set of objects, not their order or repetition. */
  lemma LeastDistUnique(d1: Bound, d2: Bound, m: Numeric.MathLib, a: seq<Hittable>, b: seq<Hittable>, r: Ray, tmin: real)
    requires forall x :: x in a <==> x in b
    requires IsLeastDist(d1, m, a, r, tmin) && IsLeastDist(d2, m, b, r, tmin)
    ensures d1 == d2
  {
    if d1 != PosInf {
      var i :| 0 <= i < |a| && d1 == Dist(Unbounded(m, a[i], r, tmin));
      assert a[i] in b;
      var k :| 0 <= k < |b| && b[k] == a[i];
      assert Le(d2, d1);
    }
    if d2 != PosInf {
      var i :| 0 <= i < |b| && d2 == Dist(Unbounded(m, b[i], r, tmin));
      assert b[i] in a;
      var k :| 0 <= k < |a| && a[k] == b[i];
      assert Le(d1, d2);
    }
  }

  /** A hit clipped at `tmax` keeps its distance when nearer than `tmax`, else becomes a miss. */
  lemma DistClip(o: Option<Record>, tmax: Bound)
    ensures Dist(Clip(o, tmax)) == if Lt(Dist(o), tmax) then Dist(o) else PosInf
  {}

  // ---------------------------------------------------------------------------
  // The list's search is the nearest hit

  /**
   * Searching up to `tmax` is the unbounded search with a hit at or beyond
   * `tmax` discarded: what a list or a tree needs of the objects it holds.
   */
  ghost predicate Regular(m: Numeric.MathLib, o: Hittable, r: Ray, tmin: real) {
    forall tmax: Bound :: Hit(m, o, r, tmin, tmax) == Clip(Unbounded(m, o, r, tmin), tmax)
  }

  /** The loop's invariant: the record so far is the nearest hit of the objects searched so far. */
  lemma {:induction false} ListFromIsNearest(m: Numeric.MathLib, list: Hittable, i: nat, r: Ray, tmin: real,
                                             tmax: Bound, closest: Bound, acc: Option<Record>)
    requires list.List? && i <= |list.objects|
    requires forall j :: 0 <= j < |list.objects| ==> Regular(m, list.objects[j], r, tmin)
    requires acc == Clip(Nearest(m, list.objects[..i], r, tmin), tmax)
    requires closest == if acc.Some? then Fin(acc.value.t) else tmax
    ensures ListFrom(m, list, i, r, tmin, closest, acc) == Clip(Nearest(m, list.objects, r, tmin), tmax)
    decreases |list.objects| - i
  {
    var objs := list.objects;
    if i == |objs| {
      assert objs[..i] == objs;
    } else {
      var o := objs[i];
      var u := Unbounded(m, o, r, tmin);
      var init := Nearest(m, objs[..i], r, tmin);
      assert objs[..i + 1][..i] == objs[..i];
      assert objs[..i + 1][i] == o;
      var next := Nearest(m, objs[..i + 1], r, tmin);
      assert next == if u.Some? && (init.None? || u.value.t < init.value.t) then u else init;
      assert Regular(m, o, r, tmin);
      var found := Hit(m, o, r, tmin, closest);
      assert found == Clip(u, closest);
      if found.Some? {
        assert Clip(next, tmax) == found by {
          if acc.None? {
            assert init.None? || !Lt(Fin(init.value.t), tmax);
            assert Lt(Fin(u.value.t), tmax);
          }
        }
        ListFromIsNearest(m, list, i + 1, r, tmin, tmax, Fin(found.value.t), found);
      } else {
        assert Clip(next, tmax) == acc;
        ListFromIsNearest(m, list, i + 1, r, tmin, tmax, closest, acc);
      }
    }
  }

  /**
   * HittableList.hit returns the nearest hit strictly inside (tmin, tmax),
   * the earliest object winning a tie, provided every object searches
   * regularly.
   */
  lemma ListHitIsNearest(m: Numeric.MathLib, objects: seq<Hittable>, box: AABB, r: Ray, tmin: real, tmax: Bound)
    requires forall j :: 0 <= j < |objects| ==> Regular(m, objects[j], r, tmin)
    ensures Hit(m, List(objects, box), r, tmin, tmax) == Clip(Nearest(m, objects, r, tmin), tmax)
  {
    assert objects[..0] == [];
    ListFromIsNearest(m, List(objects, box), 0, r, tmin, tmax, tmax, None);
  }

  /** A list of regular objects is itself regular, so lists nest. */
  lemma ListRegular(m: Numeric.MathLib, objects: seq<Hittable>, box: AABB, r: Ray, tmin: real)
    requires forall j :: 0 <= j < |objects| ==> Regular(m, objects[j], r, tmin)
    ensures Regular(m, List(objects, box), r, tmin)
  {
    var near := Nearest(m, objects, r, tmin);
    ListHitIsNearest(m, objects, box, r, tmin, PosInf);
    assert Clip(near, PosInf) == near;
    forall tmax: Bound
      ensures Hit(m, List(objects, box), r, tmin, tmax) == Clip(Unbounded(m, List(objects, box), r, tmin), tmax)
    {
      ListHitIsNearest(m, objects, box, r, tmin, tmax);
    }
  }

  /** Every quad searches regularly, whatever box it caches. */
  lemma QuadRegular(m: Numeric.MathLib, q: Quads.Quad, box: AABB, r: Ray, tmin: real)
    ensures Regular(m, QuadObj(q, box), r, tmin)
  {
    forall tmax: Bound
      ensures Hit(m, QuadObj(q, box), r, tmin, tmax) == Clip(Unbounded(m, QuadObj(q, box), r, tmin), tmax)
    {
      Quads.HitClips(q, r, tmin, tmax);
    }
  }

  /**
   * A sphere searches regularly along a ray with a non-zero direction, given
   * a non-negative square root of its discriminant.
   */
  lemma SphereRegular(m: Numeric.MathLib, s: Spheres.Sphere, box: AABB, r: Ray, tmin: real)
    requires LengthSquared(r.dir) != 0.0
    requires var d := Spheres.Discriminant(Spheres.Coefficients(s, r)); d >= 0.0 ==> m.sqrt(d) >= 0.0
    ensures Regular(m, SphereObj(s, box), r, tmin)
  {
    if s.radius != 0.0 {
      forall tmax: Bound
        ensures Hit(m, SphereObj(s, box), r, tmin, tmax) == Clip(Unbounded(m, SphereObj(s, box), r, tmin), tmax)
      {
        Spheres.HitClips(m, s, r, tmin, tmax);
      }
    }
  }
}
