/**
 * Worked quads (js/quad.js): the unit square, hit straight on and missed by
 * a slanted ray, and a square turned 45 degrees whose hit point lies outside
 * the box the source caches.
 */
module QuadExamples {
  import opened Numeric
  import ExtReals
  import opened Vectors
  import opened Rays
  import opened Boxes
  import opened Materials
  import opened Quads
  import opened Intervals
  import Scenes

  /** (1, 0, 0) x (0, 1, 0) = (0, 0, 1). */
  lemma UnitSquareCross()
    ensures Cross(Vec3(1.0, 0.0, 0.0), Vec3(0.0, 1.0, 0.0)) == Vec3(0.0, 0.0, 1.0)
  {}

  /** (0, 0, 1) is a unit vector. */
  lemma UnitSquareNormal()
    ensures Dot(Vec3(0.0, 0.0, 1.0), Vec3(0.0, 0.0, 1.0)) == 1.0
  {}

  /** The unit square's edges span a non-zero area. */
  lemma UnitSquareNonDegenerate()
    ensures NonDegenerate(Vec3(1.0, 0.0, 0.0), Vec3(0.0, 1.0, 0.0))
  {
    UnitSquareCross();
    UnitSquareNormal();
  }

  /** The unit square in the z = 0 plane. */
  function UnitSquare(m: MathLib, mat: Material): Quad {
    UnitSquareNonDegenerate();
    NewQuad(m, Zero, Vec3(1.0, 0.0, 0.0), Vec3(0.0, 1.0, 0.0), mat)
  }

  /** (0, 0, 1) normalizes to itself. */
  lemma UnitSquareNormalized(m: MathLib)
    requires m.sqrt(1.0) == 1.0
    ensures Normalized(m, Vec3(0.0, 0.0, 1.0)) == Vec3(0.0, 0.0, 1.0)
  {
    UnitSquareNormal();
  }

  /** (0, 0, 1) / ((0, 0, 1) . (0, 0, 1)) is (0, 0, 1). */
  lemma UnitSquareInverse()
    ensures Vectors.Scale(Vec3(0.0, 0.0, 1.0), 1.0 / Dot(Vec3(0.0, 0.0, 1.0), Vec3(0.0, 0.0, 1.0))) == Vec3(0.0, 0.0, 1.0)
  {
    UnitSquareNormal();
  }

  /** The unit square caches the normal (0, 0, 1). */
  lemma UnitSquareNormalField(m: MathLib, mat: Material)
    requires m.sqrt(1.0) == 1.0
    ensures UnitSquare(m, mat).normal == Vec3(0.0, 0.0, 1.0)
  {
    UnitSquareNonDegenerate();
    UnitSquareCross();
    UnitSquareNormalized(m);
  }

  /** The unit square caches w = (0, 0, 1). */
  lemma UnitSquareWField(m: MathLib, mat: Material)
    ensures UnitSquare(m, mat).w == Vec3(0.0, 0.0, 1.0)
  {
    UnitSquareNonDegenerate();
    UnitSquareCross();
    UnitSquareInverse();
  }

  /**
   * A ray from (0.5, 0.5, 1) straight down meets the unit square at t = 1 in
   * its centre; the same origin along (2, 2, -1) meets the plane at
   * alpha = 2.5 and misses.
   */
  lemma UnitSquareExample(m: MathLib, mat: Material)
    requires m.sqrt(1.0) == 1.0
    ensures var res := Quads.Hit(UnitSquare(m, mat), Ray(Vec3(0.5, 0.5, 1.0), Vec3(0.0, 0.0, -1.0)), 0.001, ExtReals.PosInf);
      res.Some? && res.value.t == 1.0 && res.value.u == 0.5 && res.value.v == 0.5
    ensures Quads.Hit(UnitSquare(m, mat), Ray(Vec3(0.5, 0.5, 1.0), Vec3(2.0, 2.0, -1.0)), 0.001, ExtReals.PosInf).None?
  {
    UnitSquareNormalField(m, mat);
    UnitSquareWField(m, mat);
    UnitSquareHits(UnitSquare(m, mat));
  }

  /** The two rays against any quad with the unit square's fields. */
  lemma UnitSquareHits(quad: Quad)
    requires quad.q == Zero && quad.u == Vec3(1.0, 0.0, 0.0) && quad.v == Vec3(0.0, 1.0, 0.0)
    requires quad.normal == Vec3(0.0, 0.0, 1.0) && quad.w == Vec3(0.0, 0.0, 1.0) && quad.d == 0.0
    ensures var res := Quads.Hit(quad, Ray(Vec3(0.5, 0.5, 1.0), Vec3(0.0, 0.0, -1.0)), 0.001, ExtReals.PosInf);
      res.Some? && res.value.t == 1.0 && res.value.u == 0.5 && res.value.v == 0.5
    ensures Quads.Hit(quad, Ray(Vec3(0.5, 0.5, 1.0), Vec3(2.0, 2.0, -1.0)), 0.001, ExtReals.PosInf).None?
  {
    var down := Ray(Vec3(0.5, 0.5, 1.0), Vec3(0.0, 0.0, -1.0));
    assert Root(quad, down) == 1.0;
    assert At(down, 1.0) == Vec3(0.5, 0.5, 0.0);
    assert Alpha(quad, Vec3(0.5, 0.5, 0.0)) == 0.5;
    assert Beta(quad, Vec3(0.5, 0.5, 0.0)) == 0.5;
    HitWhenInterior(quad, down, 0.001, ExtReals.PosInf);
    var slant := Ray(Vec3(0.5, 0.5, 1.0), Vec3(2.0, 2.0, -1.0));
    assert Root(quad, slant) == 1.0;
    assert At(slant, 1.0) == Vec3(2.5, 2.5, 0.0);
    assert Alpha(quad, Vec3(2.5, 2.5, 0.0)) == 2.5;
    HitMissesOutside(quad, slant, 0.001, ExtReals.PosInf);
  }

  /** (1, 1, 0) x (-1, 1, 0) = (0, 0, 2). */
  lemma DiamondCross()
    ensures Cross(Vec3(1.0, 1.0, 0.0), Vec3(-1.0, 1.0, 0.0)) == Vec3(0.0, 0.0, 2.0)
  {}

  /** (0, 0, 2) has squared length 4. */
  lemma DiamondNormal()
    ensures Dot(Vec3(0.0, 0.0, 2.0), Vec3(0.0, 0.0, 2.0)) == 4.0
  {}

  /** The diamond's edges span a non-zero area. */
  lemma DiamondNonDegenerate()
    ensures NonDegenerate(Vec3(1.0, 1.0, 0.0), Vec3(-1.0, 1.0, 0.0))
  {
    DiamondCross();
    DiamondNormal();
  }

  /** The quad Q = 0, u = (1, 1, 0), v = (-1, 1, 0): a square turned 45 degrees. */
  function Diamond(m: MathLib, mat: Material): Quad {
    DiamondNonDegenerate();
    NewQuad(m, Zero, Vec3(1.0, 1.0, 0.0), Vec3(-1.0, 1.0, 0.0), mat)
  }

  /** (0, 0, 2) normalizes to (0, 0, 1). */
  lemma DiamondNormalized(m: MathLib)
    requires m.sqrt(4.0) == 2.0
    ensures Normalized(m, Vec3(0.0, 0.0, 2.0)) == Vec3(0.0, 0.0, 1.0)
  {
    DiamondNormal();
  }

  /** (0, 0, 2) / ((0, 0, 2) . (0, 0, 2)) is (0, 0, 0.5). */
  lemma DiamondInverse()
    ensures Vectors.Scale(Vec3(0.0, 0.0, 2.0), 1.0 / Dot(Vec3(0.0, 0.0, 2.0), Vec3(0.0, 0.0, 2.0))) == Vec3(0.0, 0.0, 0.5)
  {
    DiamondNormal();
  }

  /** The diamond caches the normal (0, 0, 1). */
  lemma DiamondNormalField(m: MathLib, mat: Material)
    requires m.sqrt(4.0) == 2.0
    ensures Diamond(m, mat).normal == Vec3(0.0, 0.0, 1.0)
  {
    DiamondNonDegenerate();
    DiamondCross();
    DiamondNormalized(m);
  }

  /** The diamond caches w = (0, 0, 0.5). */
  lemma DiamondWField(m: MathLib, mat: Material)
    ensures Diamond(m, mat).w == Vec3(0.0, 0.0, 0.5)
  {
    DiamondNonDegenerate();
    DiamondCross();
    DiamondInverse();
  }

  /** The constructor gives the diamond exactly the fields DiamondHit assumes. */
  lemma DiamondFields(m: MathLib, mat: Material)
    requires m.sqrt(4.0) == 2.0
    ensures var quad := Diamond(m, mat);
      && quad.q == Zero && quad.u == Vec3(1.0, 1.0, 0.0) && quad.v == Vec3(-1.0, 1.0, 0.0)
      && quad.normal == Vec3(0.0, 0.0, 1.0) && quad.w == Vec3(0.0, 0.0, 0.5) && quad.d == 0.0
  {
    DiamondNormalField(m, mat);
    DiamondWField(m, mat);
  }

  /**
   * The ray from (0.9, 1, 1) straight down hits any quad with the diamond's
   * fields at (0.9, 1, 0), the point with coordinates (0.95, 0.05). The
   * diamond's edges cancel in x and that point lies further than Delta from
   * Q in x, so FlatQuadBoxes applies: the hit lies outside the box the source
   * caches, and a tree that tests the box first loses it, while the
   * two-diagonal box holds it.
   */
  lemma DiamondHit(quad: Quad)
    requires quad.q == Zero && quad.u == Vec3(1.0, 1.0, 0.0) && quad.v == Vec3(-1.0, 1.0, 0.0)
    requires quad.normal == Vec3(0.0, 0.0, 1.0) && quad.w == Vec3(0.0, 0.0, 0.5) && quad.d == 0.0
    ensures var res := Quads.Hit(quad, Ray(Vec3(0.9, 1.0, 1.0), Vec3(0.0, 0.0, -1.0)), 0.001, ExtReals.PosInf);
      && res.Some? && res.value.t == 1.0 && res.value.p == Vec3(0.9, 1.0, 0.0)
  {
    var r := Ray(Vec3(0.9, 1.0, 1.0), Vec3(0.0, 0.0, -1.0));
    assert Root(quad, r) == 1.0;
    assert At(r, 1.0) == Vec3(0.9, 1.0, 0.0);
    assert Alpha(quad, Vec3(0.9, 1.0, 0.0)) == 0.95;
    assert Beta(quad, Vec3(0.9, 1.0, 0.0)) == 0.05;
    HitWhenInterior(quad, r, 0.001, ExtReals.PosInf);
  }

  /** That hit point has coordinates (0.95, 0.05). */
  lemma DiamondCorner(quad: Quad)
    requires quad.q == Zero && quad.u == Vec3(1.0, 1.0, 0.0) && quad.v == Vec3(-1.0, 1.0, 0.0)
    ensures Vec3(0.9, 1.0, 0.0) == Corner(quad.q, quad.u, quad.v, 0.95, 0.05)
  {}

  /** The diamond's edges cancel in x, and x = 0.9 lies further than Delta from Q. */
  lemma DiamondFlat(quad: Quad)
    requires quad.q == Zero && quad.u == Vec3(1.0, 1.0, 0.0) && quad.v == Vec3(-1.0, 1.0, 0.0)
    ensures quad.u.x + quad.v.x == 0.0 && 0.9 > quad.q.x + Delta
  {}

  /** The ray the diamond examples cast: from (0.9, 1, 1) straight down. */
  const DownRay: Ray := Ray(Vec3(0.9, 1.0, 1.0), Vec3(0.0, 0.0, -1.0))

  /** The ray's window in the examples below: from 0.001 on, unbounded. */
  const Window: Interval := Interval(ExtReals.Fin(0.001), ExtReals.PosInf)

  /** A node whose two children are the same leaf has that leaf's box. */
  lemma SelfNodeBox(h: Scenes.Hittable)
    ensures Scenes.BoundingBox(Scenes.Node(h, h)) == Scenes.BoundingBox(h)
  {
    FromAABBsLaws(Scenes.BoundingBox(h), Scenes.BoundingBox(h));
  }

  /**
   * A node over a leaf and itself: when its box test fails it reports
   * nothing; when the test passes and the leaf's hit is the only one before
   * its own t, the node reports the leaf's hit.
   */
  lemma SelfNodeHit(m: MathLib, h: Scenes.Hittable, r: Ray, tmin: real)
    ensures !Boxes.Hit(Scenes.BoundingBox(h), r, Interval(ExtReals.Fin(tmin), ExtReals.PosInf)).hit
            ==> Scenes.Hit(m, Scenes.Node(h, h), r, tmin, ExtReals.PosInf).None?
    ensures var found := Scenes.Hit(m, h, r, tmin, ExtReals.PosInf);
      Boxes.Hit(Scenes.BoundingBox(h), r, Interval(ExtReals.Fin(tmin), ExtReals.PosInf)).hit
      && found.Some? && Scenes.Hit(m, h, r, tmin, ExtReals.Fin(found.value.t)).None?
      ==> Scenes.Hit(m, Scenes.Node(h, h), r, tmin, ExtReals.PosInf) == found
  {
    SelfNodeBox(h);
  }

  /** A list of one object reports exactly that object's hit. */
  lemma SingletonList(m: MathLib, h: Scenes.Hittable, box: AABB, r: Ray, tmin: real)
    ensures Scenes.Hit(m, Scenes.List([h], box), r, tmin, ExtReals.PosInf)
            == Scenes.Hit(m, h, r, tmin, ExtReals.PosInf)
  {
    var list := Scenes.List([h], box);
    var found := Scenes.Hit(m, h, r, tmin, ExtReals.PosInf);
    if found.Some? {
      assert Scenes.ListFrom(m, list, 1, r, tmin, ExtReals.Fin(found.value.t), found) == found;
    } else {
      assert Scenes.ListFrom(m, list, 1, r, tmin, ExtReals.PosInf, found) == found;
    }
  }

  /**
   * A node over a quad leaf and itself, whose cached box fails the box test,
   * reports nothing, while a list of that leaf reports the quad's own hit.
   */
  lemma LeafTreeMisses(m: MathLib, quad: Quad, box: AABB, r: Ray, tmin: real)
    requires !Boxes.Hit(box, r, Interval(ExtReals.Fin(tmin), ExtReals.PosInf)).hit
    ensures var leaf := Scenes.QuadObj(quad, box);
      && Scenes.Hit(m, Scenes.Node(leaf, leaf), r, tmin, ExtReals.PosInf).None?
      && Scenes.Hit(m, Scenes.List([leaf], Default), r, tmin, ExtReals.PosInf) == Quads.Hit(quad, r, tmin, ExtReals.PosInf)
  {
    var leaf := Scenes.QuadObj(quad, box);
    SelfNodeHit(m, leaf, r, tmin);
    SingletonList(m, leaf, Default, r, tmin);
  }

  /**
   * When the cached box passes the box test, a node over a quad leaf and
   * itself reports the same as a list of that leaf: the quad's own hit.
   */
  lemma LeafTreeFinds(m: MathLib, quad: Quad, box: AABB, r: Ray, tmin: real)
    requires Boxes.Hit(box, r, Interval(ExtReals.Fin(tmin), ExtReals.PosInf)).hit
    ensures var leaf := Scenes.QuadObj(quad, box);
      && Scenes.Hit(m, Scenes.Node(leaf, leaf), r, tmin, ExtReals.PosInf) == Quads.Hit(quad, r, tmin, ExtReals.PosInf)
      && Scenes.Hit(m, Scenes.List([leaf], Default), r, tmin, ExtReals.PosInf) == Quads.Hit(quad, r, tmin, ExtReals.PosInf)
  {
    var leaf := Scenes.QuadObj(quad, box);
    NothingBeforeOwnHit(quad, r, tmin);
    SelfNodeHit(m, leaf, r, tmin);
    SingletonList(m, leaf, Default, r, tmin);
  }

  /** A quad reports no hit before the t of its own first hit. */
  lemma NothingBeforeOwnHit(quad: Quad, r: Ray, tmin: real)
    ensures var found := Quads.Hit(quad, r, tmin, ExtReals.PosInf);
      found.Some? ==> Quads.Hit(quad, r, tmin, ExtReals.Fin(found.value.t)).None?
  {
    var found := Quads.Hit(quad, r, tmin, ExtReals.PosInf);
    if found.Some? {
      HitClips(quad, r, tmin, ExtReals.Fin(found.value.t));
    }
  }

  /**
   * A box whose x axis is [-delta, delta] misses the down ray, which runs
   * parallel to the x slab at x = 0.9.
   */
  lemma FlatBoxMissed(q: Point3, u: Vec3, v: Vec3)
    requires q.x == 0.0 && u.x + v.x == 0.0
    ensures !Boxes.Hit(BoxAsWritten(q, u, v), DownRay, Window).hit
  {
    BoxAsWrittenFlatX(q, u, v);
    ThinMissed(BoxAsWritten(q, u, v), q.x + Delta);
  }

  /** Any box whose x axis ends below 0.9 misses the down ray. */
  lemma ThinMissed(box: AABB, hi: real)
    requires box.x.max == ExtReals.Fin(hi) && hi < 0.9
    ensures !Boxes.Hit(box, DownRay, Window).hit
  {
    ParallelBeyondMisses(box, DownRay, Window);
  }

  /**
   * As the source builds it, a tree over the diamond loses the hit: a node
   * over the leaf that caches the one-diagonal box misses the ray, because
   * that box is 2 delta wide in x and the ray runs at x = 0.9, while a list
   * of the same leaf, which tests no box, finds the hit at (0.9, 1, 0).
   */
  lemma DiamondTreeAsWritten(m: MathLib, quad: Quad)
    requires quad.q == Zero && quad.u == Vec3(1.0, 1.0, 0.0) && quad.v == Vec3(-1.0, 1.0, 0.0)
    requires quad.normal == Vec3(0.0, 0.0, 1.0) && quad.w == Vec3(0.0, 0.0, 0.5) && quad.d == 0.0
    ensures var leaf := Scenes.QuadObj(quad, BoxAsWritten(quad.q, quad.u, quad.v));
      && Scenes.Hit(m, Scenes.Node(leaf, leaf), DownRay, 0.001, ExtReals.PosInf).None?
      && Scenes.Hit(m, Scenes.List([leaf], Default), DownRay, 0.001, ExtReals.PosInf).Some?
      && Scenes.Hit(m, Scenes.List([leaf], Default), DownRay, 0.001, ExtReals.PosInf).value.p
         == Vec3(0.9, 1.0, 0.0)
  {
    FlatBoxMissed(quad.q, quad.u, quad.v);
    LeafTreeMisses(m, quad, BoxAsWritten(quad.q, quad.u, quad.v), DownRay, 0.001);
    DiamondHit(quad);
  }

  /** The two-diagonal box surrounds x = 0.9 when the second diagonal spans [-1, 1] in x. */
  lemma DiamondBoxX(q: Point3, u: Vec3, v: Vec3)
    requires q.x == 0.0 && u.x == 1.0 && v.x == -1.0
    ensures Surrounds(Box(q, u, v).x, 0.9)
  {
    var hull := DiagonalHull(q, u, v);
    DiagonalHullX(q, u, v);
    var second := Span(1.0, -1.0);
    assert second == Span(q.x + u.x, q.x + v.x);
    assert Surrounds(second, 0.9);
    WithinContains(second, hull.x, 0.9);
    WithinContains(hull.x, Box(q, u, v).x, 0.9);
  }

  /** The two-diagonal box surrounds y = 1 when the first diagonal spans [0, 2] in y. */
  lemma DiamondBoxY(q: Point3, u: Vec3, v: Vec3)
    requires q.y == 0.0 && u.y == 1.0 && v.y == 1.0
    ensures Surrounds(Box(q, u, v).y, 1.0)
  {
    var hull := DiagonalHull(q, u, v);
    DiagonalHullY(q, u, v);
    var first := Span(0.0, 2.0);
    assert first == Span(q.y, (q.y + u.y) + v.y);
    assert Surrounds(first, 1.0);
    WithinContains(first, hull.y, 1.0);
    WithinContains(hull.y, Box(q, u, v).y, 1.0);
  }

  /** A quad flat at z = 0 has a box padded to [-delta, delta] in z. */
  lemma DiamondBoxZ(q: Point3, u: Vec3, v: Vec3)
    requires q.z == 0.0 && u.z == 0.0 && v.z == 0.0
    ensures Box(q, u, v).z == Interval(ExtReals.Fin(-Delta), ExtReals.Fin(Delta))
    ensures Surrounds(Box(q, u, v).z, 0.0)
  {
    var point := Span(0.0, 0.0);
    DiagonalHullZ(q, u, v);
    assert Span(q.z, (q.z + u.z) + v.z) == point;
    assert Span(q.z + u.z, q.z + v.z) == point;
    FromIntervalsLaws(point, point);
    PadPoint(0.0);
  }

  /** The two-diagonal box of the diamond holds (0.9, 1, 0) strictly inside, so the down ray passes its test. */
  lemma DiamondBoxPassed(q: Point3, u: Vec3, v: Vec3)
    requires q == Zero && u == Vec3(1.0, 1.0, 0.0) && v == Vec3(-1.0, 1.0, 0.0)
    ensures Boxes.Hit(Box(q, u, v), DownRay, Window).hit
  {
    DiamondBoxX(q, u, v);
    DiamondBoxY(q, u, v);
    DiamondBoxZ(q, u, v);
    InsidePassed(Box(q, u, v));
  }

  /** Any box holding (0.9, 1, 0) strictly inside passes the down ray's box test. */
  lemma InsidePassed(box: AABB)
    requires StrictlyInside(box, Vec3(0.9, 1.0, 0.0))
    ensures Boxes.Hit(box, DownRay, Window).hit
  {
    assert At(DownRay, 1.0) == Vec3(0.9, 1.0, 0.0);
    Boxes.HitComplete(box, DownRay, Window, 1.0);
  }

  /**
   * With the two-diagonal box the leaf caches, a node over the diamond finds
   * the same hit as the list: the hit point (0.9, 1, 0) lies strictly inside
   * the box.
   */
  lemma DiamondTreeCorrected(m: MathLib, quad: Quad)
    requires quad.q == Zero && quad.u == Vec3(1.0, 1.0, 0.0) && quad.v == Vec3(-1.0, 1.0, 0.0)
    requires quad.normal == Vec3(0.0, 0.0, 1.0) && quad.w == Vec3(0.0, 0.0, 0.5) && quad.d == 0.0
    ensures var leaf := Scenes.NewQuad(quad);
      && Scenes.Hit(m, Scenes.Node(leaf, leaf), DownRay, 0.001, ExtReals.PosInf).Some?
      && Scenes.Hit(m, Scenes.Node(leaf, leaf), DownRay, 0.001, ExtReals.PosInf)
         == Scenes.Hit(m, Scenes.List([leaf], Default), DownRay, 0.001, ExtReals.PosInf)
  {
    DiamondBoxPassed(quad.q, quad.u, quad.v);
    LeafTreeFinds(m, quad, BoundingBox(quad), DownRay, 0.001);
    DiamondHit(quad);
  }
}
