/**
 * Sphere (src/sphere.ts): the cached box, the ray-sphere quadratic with its
 * root selection, and the (u, v) spherical coordinates of the hit. hit()
 * writes the caller's record only on success; here it returns the record it
 * would write, or None.
 */
module Spheres {
  import opened Results
  import opened Numeric
  import ExtReals
  import opened Intervals
  import opened Vectors
  import opened Rays
  import opened Boxes
  import opened Hits
  import opened Materials

  /** A sphere; a negative radius (hollow glass) turns the normals inward. */
  datatype Sphere = Sphere(center: Point3, radius: real, mat: Material)

  /** The point lies on the sphere's surface. */
  predicate OnSphere(s: Sphere, p: Point3) {
    LengthSquared(Vectors.Sub(p, s.center)) == s.radius * s.radius
  }

  /** The box cached by the constructor: fromPoints(center - (r, r, r), center + (r, r, r)). */
  function BoundingBox(s: Sphere): (box: AABB)
    ensures Ordered(box)
  {
    var rvec := Vec3(s.radius, s.radius, s.radius);
    FromPoints(Vectors.Sub(s.center, rvec), Vectors.Add(s.center, rvec))
  }

  /** The quadratic a t^2 + 2 halfB t + c whose roots are the ray's crossings. */
  datatype Quadratic = Quadratic(a: real, halfB: real, c: real)

  function Coefficients(s: Sphere, r: Ray): Quadratic {
    var oc := Vectors.Sub(r.orig, s.center);
    Quadratic(LengthSquared(r.dir), Dot(oc, r.dir), LengthSquared(oc) - s.radius * s.radius)
  }

  function Discriminant(q: Quadratic): real {
    q.halfB * q.halfB - q.a * q.c
  }

  function Eval(q: Quadratic, t: real): real {
    q.a * (t * t) + 2.0 * (q.halfB * t) + q.c
  }

  /** The smaller root, (-halfB - sqrtd) / a. */
  function Near(q: Quadratic, sq: real): real
    requires q.a != 0.0
  {
    (-q.halfB - sq) / q.a
  }

  /** The larger root, (-halfB + sqrtd) / a. */
  function Far(q: Quadratic, sq: real): real
    requires q.a != 0.0
  {
    (-q.halfB + sq) / q.a
  }

  /**
   * setUV: u from the longitude atan2(-n.z, n.x) + pi and v from the
   * colatitude acos(-n.y); both in [0, 1] when acos and atan2 keep to their
   * standard ranges. Nothing else in the record changes.
   */
  function SetUV(m: MathLib, rec: Record): (res: Record)
    ensures res == rec.(u := res.u, v := res.v)
    ensures 0.0 <= m.acos(-rec.normal.y) <= PI ==> 0.0 <= res.v <= 1.0
    ensures -PI <= m.atan2(-rec.normal.z, rec.normal.x) <= PI ==> 0.0 <= res.u <= 1.0
  {
    var n := rec.normal;
    var theta := m.acos(-n.y);
    var phi := m.atan2(-n.z, n.x) + PI;
    rec.(u := phi / (2.0 * PI), v := theta / PI)
  }

  /** The record hit() writes for the accepted root t. */
  function RecordAt(m: MathLib, s: Sphere, r: Ray, t: real): (rec: Record)
    requires s.radius != 0.0
    ensures rec.t == t && rec.p == At(r, t) && rec.material == s.mat
    ensures rec.normal == Outward(s, rec.p) || rec.normal == Neg(Outward(s, rec.p))
    ensures rec.frontface <==> Dot(r.dir, Outward(s, rec.p)) < 0.0
    ensures Dot(r.dir, rec.normal) <= 0.0
  {
    var p := At(r, t);
    var outward := Outward(s, p);
    SetUV(m, SetFaceNormal(HitRecord(p, outward, t, false, s.mat, 0.0, 0.0), r, outward))
  }

  /** (p - center) / radius. */
  function Outward(s: Sphere, p: Point3): Vec3
    requires s.radius != 0.0
  {
    Vectors.Scale(Vectors.Sub(p, s.center), 1.0 / s.radius)
  }

  /**
   * Sphere.hit. A ray with a zero direction makes the source divide 0 by 0
   * and accept the NaN root; the model reports no hit for it.
   */
  function Hit(m: MathLib, s: Sphere, r: Ray, tmin: real, tmax: ExtReals.Bound): (res: Option<Record>)
    requires s.radius != 0.0
    ensures Discriminant(Coefficients(s, r)) < 0.0 ==> res.None?
    ensures res.Some? ==> InWindow(res.value.t, tmin, tmax)
    ensures res.Some? ==> res.value == RecordAt(m, s, r, res.value.t)
  {
    var q := Coefficients(s, r);
    var discr := Discriminant(q);
    if discr < 0.0 || q.a == 0.0 then None
    else
      var sq := m.sqrt(discr);
      if InWindow(Near(q, sq), tmin, tmax) then Some(RecordAt(m, s, r, Near(q, sq)))
      else if InWindow(Far(q, sq), tmin, tmax) then Some(RecordAt(m, s, r, Far(q, sq)))
      else None
  }

  // ---------------------------------------------------------------------------
  // Properties

  /** One coordinate of (orig - center) + t dir, squared. */
  lemma SquareOfAffine(u: real, d: real, t: real)
    ensures (u + d * t) * (u + d * t) == u * u + 2.0 * ((u * d) * t) + (d * d) * (t * t)
  {}

  /**
   * The quadratic measures how far at(t) is from the surface: its value is
   * |at(t) - center|^2 - radius^2.
   */
  lemma SurfaceEquation(s: Sphere, r: Ray, t: real)
    ensures Eval(Coefficients(s, r), t)
         == LengthSquared(Vectors.Sub(At(r, t), s.center)) - s.radius * s.radius
  {
    var oc := Vectors.Sub(r.orig, s.center);
    var d := r.dir;
    assert Vectors.Sub(At(r, t), s.center) == Vec3(oc.x + d.x * t, oc.y + d.y * t, oc.z + d.z * t);
    SquareOfAffine(oc.x, d.x, t);
    SquareOfAffine(oc.y, d.y, t);
    SquareOfAffine(oc.z, d.z, t);
    var q := Coefficients(s, r);
    assert q.a * (t * t) == (d.x * d.x) * (t * t) + (d.y * d.y) * (t * t) + (d.z * d.z) * (t * t);
    assert 2.0 * (q.halfB * t)
        == 2.0 * ((oc.x * d.x) * t) + 2.0 * ((oc.y * d.y) * t) + 2.0 * ((oc.z * d.z) * t);
  }

  /** Completing the square: a times the quadratic is (a t + halfB)^2 minus the discriminant. */
  lemma CompleteSquare(q: Quadratic, t: real)
    ensures q.a * Eval(q, t) == (q.a * t + q.halfB) * (q.a * t + q.halfB) - Discriminant(q)
  {}

  /** Both roots of the formula solve the quadratic. */
  lemma FormulaSolves(q: Quadratic, sq: real, t: real)
    requires q.a != 0.0 && IsSqrtOf(sq, Discriminant(q))
    requires t == Near(q, sq) || t == Far(q, sq)
    ensures Eval(q, t) == 0.0
  {
    var y := q.a * t + q.halfB;
    if t == Near(q, sq) {
      QuotientSign(-q.halfB - sq, q.a);
      assert y == -sq;
    } else {
      QuotientSign(-q.halfB + sq, q.a);
      assert y == sq;
    }
    assert y * y == sq * sq;
    CompleteSquare(q, t);
    ZeroProduct(q.a, Eval(q, t));
  }

  /** Every solution of the quadratic is one of the two roots of the formula. */
  lemma SolutionsAreRoots(q: Quadratic, sq: real, t: real)
    requires q.a != 0.0 && IsSqrtOf(sq, Discriminant(q))
    requires Eval(q, t) == 0.0
    ensures t == Near(q, sq) || t == Far(q, sq)
  {
    var y := q.a * t + q.halfB;
    CompleteSquare(q, t);
    assert (y - sq) * (y + sq) == y * y - sq * sq;
    ZeroProduct(y - sq, y + sq);
    if y == sq {
      QuotientSign(-q.halfB + sq, q.a);
      assert q.a * Far(q, sq) == q.a * t;
      SignOfProduct(Far(q, sq) - t, q.a);
    } else {
      QuotientSign(-q.halfB - sq, q.a);
      assert q.a * Near(q, sq) == q.a * t;
      SignOfProduct(Near(q, sq) - t, q.a);
    }
  }

  /** A quadratic with a real solution and a != 0 has a non-negative discriminant. */
  lemma SolvableDiscriminant(q: Quadratic, t: real)
    requires q.a != 0.0 && Eval(q, t) == 0.0
    ensures Discriminant(q) >= 0.0
  {
    CompleteSquare(q, t);
    var y := q.a * t + q.halfB;
    ProductSign(y, y);
  }

  /** With a > 0 and a non-negative square root, the near root comes first. */
  lemma RootsOrdered(q: Quadratic, sq: real)
    requires q.a > 0.0 && sq >= 0.0
    ensures Near(q, sq) <= Far(q, sq)
  {
    QuotientSign(-q.halfB - sq, q.a);
    QuotientSign(-q.halfB + sq, q.a);
    assert q.a * (Far(q, sq) - Near(q, sq)) == 2.0 * sq;
    SignOfProduct(Far(q, sq) - Near(q, sq), q.a);
  }

  lemma LengthSquaredNonNegative(v: Vec3)
    ensures LengthSquared(v) >= 0.0
  {
    ProductSign(v.x, v.x);
    ProductSign(v.y, v.y);
    ProductSign(v.z, v.z);
  }

  /**
   * hit() is exact: the recorded point lies on the sphere, and every point of
   * the sphere the ray reaches inside the window is at or beyond the recorded
   * one, so a miss means the ray does not meet the sphere inside the window.
   */
  lemma HitIsNearestCrossing(m: MathLib, s: Sphere, r: Ray, tmin: real, tmax: ExtReals.Bound, t: real)
    requires s.radius != 0.0 && LengthSquared(r.dir) != 0.0
    requires var d := Discriminant(Coefficients(s, r)); d >= 0.0 ==> IsSqrtOf(m.sqrt(d), d)
    ensures var res := Hit(m, s, r, tmin, tmax);
      res.Some? ==> OnSphere(s, res.value.p)
    ensures var res := Hit(m, s, r, tmin, tmax);
      InWindow(t, tmin, tmax) && OnSphere(s, At(r, t)) ==> res.Some? && res.value.t <= t
  {
    var q := Coefficients(s, r);
    var res := Hit(m, s, r, tmin, tmax);
    if res.Some? {
      var sq := m.sqrt(Discriminant(q));
      FormulaSolves(q, sq, res.value.t);
      SurfaceEquation(s, r, res.value.t);
    }
    if InWindow(t, tmin, tmax) && OnSphere(s, At(r, t)) {
      SurfaceEquation(s, r, t);
      SolvableDiscriminant(q, t);
      var sq := m.sqrt(Discriminant(q));
      SolutionsAreRoots(q, sq, t);
      LengthSquaredNonNegative(r.dir);
      RootsOrdered(q, sq);
    }
  }

  /**
   * Searching up to tmax is searching without a bound and discarding a hit
   * at or beyond tmax: what a list or a tree needs of its leaves.
   */
  lemma HitClips(m: MathLib, s: Sphere, r: Ray, tmin: real, tmax: ExtReals.Bound)
    requires s.radius != 0.0 && LengthSquared(r.dir) != 0.0
    requires var d := Discriminant(Coefficients(s, r)); d >= 0.0 ==> m.sqrt(d) >= 0.0
    ensures Hit(m, s, r, tmin, tmax) == Clip(Hit(m, s, r, tmin, ExtReals.PosInf), tmax)
  {
    var q := Coefficients(s, r);
    if Discriminant(q) >= 0.0 {
      LengthSquaredNonNegative(r.dir);
      RootsOrdered(q, m.sqrt(Discriminant(q)));
    }
  }

  /**
   * The outward normal has length one on the surface, and its projection
   * on p - center is the radius: it points away from the centre for a
   * positive radius and toward it for a negative one.
   */
  lemma OutwardNormal(s: Sphere, p: Point3)
    requires s.radius != 0.0 && OnSphere(s, p)
    ensures LengthSquared(Outward(s, p)) == 1.0
    ensures Dot(Outward(s, p), Vectors.Sub(p, s.center)) == s.radius
  {
    var v := Vectors.Sub(p, s.center);
    var k := 1.0 / s.radius;
    DotLinear(v, v, v, k);
    DotLinear(v, v, Vectors.Scale(v, k), k);
    assert LengthSquared(Vectors.Scale(v, k)) == k * (k * LengthSquared(v));
    assert k * s.radius == 1.0;
    assert k * (k * (s.radius * s.radius)) == (k * s.radius) * (k * s.radius);
    assert k * (s.radius * s.radius) == (k * s.radius) * s.radius;
  }

  /** |x| squared is x squared, and x lies between -|x| and |x|. */
  lemma AbsSquare(x: real)
    ensures Abs(x) * Abs(x) == x * x && -Abs(x) <= x <= Abs(x)
  {
    if x < 0.0 {
      assert Abs(x) * Abs(x) == (-x) * (-x);
    }
  }

  /** For non-negative numbers, squaring keeps the order. */
  lemma OrderedMagnitudes(ax: real, ay: real)
    requires ax >= 0.0 && ay >= 0.0 && ax * ax <= ay * ay
    ensures ax <= ay
  {
    assert (ay - ax) * (ay + ax) == ay * ay - ax * ax;
    if ay + ax != 0.0 {
      SignOfProduct(ay - ax, ay + ax);
    }
  }

  /** One axis of the box: a coordinate within |radius| of the centre's lies in the span. */
  lemma AxisSpan(c: real, rad: real, x: real, d: real)
    requires d == x - c && d * d <= rad * rad
    ensures Contains(Span(c - rad, c + rad), x)
  {
    AbsSquare(d);
    AbsSquare(rad);
    OrderedMagnitudes(Abs(d), Abs(rad));
  }

  /** Each squared coordinate of a vector is at most its squared length. */
  lemma CoordinateSquares(v: Vec3)
    ensures v.x * v.x <= LengthSquared(v)
    ensures v.y * v.y <= LengthSquared(v)
    ensures v.z * v.z <= LengthSquared(v)
  {
    ProductSign(v.x, v.x);
    ProductSign(v.y, v.y);
    ProductSign(v.z, v.z);
  }

  /** Every point of the surface lies in the cached box. */
  lemma SurfaceInsideBox(s: Sphere, p: Point3)
    requires OnSphere(s, p)
    ensures Inside(BoundingBox(s), p)
  {
    InsideX(s, p);
    InsideY(s, p);
    InsideZ(s, p);
  }

  /** Each coordinate of a surface point lies in its axis of the cached box. */
  lemma InsideX(s: Sphere, p: Point3)
    requires OnSphere(s, p)
    ensures Contains(BoundingBox(s).x, p.x)
  {
    var v := Vectors.Sub(p, s.center);
    CoordinateSquares(v);
    AxisSpan(s.center.x, s.radius, p.x, v.x);
    BoxSpans(s);
  }

  lemma InsideY(s: Sphere, p: Point3)
    requires OnSphere(s, p)
    ensures Contains(BoundingBox(s).y, p.y)
  {
    var v := Vectors.Sub(p, s.center);
    CoordinateSquares(v);
    AxisSpan(s.center.y, s.radius, p.y, v.y);
    BoxSpans(s);
  }

  lemma InsideZ(s: Sphere, p: Point3)
    requires OnSphere(s, p)
    ensures Contains(BoundingBox(s).z, p.z)
  {
    var v := Vectors.Sub(p, s.center);
    CoordinateSquares(v);
    AxisSpan(s.center.z, s.radius, p.z, v.z);
    BoxSpans(s);
  }

  /**
   * The offset from the centre has at least two non-zero coordinates: the
   * point is none of the six where the sphere touches its box.
   */
  predicate OffAxis(d: Vec3) {
    (d.y != 0.0 || d.z != 0.0) && (d.x != 0.0 || d.z != 0.0) && (d.x != 0.0 || d.y != 0.0)
  }

  /** For non-negative numbers, squaring keeps the strict order. */
  lemma StrictMagnitudes(ax: real, ay: real)
    requires ax >= 0.0 && ay >= 0.0 && ax * ax < ay * ay
    ensures ax < ay
  {
    if ay <= ax {
      assert (ax - ay) * (ax + ay) == ax * ax - ay * ay;
      ProductSign(ax - ay, ax + ay);
    }
  }

  /** The square of a non-zero number is positive. */
  lemma PositiveSquare(x: real, s: real)
    requires x != 0.0 && s == x * x
    ensures s > 0.0
  {
    var a := Abs(x);
    var twice := 2.0 * a;
    MulPositive(a, twice);
    assert a * twice == 2.0 * s;
  }

  /**
   * When the other two offsets are not both zero, the squared offset along
   * this axis is strictly below the squared radius.
   */
  lemma StrictRest(d: real, e: real, f: real, rad: real)
    requires d * d + (e * e + f * f) == rad * rad
    requires e != 0.0 || f != 0.0
    ensures d * d < rad * rad
  {
    if e != 0.0 {
      PositiveSquare(e, e * e);
    } else {
      PositiveSquare(f, f * f);
    }
  }

  /**
   * One axis of the box: with e and f the offsets along the other two axes,
   * a coordinate of the surface lies strictly inside the span exactly when
   * e or f is non-zero; otherwise it is an end of the span.
   */
  lemma SurfaceAxis(c: real, rad: real, x: real, d: real, e: real, f: real)
    requires d == x - c && d * d + (e * e + f * f) == rad * rad
    ensures Surrounds(Span(c - rad, c + rad), x) <==> e != 0.0 || f != 0.0
  {
    AbsSquare(d);
    AbsSquare(rad);
    var iv := Span(c - rad, c + rad);
    assert iv.min == ExtReals.Fin(c - Abs(rad)) && iv.max == ExtReals.Fin(c + Abs(rad));
    if e != 0.0 || f != 0.0 {
      StrictRest(d, e, f, rad);
      StrictMagnitudes(Abs(d), Abs(rad));
    } else {
      assert d * d == rad * rad;
      OrderedMagnitudes(Abs(d), Abs(rad));
      OrderedMagnitudes(Abs(rad), Abs(d));
    }
  }

  /**
   * A point of the surface lies strictly inside the cached box exactly when
   * it is off the axes through the centre: the six points where an axis
   * meets the sphere lie on a face of the box.
   */
  lemma SurfaceStrictlyInsideBox(s: Sphere, p: Point3)
    requires OnSphere(s, p)
    ensures StrictlyInside(BoundingBox(s), p) <==> OffAxis(Vectors.Sub(p, s.center))
  {
    SurfaceX(s, p);
    SurfaceY(s, p);
    SurfaceZ(s, p);
  }

  /** The x axis of SurfaceStrictlyInsideBox. */
  lemma SurfaceX(s: Sphere, p: Point3)
    requires OnSphere(s, p)
    ensures var v := Vectors.Sub(p, s.center);
      Surrounds(BoundingBox(s).x, p.x) <==> v.y != 0.0 || v.z != 0.0
  {
    var c, rad, v := s.center, s.radius, Vectors.Sub(p, s.center);
    SurfaceAxis(c.x, rad, p.x, v.x, v.y, v.z);
    BoxSpans(s);
  }

  /** The y axis of SurfaceStrictlyInsideBox. */
  lemma SurfaceY(s: Sphere, p: Point3)
    requires OnSphere(s, p)
    ensures var v := Vectors.Sub(p, s.center);
      Surrounds(BoundingBox(s).y, p.y) <==> v.x != 0.0 || v.z != 0.0
  {
    var c, rad, v := s.center, s.radius, Vectors.Sub(p, s.center);
    SurfaceAxis(c.y, rad, p.y, v.y, v.x, v.z);
    BoxSpans(s);
  }

  /** The z axis of SurfaceStrictlyInsideBox. */
  lemma SurfaceZ(s: Sphere, p: Point3)
    requires OnSphere(s, p)
    ensures var v := Vectors.Sub(p, s.center);
      Surrounds(BoundingBox(s).z, p.z) <==> v.x != 0.0 || v.y != 0.0
  {
    var c, rad, v := s.center, s.radius, Vectors.Sub(p, s.center);
    SurfaceAxis(c.z, rad, p.z, v.z, v.x, v.y);
    BoxSpans(s);
  }

  /** The cached box spans the centre plus or minus the radius on each axis. */
  lemma BoxSpans(s: Sphere)
    ensures var c, rad := s.center, s.radius;
      BoundingBox(s) == AABB(Span(c.x - rad, c.x + rad), Span(c.y - rad, c.y + rad), Span(c.z - rad, c.z + rad))
  {}

  /** A ray that misses the quadratic's real line never hits. */
  lemma NegativeDiscriminantMisses(m: MathLib, s: Sphere, r: Ray, tmin: real, tmax: ExtReals.Bound, t: real)
    requires s.radius != 0.0 && LengthSquared(r.dir) != 0.0
    requires Discriminant(Coefficients(s, r)) < 0.0
    ensures !OnSphere(s, At(r, t))
    ensures Hit(m, s, r, tmin, tmax).None?
  {
    if OnSphere(s, At(r, t)) {
      SurfaceEquation(s, r, t);
      SolvableDiscriminant(Coefficients(s, r), t);
    }
  }
}
