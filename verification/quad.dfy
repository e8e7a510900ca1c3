/**
 * Quad (js/quad.js): a parallelogram with corner Q and edges u and v. The
 * constructor caches the unit normal, the plane offset D, the vector
 * w = n / (n . n) that turns a point of the plane into its (alpha, beta)
 * coordinates, and a bounding box. hit() intersects the plane, then keeps
 * the point only when both coordinates lie in [0, 1].
 */
module Quads {
  import opened Results
  import opened Numeric
  import ExtReals
  import opened Intervals
  import opened Vectors
  import opened Rays
  import opened Boxes
  import opened Hits
  import opened Materials

  /** A quad and the values its constructor caches. */
  datatype Quad = Quad(
    q: Point3,
    u: Vec3,
    v: Vec3,
    mat: Material,
    normal: Vec3,
    d: real,
    w: Vec3)

  /**
   * The edges span a parallelogram of non-zero area. Otherwise the
   * constructor divides by n . n = 0 and caches a w of infinities and NaNs.
   */
  predicate NonDegenerate(u: Vec3, v: Vec3) {
    Dot(Cross(u, v), Cross(u, v)) != 0.0
  }

  /** The point Q + a u + b v of the quad's plane. */
  function Corner(q: Point3, u: Vec3, v: Vec3, a: real, b: real): Point3 {
    Vectors.Add(Vectors.Add(q, Vectors.Scale(u, a)), Vectors.Scale(v, b))
  }

  /** The box the constructor caches: fromPoints(Q, Q + u + v).pad(), one diagonal only. */
  function BoxAsWritten(q: Point3, u: Vec3, v: Vec3): (box: AABB)
    ensures SubBox(FromPoints(q, Vectors.Add(Vectors.Add(q, u), v)), box)
  {
    Pad(FromPoints(q, Vectors.Add(Vectors.Add(q, u), v)))
  }

  /** The padded hull of both diagonals, which holds the whole parallelogram. */
  function Box(q: Point3, u: Vec3, v: Vec3): (box: AABB)
    ensures SubBox(FromPoints(q, Vectors.Add(Vectors.Add(q, u), v)), box)
    ensures SubBox(FromPoints(Vectors.Add(q, u), Vectors.Add(q, v)), box)
  {
    var diagonals := DiagonalHull(q, u, v);
    SubBoxTransitive(FromPoints(q, Vectors.Add(Vectors.Add(q, u), v)), diagonals, Pad(diagonals));
    SubBoxTransitive(FromPoints(Vectors.Add(q, u), Vectors.Add(q, v)), diagonals, Pad(diagonals));
    Pad(diagonals)
  }

  /** normalized(n) is n times a non-zero factor, whether or not |n| is zero. */
  function NormalFactor(m: MathLib, n: Vec3): (f: real)
    ensures f != 0.0 && Normalized(m, n) == Vectors.Scale(n, f)
  {
    var len := Length(m, n);
    if len == 0.0 then
      assert Vectors.Scale(n, 1.0) == n;
      1.0
    else
      assert (1.0 / len) * len == 1.0;
      1.0 / len
  }

  /** The values the constructor caches: the unit normal, D and w. */
  predicate Built(m: MathLib, quad: Quad) {
    var n := Cross(quad.u, quad.v);
    && NonDegenerate(quad.u, quad.v)
    && quad.normal == Normalized(m, n)
    && quad.d == Dot(quad.normal, quad.q)
    && quad.w == Vectors.Scale(n, 1.0 / Dot(n, n))
  }

  /** The constructor. */
  function NewQuad(m: MathLib, q: Point3, u: Vec3, v: Vec3, mat: Material): (quad: Quad)
    requires NonDegenerate(u, v)
    ensures quad.q == q && quad.u == u && quad.v == v && quad.mat == mat
    ensures Built(m, quad)
    ensures Dot(quad.normal, u) == 0.0 && Dot(quad.normal, v) == 0.0
    ensures Dot(quad.w, Cross(u, v)) == 1.0
    ensures quad.d == Dot(quad.normal, q)
  {
    var n := Cross(u, v);
    var normal := Normalized(m, n);
    EdgesOrthogonal(m, u, v);
    InverseNormal(n);
    Quad(q, u, v, mat, normal, Dot(normal, q), Vectors.Scale(n, 1.0 / Dot(n, n)))
  }

  /**
   * boundingBox() with the corrected box: the padded hull of both diagonals.
   * The source caches BoxAsWritten, the padded span of Q and Q + u + v only,
   * which can leave part of the quad outside; QuadExamples shows a ray whose
   * hit a tree over that box loses. This box holds every point of the quad.
   */
  function BoundingBox(quad: Quad): (box: AABB)
    ensures forall a: real, b: real :: 0.0 <= a <= 1.0 && 0.0 <= b <= 1.0 ==>
      Inside(box, Corner(quad.q, quad.u, quad.v, a, b))
  {
    ParallelogramInside(quad.q, quad.u, quad.v);
    Box(quad.q, quad.u, quad.v)
  }

  /** The normal is orthogonal to both edges. */
  lemma EdgesOrthogonal(m: MathLib, u: Vec3, v: Vec3)
    ensures Dot(Normalized(m, Cross(u, v)), u) == 0.0
    ensures Dot(Normalized(m, Cross(u, v)), v) == 0.0
  {
    var n := Cross(u, v);
    var f := NormalFactor(m, n);
    CrossOrthogonal(u, v);
    DotLinear(n, u, u, f);
    DotLinear(n, v, v, f);
  }

  /** w . n = 1 for w = n / (n . n). */
  lemma InverseNormal(n: Vec3)
    requires Dot(n, n) != 0.0
    ensures Dot(Vectors.Scale(n, 1.0 / Dot(n, n)), n) == 1.0
  {
    var k := 1.0 / Dot(n, n);
    DotLinear(n, n, n, k);
    assert k * Dot(n, n) == 1.0;
  }

  /** Ray-plane tests closer to parallel than this count as a miss. */
  const ParallelEps: real := 0.00000001

  /** alpha = w . ((p - Q) x v). */
  function Alpha(quad: Quad, p: Point3): real {
    Dot(quad.w, Cross(Vectors.Sub(p, quad.q), quad.v))
  }

  /** beta = w . (u x (p - Q)). */
  function Beta(quad: Quad, p: Point3): real {
    Dot(quad.w, Cross(quad.u, Vectors.Sub(p, quad.q)))
  }

  /** isInterior: neither coordinate is below 0 or above 1. */
  predicate IsInterior(a: real, b: real) {
    !(a < 0.0 || 1.0 < a || b < 0.0 || 1.0 < b)
  }

  /** normal . dir, the denominator of the plane intersection. */
  function Denom(quad: Quad, r: Ray): real {
    Dot(quad.normal, r.dir)
  }

  /** (D - normal . orig) / (normal . dir). */
  function Root(quad: Quad, r: Ray): real
    requires Denom(quad, r) != 0.0
  {
    (quad.d - Dot(quad.normal, r.orig)) / Denom(quad, r)
  }

  /**
   * Quad.hit: the record it writes on success. isInterior writes u and v
   * only when it accepts, and the rest is written after it, so a miss writes
   * nothing.
   */
  function Hit(quad: Quad, r: Ray, tmin: real, tmax: ExtReals.Bound): (res: Option<Record>)
    ensures Abs(Denom(quad, r)) < ParallelEps ==> res.None?
    ensures res.Some? ==> InWindow(res.value.t, tmin, tmax) && res.value.p == At(r, res.value.t)
    ensures res.Some? ==> res.value.material == quad.mat
    ensures res.Some? ==> 0.0 <= res.value.u <= 1.0 && 0.0 <= res.value.v <= 1.0
    ensures res.Some? ==> res.value.u == Alpha(quad, res.value.p) && res.value.v == Beta(quad, res.value.p)
    ensures res.Some? ==> res.value.normal == quad.normal || res.value.normal == Neg(quad.normal)
    ensures res.Some? ==> Dot(r.dir, res.value.normal) <= 0.0
  {
    if Abs(Denom(quad, r)) < ParallelEps then None
    else
      var root := Root(quad, r);
      if !InWindow(root, tmin, tmax) then None
      else
        var p := At(r, root);
        var a, b := Alpha(quad, p), Beta(quad, p);
        if !IsInterior(a, b) then None
        else Some(SetFaceNormal(HitRecord(p, quad.normal, root, false, quad.mat, a, b), r, quad.normal))
  }

  // ---------------------------------------------------------------------------
  // The plane

  /** Along a ray, n . at(t) grows by t (n . dir). */
  lemma DotAlongRay(n: Vec3, r: Ray, t: real)
    ensures Dot(n, At(r, t)) == Dot(n, r.orig) + t * Dot(n, r.dir)
  {
    DotLinear(r.orig, Vectors.Scale(r.dir, t), n, t);
    DotLinear(Vectors.Scale(r.dir, t), n, n, t);
    DotLinear(r.dir, n, n, t);
    DotLinear(r.orig, n, n, t);
  }

  /** Solving base + t den = d for t. */
  lemma SolveLinear(base: real, den: real, d: real, t: real)
    requires den != 0.0
    ensures t == (d - base) / den <==> base + t * den == d
  {
    QuotientSign(d - base, den);
    if base + t * den == d {
      assert den * (t - (d - base) / den) == 0.0;
      ZeroProduct(den, t - (d - base) / den);
    }
  }

  /** The root puts the point on the quad's plane, normal . p = D. */
  lemma RootOnPlane(quad: Quad, r: Ray)
    requires Denom(quad, r) != 0.0
    ensures Dot(quad.normal, At(r, Root(quad, r))) == quad.d
  {
    DotAlongRay(quad.normal, r, Root(quad, r));
    SolveLinear(Dot(quad.normal, r.orig), Denom(quad, r), quad.d, Root(quad, r));
  }

  /** A point with the plane's offset differs from Q by a vector orthogonal to n. */
  lemma OnPlaneOffset(m: MathLib, quad: Quad, p: Point3)
    requires Built(m, quad)
    requires Dot(quad.normal, p) == quad.d
    ensures Dot(Cross(quad.u, quad.v), Vectors.Sub(p, quad.q)) == 0.0
  {
    var n, q := Cross(quad.u, quad.v), quad.q;
    var f := NormalFactor(m, n);
    assert Dot(Vectors.Scale(n, f), Vectors.Sub(p, q))
        == Dot(Vectors.Scale(n, f), p) - Dot(Vectors.Scale(n, f), q);
    DotLinear(n, n, Vectors.Sub(p, q), f);
    ZeroProduct(f, Dot(n, Vectors.Sub(p, q)));
  }

  // ---------------------------------------------------------------------------
  // Plane coordinates

  /** The cross products hit() takes of Q + a u + b v - Q. */
  lemma CrossOfCombination(u: Vec3, v: Vec3, a: real, b: real)
    ensures Cross(Vectors.Add(Vectors.Scale(u, a), Vectors.Scale(v, b)), v) == Vectors.Scale(Cross(u, v), a)
    ensures Cross(u, Vectors.Add(Vectors.Scale(u, a), Vectors.Scale(v, b))) == Vectors.Scale(Cross(u, v), b)
  {
    var su, sv := Vectors.Scale(u, a), Vectors.Scale(v, b);
    CrossAdditive(su, sv, v);
    CrossHomogeneous(u, v, a);
    CrossHomogeneous(v, v, b);
    CrossSelfIsZero(v);
    assert Vectors.Add(Vectors.Scale(Cross(u, v), a), Vectors.Scale(Zero, b)) == Vectors.Scale(Cross(u, v), a);
    CrossAdditive(su, sv, u);
    CrossHomogeneousRight(u, u, a);
    CrossHomogeneousRight(u, v, b);
    CrossSelfIsZero(u);
    assert Vectors.Add(Vectors.Scale(Zero, a), Vectors.Scale(Cross(u, v), b)) == Vectors.Scale(Cross(u, v), b);
  }

  /** w . (a n) = a when w = n / (n . n). */
  lemma InverseOfMultiple(n: Vec3, a: real)
    requires Dot(n, n) != 0.0
    ensures Dot(Vectors.Scale(n, 1.0 / Dot(n, n)), Vectors.Scale(n, a)) == a
  {
    var k := 1.0 / Dot(n, n);
    DotLinear(n, n, Vectors.Scale(n, a), k);
    DotLinear(n, n, n, a);
    assert k * Dot(n, n) == 1.0;
    assert k * (a * Dot(n, n)) == a * (k * Dot(n, n));
  }

  /** Q + a u + b v - Q is a u + b v. */
  lemma CornerOffset(q: Point3, u: Vec3, v: Vec3, a: real, b: real)
    ensures Vectors.Sub(Corner(q, u, v, a, b), q) == Vectors.Add(Vectors.Scale(u, a), Vectors.Scale(v, b))
  {}

  /**
   * The coordinate round trip: alpha and beta of the point Q + a u + b v
   * are a and b.
   */
  lemma CoordinatesRoundTrip(m: MathLib, quad: Quad, a: real, b: real)
    requires Built(m, quad)
    ensures Alpha(quad, Corner(quad.q, quad.u, quad.v, a, b)) == a
    ensures Beta(quad, Corner(quad.q, quad.u, quad.v, a, b)) == b
  {
    var q, u, v := quad.q, quad.u, quad.v;
    CornerOffset(q, u, v, a, b);
    CrossOfCombination(u, v, a, b);
    InverseOfMultiple(Cross(u, v), a);
    InverseOfMultiple(Cross(u, v), b);
  }

  /** y . n = (w . y)(n . n) for w = n / (n . n). */
  lemma WeightedDot(n: Vec3, y: Vec3, w: Vec3, nn: real, wy: real)
    requires nn == Dot(n, n) && nn != 0.0
    requires w == Vectors.Scale(n, 1.0 / nn) && wy == Dot(w, y)
    ensures Dot(y, n) == wy * nn
  {
    var k := 1.0 / nn;
    DotLinear(n, y, y, k);
    assert k * nn == 1.0;
    assert (k * Dot(n, y)) * nn == Dot(n, y) * (k * nn);
  }

  /** Dividing one coordinate of Cramer's rule by the non-zero area. */
  lemma CancelArea(x: real, u: real, v: real, n: real, al: real, be: real,
                   area: real, ta: real, tb: real, tn: real)
    requires area != 0.0 && ta == al * area && tb == be * area && tn == 0.0
    requires x * area == u * ta + v * tb + n * tn
    ensures x == u * al + v * be
  {
    assert u * ta == (u * al) * area;
    assert v * tb == (v * be) * area;
    assert (x - (u * al + v * be)) * area == 0.0;
    ZeroProduct(x - (u * al + v * be), area);
  }

  /** Cramer's rule for a vector of the plane, divided by the area. */
  lemma CancelAreaVec(x: Vec3, u: Vec3, v: Vec3, n: Vec3, al: real, be: real,
                      area: real, ta: real, tb: real, tn: real)
    requires area != 0.0 && ta == al * area && tb == be * area && tn == 0.0
    requires Vectors.Scale(x, area)
          == Vectors.Add(Vectors.Add(Vectors.Scale(u, ta), Vectors.Scale(v, tb)), Vectors.Scale(n, tn))
    ensures x == Vectors.Add(Vectors.Scale(u, al), Vectors.Scale(v, be))
  {
    CancelArea(x.x, u.x, v.x, n.x, al, be, area, ta, tb, tn);
    CancelArea(x.y, u.y, v.y, n.y, al, be, area, ta, tb, tn);
    CancelArea(x.z, u.z, v.z, n.z, al, be, area, ta, tb, tn);
  }

  /** p - Q = a u + b v puts p at Q + a u + b v. */
  lemma OffsetToCorner(q: Point3, p: Point3, u: Vec3, v: Vec3, a: real, b: real)
    requires Vectors.Sub(p, q) == Vectors.Add(Vectors.Scale(u, a), Vectors.Scale(v, b))
    ensures p == Corner(q, u, v, a, b)
  {
    assert p.x - q.x == u.x * a + v.x * b;
    assert p.y - q.y == u.y * a + v.y * b;
    assert p.z - q.z == u.z * a + v.z * b;
  }

  /**
   * The converse of the round trip: a point of the plane through Q is
   * Q + alpha u + beta v for its own alpha and beta.
   */
  lemma PlaneDecomposition(m: MathLib, quad: Quad, p: Point3)
    requires Built(m, quad)
    requires Dot(Cross(quad.u, quad.v), Vectors.Sub(p, quad.q)) == 0.0
    ensures p == Corner(quad.q, quad.u, quad.v, Alpha(quad, p), Beta(quad, p))
  {
    var q, u, v := quad.q, quad.u, quad.v;
    var n := Cross(u, v);
    var x := Vectors.Sub(p, q);
    var al, be := Alpha(quad, p), Beta(quad, p);
    Cramer(u, v, n, x);
    TripleIsDot(u, v, n);
    TripleIsDot(u, v, x);
    TripleIsDot(x, v, n);
    TripleIsDot(u, x, n);
    var area, ta, tb, tn := Triple(u, v, n), Triple(x, v, n), Triple(u, x, n), Triple(u, v, x);
    WeightedDot(n, Cross(x, v), quad.w, area, al);
    WeightedDot(n, Cross(u, x), quad.w, area, be);
    CancelAreaVec(x, u, v, n, al, be, area, ta, tb, tn);
    OffsetToCorner(q, p, u, v, al, be);
  }

  // ---------------------------------------------------------------------------
  // The box

  /** A fraction in [0, 1] of k lies between 0 and k. */
  lemma UnitFraction(a: real, k: real, ka: real)
    requires 0.0 <= a <= 1.0 && ka == k * a
    ensures 0.0 <= ka <= k || k <= ka <= 0.0
  {
    ProductSign(k, a);
    ProductSign(k, 1.0 - a);
    assert k - ka == k * (1.0 - a);
  }

  /** q + ua + vb, for ua between 0 and u and vb between 0 and v, lies on one diagonal's span. */
  lemma BetweenDiagonals(q: real, u: real, v: real, ua: real, vb: real)
    requires 0.0 <= ua <= u || u <= ua <= 0.0
    requires 0.0 <= vb <= v || v <= vb <= 0.0
    ensures || q <= (q + ua) + vb <= (q + u) + v
            || (q + u) + v <= (q + ua) + vb <= q
            || q + u <= (q + ua) + vb <= q + v
            || q + v <= (q + ua) + vb <= q + u
  {}

  /**
   * One axis: q + a u + b v lies between the ends of one of the two
   * diagonals, q to q + u + v when u and v have the same sign and
   * q + u to q + v when they do not.
   */
  lemma DiagonalAxis(q: real, u: real, v: real, a: real, b: real)
    requires 0.0 <= a <= 1.0 && 0.0 <= b <= 1.0
    ensures Contains(Span(q, (q + u) + v), (q + u * a) + v * b)
         || Contains(Span(q + u, q + v), (q + u * a) + v * b)
  {
    var ua, vb := u * a, v * b;
    UnitFraction(a, u, ua);
    UnitFraction(b, v, vb);
    BetweenDiagonals(q, u, v, ua, vb);
    var x := (q + ua) + vb;
    if q <= x <= (q + u) + v || (q + u) + v <= x <= q {
      SpanBetween(q, (q + u) + v, x);
    } else {
      SpanBetween(q + u, q + v, x);
    }
  }

  /** The hull of the two diagonals. */
  function DiagonalHull(q: Point3, u: Vec3, v: Vec3): AABB {
    FromAABBs(FromPoints(q, Vectors.Add(Vectors.Add(q, u), v)),
              FromPoints(Vectors.Add(q, u), Vectors.Add(q, v)))
  }

  /** One axis of the hull of the two diagonals holds q + a u + b v. */
  lemma HullAxis(q: real, u: real, v: real, a: real, b: real, iv: Interval, x: real)
    requires 0.0 <= a <= 1.0 && 0.0 <= b <= 1.0
    requires iv == FromIntervals(Span(q, (q + u) + v), Span(q + u, q + v))
    requires x == (q + u * a) + v * b
    ensures Contains(iv, x)
  {
    DiagonalAxis(q, u, v, a, b);
  }

  /** The x axis of the diagonal hull. */
  lemma DiagonalHullX(q: Point3, u: Vec3, v: Vec3)
    ensures DiagonalHull(q, u, v).x == FromIntervals(Span(q.x, (q.x + u.x) + v.x), Span(q.x + u.x, q.x + v.x))
  {}

  /** The y axis of the diagonal hull. */
  lemma DiagonalHullY(q: Point3, u: Vec3, v: Vec3)
    ensures DiagonalHull(q, u, v).y == FromIntervals(Span(q.y, (q.y + u.y) + v.y), Span(q.y + u.y, q.y + v.y))
  {}

  /** The z axis of the diagonal hull. */
  lemma DiagonalHullZ(q: Point3, u: Vec3, v: Vec3)
    ensures DiagonalHull(q, u, v).z == FromIntervals(Span(q.z, (q.z + u.z) + v.z), Span(q.z + u.z, q.z + v.z))
  {}

  /** The coordinates of Q + a u + b v. */
  lemma CornerAxes(q: Point3, u: Vec3, v: Vec3, a: real, b: real)
    ensures Corner(q, u, v, a, b).x == (q.x + u.x * a) + v.x * b
    ensures Corner(q, u, v, a, b).y == (q.y + u.y * a) + v.y * b
    ensures Corner(q, u, v, a, b).z == (q.z + u.z * a) + v.z * b
  {}

  /** The x coordinates of the parallelogram lie in the hull's x axis. */
  lemma InsideDiagonalHullX(q: Point3, u: Vec3, v: Vec3, a: real, b: real)
    requires 0.0 <= a <= 1.0 && 0.0 <= b <= 1.0
    ensures Contains(DiagonalHull(q, u, v).x, Corner(q, u, v, a, b).x)
  {
    DiagonalHullX(q, u, v);
    CornerAxes(q, u, v, a, b);
    HullAxis(q.x, u.x, v.x, a, b, DiagonalHull(q, u, v).x, Corner(q, u, v, a, b).x);
  }

  /** The y coordinates of the parallelogram lie in the hull's y axis. */
  lemma InsideDiagonalHullY(q: Point3, u: Vec3, v: Vec3, a: real, b: real)
    requires 0.0 <= a <= 1.0 && 0.0 <= b <= 1.0
    ensures Contains(DiagonalHull(q, u, v).y, Corner(q, u, v, a, b).y)
  {
    DiagonalHullY(q, u, v);
    CornerAxes(q, u, v, a, b);
    HullAxis(q.y, u.y, v.y, a, b, DiagonalHull(q, u, v).y, Corner(q, u, v, a, b).y);
  }

  /** The z coordinates of the parallelogram lie in the hull's z axis. */
  lemma InsideDiagonalHullZ(q: Point3, u: Vec3, v: Vec3, a: real, b: real)
    requires 0.0 <= a <= 1.0 && 0.0 <= b <= 1.0
    ensures Contains(DiagonalHull(q, u, v).z, Corner(q, u, v, a, b).z)
  {
    DiagonalHullZ(q, u, v);
    CornerAxes(q, u, v, a, b);
    HullAxis(q.z, u.z, v.z, a, b, DiagonalHull(q, u, v).z, Corner(q, u, v, a, b).z);
  }

  /** The whole parallelogram lies in the two-diagonal box. */
  lemma ParallelogramInside(q: Point3, u: Vec3, v: Vec3)
    ensures forall a: real, b: real :: 0.0 <= a <= 1.0 && 0.0 <= b <= 1.0 ==>
      Inside(Box(q, u, v), Corner(q, u, v, a, b))
  {
    forall a: real, b: real | 0.0 <= a <= 1.0 && 0.0 <= b <= 1.0
      ensures Inside(Box(q, u, v), Corner(q, u, v, a, b))
    {
      ParallelogramInsideBox(q, u, v, a, b);
    }
  }

  /** The parallelogram point at coordinates (a, b) lies in the two-diagonal box. */
  lemma ParallelogramInsideBox(q: Point3, u: Vec3, v: Vec3, a: real, b: real)
    requires 0.0 <= a <= 1.0 && 0.0 <= b <= 1.0
    ensures Inside(Box(q, u, v), Corner(q, u, v, a, b))
  {
    InsideDiagonalHullX(q, u, v, a, b);
    InsideDiagonalHullY(q, u, v, a, b);
    InsideDiagonalHullZ(q, u, v, a, b);
    SubBoxInside(DiagonalHull(q, u, v), Box(q, u, v), Corner(q, u, v, a, b));
  }

  /**
   * For a strictly between 0 and 1, k a lies strictly between 0 and k unless
   * k is zero.
   */
  lemma StrictFraction(a: real, k: real) returns (ka: real)
    requires 0.0 < a < 1.0
    ensures ka == k * a
    ensures k == 0.0 ==> ka == 0.0
    ensures k > 0.0 ==> 0.0 < ka < k
    ensures k < 0.0 ==> k < ka < 0.0
  {
    ka := k * a;
    var rest := 1.0 - a;
    assert k * rest == k - ka;
    SignOfProduct(k, a);
    SignOfProduct(k, rest);
  }


  /**
   * Q + ua + vb, where ua lies strictly between 0 and u and vb strictly
   * between 0 and v (each zero with its edge), lies strictly between the
   * least and the greatest corner coordinate unless both edges are zero.
   */
  lemma StrictBetweenCorners(q: real, u: real, v: real, ua: real, vb: real)
    requires u == 0.0 ==> ua == 0.0
    requires u > 0.0 ==> 0.0 < ua < u
    requires u < 0.0 ==> u < ua < 0.0
    requires v == 0.0 ==> vb == 0.0
    requires v > 0.0 ==> 0.0 < vb < v
    requires v < 0.0 ==> v < vb < 0.0
    requires u != 0.0 || v != 0.0
    ensures (q + (if u < 0.0 then u else 0.0)) + (if v < 0.0 then v else 0.0) < (q + ua) + vb
    ensures (q + ua) + vb < (q + (if u > 0.0 then u else 0.0)) + (if v > 0.0 then v else 0.0)
  {}

  /**
   * One axis: a point with both coordinates strictly inside (0, 1) lies
   * strictly inside the padded hull of the diagonals. It lies strictly
   * between the least and the greatest corner when an edge moves along the
   * axis. When neither edge moves along it, the axis has zero width and
   * pad() widens it.
   */
  lemma StrictAxis(q: real, u: real, v: real, a: real, b: real, iv: Interval, x: real)
    requires 0.0 < a < 1.0 && 0.0 < b < 1.0
    requires iv == FromIntervals(Span(q, (q + u) + v), Span(q + u, q + v))
    requires x == (q + u * a) + v * b
    ensures Surrounds(PadAxis(iv), x)
  {
    var lo, hi := iv.min, iv.max;
    assert lo.Fin? && hi.Fin?;
    assert lo.r <= q && lo.r <= q + u && lo.r <= q + v && lo.r <= (q + u) + v;
    assert q <= hi.r && q + u <= hi.r && q + v <= hi.r && (q + u) + v <= hi.r;
    var pad := PadAxis(iv);
    if u == 0.0 && v == 0.0 {
      assert lo.r == q && hi.r == q && x == q;
      assert pad == Expand(iv, Delta);
    } else {
      var ua := StrictFraction(a, u);
      var vb := StrictFraction(b, v);
      StrictBetweenCorners(q, u, v, ua, vb);
      assert lo.r < x < hi.r;
      assert pad.min.Fin? && pad.max.Fin?;
      assert pad.min.r <= lo.r && hi.r <= pad.max.r;
    }
  }


  /**
   * Every point of the parallelogram whose coordinates both lie strictly
   * inside (0, 1) lies strictly inside the two-diagonal box.
   */
  lemma InteriorStrictlyInsideBox(q: Point3, u: Vec3, v: Vec3, a: real, b: real)
    requires 0.0 < a < 1.0 && 0.0 < b < 1.0
    ensures StrictlyInside(Box(q, u, v), Corner(q, u, v, a, b))
  {
    var hull, p := DiagonalHull(q, u, v), Corner(q, u, v, a, b);
    StrictHullX(q, u, v, a, b);
    StrictHullY(q, u, v, a, b);
    StrictHullZ(q, u, v, a, b);
    BoxAxes(q, u, v);
  }

  /** The x axis of InteriorStrictlyInsideBox. */
  lemma StrictHullX(q: Point3, u: Vec3, v: Vec3, a: real, b: real)
    requires 0.0 < a < 1.0 && 0.0 < b < 1.0
    ensures Surrounds(PadAxis(DiagonalHull(q, u, v).x), Corner(q, u, v, a, b).x)
  {
    DiagonalHullX(q, u, v);
    CornerAxes(q, u, v, a, b);
    StrictAxis(q.x, u.x, v.x, a, b, DiagonalHull(q, u, v).x, Corner(q, u, v, a, b).x);
  }

  /** The y axis of InteriorStrictlyInsideBox. */
  lemma StrictHullY(q: Point3, u: Vec3, v: Vec3, a: real, b: real)
    requires 0.0 < a < 1.0 && 0.0 < b < 1.0
    ensures Surrounds(PadAxis(DiagonalHull(q, u, v).y), Corner(q, u, v, a, b).y)
  {
    DiagonalHullY(q, u, v);
    CornerAxes(q, u, v, a, b);
    StrictAxis(q.y, u.y, v.y, a, b, DiagonalHull(q, u, v).y, Corner(q, u, v, a, b).y);
  }

  /** The z axis of InteriorStrictlyInsideBox. */
  lemma StrictHullZ(q: Point3, u: Vec3, v: Vec3, a: real, b: real)
    requires 0.0 < a < 1.0 && 0.0 < b < 1.0
    ensures Surrounds(PadAxis(DiagonalHull(q, u, v).z), Corner(q, u, v, a, b).z)
  {
    DiagonalHullZ(q, u, v);
    CornerAxes(q, u, v, a, b);
    StrictAxis(q.z, u.z, v.z, a, b, DiagonalHull(q, u, v).z, Corner(q, u, v, a, b).z);
  }

  /** The axes of the two-diagonal box are the padded axes of the hull. */
  lemma BoxAxes(q: Point3, u: Vec3, v: Vec3)
    ensures var hull := DiagonalHull(q, u, v);
      Box(q, u, v) == AABB(PadAxis(hull.x), PadAxis(hull.y), PadAxis(hull.z))
  {}

  // ---------------------------------------------------------------------------
  // hit()

  /**
   * What hit() reports lies in the quad: on the plane, at Q + u' u + v' v for
   * the recorded (u', v'), and inside the cached box.
   */
  lemma HitOnQuad(m: MathLib, quad: Quad, r: Ray, tmin: real, tmax: ExtReals.Bound)
    requires Built(m, quad)
    ensures var res := Hit(quad, r, tmin, tmax);
      res.Some? ==>
        && Dot(quad.normal, res.value.p) == quad.d
        && res.value.p == Corner(quad.q, quad.u, quad.v, res.value.u, res.value.v)
        && Inside(BoundingBox(quad), res.value.p)
  {
    var res := Hit(quad, r, tmin, tmax);
    if res.Some? {
      RootOnPlane(quad, r);
      OnPlaneOffset(m, quad, res.value.p);
      PlaneDecomposition(m, quad, res.value.p);
      ParallelogramInsideBox(quad.q, quad.u, quad.v, res.value.u, res.value.v);
    }
  }

  /**
   * A reported point whose coordinates both lie strictly inside (0, 1) lies
   * strictly inside the cached box, so the slab test of a BVH node over the
   * quad keeps the window open for it.
   */
  lemma InteriorHitStrictlyInBox(m: MathLib, quad: Quad, r: Ray, tmin: real, tmax: ExtReals.Bound)
    requires Built(m, quad)
    ensures var res := Hit(quad, r, tmin, tmax);
      res.Some? && 0.0 < res.value.u < 1.0 && 0.0 < res.value.v < 1.0 ==>
        StrictlyInside(BoundingBox(quad), res.value.p)
  {
    var res := Hit(quad, r, tmin, tmax);
    HitOnQuad(m, quad, r, tmin, tmax);
    if res.Some? && 0.0 < res.value.u < 1.0 && 0.0 < res.value.v < 1.0 {
      InteriorStrictlyInsideBox(quad.q, quad.u, quad.v, res.value.u, res.value.v);
    }
  }

  /** The corners of a plane through Q orthogonal to n all have n . p = n . Q. */
  lemma CornerOnPlane(n: Vec3, q: Point3, u: Vec3, v: Vec3, a: real, b: real)
    requires Dot(n, u) == 0.0 && Dot(n, v) == 0.0
    ensures Dot(n, Corner(q, u, v, a, b)) == Dot(n, q)
  {
    var qa := Vectors.Add(q, Vectors.Scale(u, a));
    DotLinear(qa, Vectors.Scale(v, b), n, b);
    DotLinear(q, Vectors.Scale(u, a), n, a);
    DotLinear(u, n, n, a);
    DotLinear(v, n, n, b);
    DotLinear(q, n, n, a);
    DotLinear(Corner(q, u, v, a, b), n, n, a);
  }

  /** hit() accepts a root in the window whose coordinates are interior, and records them. */
  lemma HitWhenInterior(quad: Quad, r: Ray, tmin: real, tmax: ExtReals.Bound)
    requires Abs(Denom(quad, r)) >= ParallelEps
    requires InWindow(Root(quad, r), tmin, tmax)
    requires IsInterior(Alpha(quad, At(r, Root(quad, r))), Beta(quad, At(r, Root(quad, r))))
    ensures var res := Hit(quad, r, tmin, tmax);
      && res.Some? && res.value.t == Root(quad, r)
      && res.value.u == Alpha(quad, At(r, Root(quad, r)))
      && res.value.v == Beta(quad, At(r, Root(quad, r)))
  {}

  /**
   * Every point of the quad that the ray reaches inside the window, at a
   * slope the parallel test lets through, is reported, with its own t and
   * coordinates.
   */
  lemma HitComplete(m: MathLib, quad: Quad, r: Ray, tmin: real, tmax: ExtReals.Bound, t: real, a: real, b: real)
    requires Built(m, quad)
    requires Abs(Denom(quad, r)) >= ParallelEps
    requires InWindow(t, tmin, tmax)
    requires 0.0 <= a <= 1.0 && 0.0 <= b <= 1.0
    requires At(r, t) == Corner(quad.q, quad.u, quad.v, a, b)
    ensures var res := Hit(quad, r, tmin, tmax);
      res.Some? && res.value.t == t && res.value.u == a && res.value.v == b
  {
    EdgesOrthogonal(m, quad.u, quad.v);
    DotAlongRay(quad.normal, r, t);
    CornerOnPlane(quad.normal, quad.q, quad.u, quad.v, a, b);
    SolveLinear(Dot(quad.normal, r.orig), Denom(quad, r), quad.d, t);
    assert Root(quad, r) == t;
    CoordinatesRoundTrip(m, quad, a, b);
    HitWhenInterior(quad, r, tmin, tmax);
  }

  /** A plane point whose coordinates are not interior is not reported. */
  lemma HitMissesOutside(quad: Quad, r: Ray, tmin: real, tmax: ExtReals.Bound)
    requires Denom(quad, r) != 0.0
    requires !IsInterior(Alpha(quad, At(r, Root(quad, r))), Beta(quad, At(r, Root(quad, r))))
    ensures Hit(quad, r, tmin, tmax).None?
  {}

  /** Searching up to tmax is searching without a bound and discarding a hit at or beyond tmax. */
  lemma HitClips(quad: Quad, r: Ray, tmin: real, tmax: ExtReals.Bound)
    ensures Hit(quad, r, tmin, tmax) == Clip(Hit(quad, r, tmin, ExtReals.PosInf), tmax)
  {}

  // ---------------------------------------------------------------------------
  // The box the source caches

  /** The x axis of the source's box is the padded span of the diagonal's x coordinates. */
  lemma BoxAsWrittenX(q: Point3, u: Vec3, v: Vec3)
    ensures BoxAsWritten(q, u, v).x == PadAxis(Span(q.x, (q.x + u.x) + v.x))
  {}

  /** pad() widens a one-point interval to delta on either side. */
  lemma PadPoint(x: real)
    ensures PadAxis(Span(x, x)) == Interval(ExtReals.Fin(x - Delta), ExtReals.Fin(x + Delta))
  {}

  /**
   * When u and v cancel in x, the source's box is only 2 delta wide in x,
   * however far the quad reaches in x.
   */
  lemma BoxAsWrittenFlatX(q: Point3, u: Vec3, v: Vec3)
    requires u.x + v.x == 0.0
    ensures BoxAsWritten(q, u, v).x == Interval(ExtReals.Fin(q.x - Delta), ExtReals.Fin(q.x + Delta))
  {
    BoxAsWrittenX(q, u, v);
    assert (q.x + u.x) + v.x == q.x;
    PadPoint(q.x);
  }

  /** A point further than delta from Q in x lies outside such a flat box. */
  lemma OutsideFlatBoxAsWritten(q: Point3, u: Vec3, v: Vec3, p: Point3)
    requires u.x + v.x == 0.0 && p.x > q.x + Delta
    ensures !Inside(BoxAsWritten(q, u, v), p)
  {
    BoxAsWrittenFlatX(q, u, v);
  }

  /**
   * A point of a quad whose edges cancel in x, further than delta from Q in
   * x: outside the source's box, inside the two-diagonal box.
   */
  lemma FlatQuadBoxes(quad: Quad, p: Point3, a: real, b: real)
    requires 0.0 <= a <= 1.0 && 0.0 <= b <= 1.0 && p == Corner(quad.q, quad.u, quad.v, a, b)
    requires quad.u.x + quad.v.x == 0.0 && p.x > quad.q.x + Delta
    ensures !Inside(BoxAsWritten(quad.q, quad.u, quad.v), p)
    ensures Inside(BoundingBox(quad), p)
  {
    OutsideFlatBoxAsWritten(quad.q, quad.u, quad.v, p);
    ParallelogramInsideBox(quad.q, quad.u, quad.v, a, b);
  }
}
