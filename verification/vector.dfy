/**
 * Vec3 and Point3 (demo/js/vector.js). The source's in-place mutators
 * (plusEquals, minusEquals, scaled) are modelled as functions returning the
 * receiver's new value; the methods that allocate (add, scale, ...) return
 * a fresh value, which in a value model is every function.
 */
module Vectors {
  import opened Numeric

  datatype Vec3 = Vec3(x: real, y: real, z: real)

  /** Point3 is the same representation used for positions. */
  type Point3 = Vec3

  /** Vec3.ZERO. */
  const Zero: Vec3 := Vec3(0.0, 0.0, 0.0)

  function Add(a: Vec3, b: Vec3): Vec3 {
    Vec3(a.x + b.x, a.y + b.y, a.z + b.z)
  }

  function Sub(a: Vec3, b: Vec3): Vec3 {
    Vec3(a.x - b.x, a.y - b.y, a.z - b.z)
  }

  function Scale(v: Vec3, k: real): Vec3 {
    Vec3(v.x * k, v.y * k, v.z * k)
  }

  function Neg(v: Vec3): Vec3 {
    Vec3(-v.x, -v.y, -v.z)
  }

  function Dot(a: Vec3, b: Vec3): real {
    a.x * b.x + a.y * b.y + a.z * b.z
  }

  function Cross(a: Vec3, b: Vec3): Vec3 {
    Vec3(a.y * b.z - a.z * b.y, a.z * b.x - a.x * b.z, a.x * b.y - a.y * b.x)
  }

  function LengthSquared(v: Vec3): real {
    Dot(v, v)
  }

  function Length(m: MathLib, v: Vec3): real {
    m.sqrt(LengthSquared(v))
  }

  /**
   * normalized(): v / |v|. A zero length makes the source divide by zero and
   * produce NaN components; the model, which has no NaN, returns `v` unchanged.
   */
  function Normalized(m: MathLib, v: Vec3): Vec3 {
    var len := Length(m, v);
    if len == 0.0 then v else Scale(v, 1.0 / len)
  }

  /** plusEquals: the receiver's value after the call. */
  function PlusEquals(self: Vec3, other: Vec3): Vec3 {
    Add(self, other)
  }

  /** minusEquals: the receiver's value after the call. */
  function MinusEquals(self: Vec3, other: Vec3): Vec3 {
    Sub(self, other)
  }

  /** scaled: the receiver's value after the call, which is also what it returns. */
  function Scaled(self: Vec3, k: real): Vec3 {
    Scale(self, k)
  }

  /** idx: component 2 is z, 1 is y, anything else is x. */
  function Idx(v: Vec3, i: int): real {
    if i == 2 then v.z else if i == 1 then v.y else v.x
  }

  /** reflect: v - 2 (v . N) N. */
  function Reflect(v: Vec3, n: Vec3): Vec3 {
    Sub(v, Scale(n, 2.0 * Dot(v, n)))
  }

  /** The perpendicular part of refract: eta (uv + min(-uv . n, 1) n). */
  function RefractPerp(uv: Vec3, n: Vec3, eta: real): Vec3 {
    var cosTheta := if Dot(Neg(uv), n) < 1.0 then Dot(Neg(uv), n) else 1.0;
    Scale(Add(uv, Scale(n, cosTheta)), eta)
  }

  /** The parallel part of refract: -sqrt(1 - |perp|^2) n. */
  function RefractParallel(m: MathLib, uv: Vec3, n: Vec3, eta: real): Vec3 {
    Scale(n, -m.sqrt(1.0 - LengthSquared(RefractPerp(uv, n, eta))))
  }

  /** Vec3.refract: Snell's law by perpendicular and parallel parts. */
  function Refract(m: MathLib, uv: Vec3, n: Vec3, eta: real): Vec3 {
    Add(RefractPerp(uv, n, eta), RefractParallel(m, uv, n, eta))
  }

  /**
   * randomOnHemisphere for the unit vector `onUnitSphere` that
   * randomUnitVector supplied: kept when it already points along `normal`,
   * negated otherwise.
   */
  function RandomOnHemisphere(normal: Vec3, onUnitSphere: Vec3): (r: Vec3)
    ensures Dot(normal, r) >= 0.0
    ensures r == onUnitSphere || r == Neg(onUnitSphere)
    ensures LengthSquared(r) == LengthSquared(onUnitSphere)
  {
    if Dot(normal, onUnitSphere) > 0.0 then onUnitSphere else Neg(onUnitSphere)
  }

  /** Per-component tolerance of nearEquals. */
  const NearEps: real := 0.0000001

  /** nearEquals: every component differs by less than 1e-7. */
  predicate NearEquals(a: Vec3, b: Vec3) {
    Abs(a.x - b.x) < NearEps && Abs(a.y - b.y) < NearEps && Abs(a.z - b.z) < NearEps
  }

  // ---------------------------------------------------------------------------
  // Algebraic properties

  lemma SubSelfIsZero(v: Vec3)
    ensures Sub(v, v) == Zero
    ensures Add(v, Neg(v)) == Zero
  {}

  lemma NegIsScaleMinusOne(v: Vec3)
    ensures Neg(v) == Scale(v, -1.0)
    ensures Neg(Neg(v)) == v
  {}

  /** plusEquals followed by minusEquals of the same vector restores the receiver. */
  lemma PlusMinusRoundTrip(self: Vec3, other: Vec3)
    ensures MinusEquals(PlusEquals(self, other), other) == self
    ensures PlusEquals(MinusEquals(self, other), other) == self
  {}

  /** idx agrees with the named components and with addition and scaling. */
  lemma IdxComponents(a: Vec3, b: Vec3, k: real, i: int)
    ensures Idx(a, 0) == a.x && Idx(a, 1) == a.y && Idx(a, 2) == a.z
    ensures Idx(Add(a, b), i) == Idx(a, i) + Idx(b, i)
    ensures Idx(Scale(a, k), i) == Idx(a, i) * k
  {}

  /** The cross product is orthogonal to both operands. */
  lemma CrossOrthogonal(a: Vec3, b: Vec3)
    ensures Dot(a, Cross(a, b)) == 0.0
    ensures Dot(b, Cross(a, b)) == 0.0
  {}

  lemma CrossSelfIsZero(a: Vec3)
    ensures Cross(a, a) == Zero
  {}

  /** Cross distributes over addition in each argument. */
  lemma CrossAdditive(a: Vec3, b: Vec3, c: Vec3)
    ensures Cross(Add(a, b), c) == Add(Cross(a, c), Cross(b, c))
    ensures Cross(c, Add(a, b)) == Add(Cross(c, a), Cross(c, b))
  {}

  /** Scaling the first argument scales the cross product. */
  lemma CrossHomogeneous(a: Vec3, c: Vec3, k: real)
    ensures Cross(Scale(a, k), c) == Scale(Cross(a, c), k)
  {
    assert (a.y * k) * c.z - (a.z * k) * c.y == (a.y * c.z - a.z * c.y) * k;
    assert (a.z * k) * c.x - (a.x * k) * c.z == (a.z * c.x - a.x * c.z) * k;
    assert (a.x * k) * c.y - (a.y * k) * c.x == (a.x * c.y - a.y * c.x) * k;
  }

  /** Scaling the second argument scales the cross product. */
  lemma CrossHomogeneousRight(c: Vec3, a: Vec3, k: real)
    ensures Cross(c, Scale(a, k)) == Scale(Cross(c, a), k)
  {
    CrossAntiCommutative(Scale(a, k), c);
    CrossHomogeneous(a, c, k);
    CrossAntiCommutative(a, c);
    var x := Cross(a, c);
    assert Neg(Scale(x, k)) == Scale(Neg(x), k);
  }

  /** The cross product is anti-commutative. */
  lemma CrossAntiCommutative(a: Vec3, b: Vec3)
    ensures Cross(b, a) == Neg(Cross(a, b))
  {}

  /** Dot is symmetric and linear. */
  lemma DotLinear(a: Vec3, b: Vec3, c: Vec3, k: real)
    ensures Dot(a, b) == Dot(b, a)
    ensures Dot(Add(a, b), c) == Dot(a, c) + Dot(b, c)
    ensures Dot(Scale(a, k), c) == k * Dot(a, c)
    ensures Dot(c, Scale(a, k)) == k * Dot(c, a)
  {}

  /** Against a unit normal, reflect negates the normal component. */
  lemma ReflectNegatesNormalPart(v: Vec3, n: Vec3)
    requires Dot(n, n) == 1.0
    ensures Dot(Reflect(v, n), n) == -Dot(v, n)
  {}

  /** Against a unit normal, reflect preserves length. */
  lemma ReflectPreservesLength(v: Vec3, n: Vec3)
    requires Dot(n, n) == 1.0
    ensures LengthSquared(Reflect(v, n)) == LengthSquared(v)
  {}

  /** Against a unit normal, reflect is an involution. */
  lemma ReflectInvolution(v: Vec3, n: Vec3)
    requires Dot(n, n) == 1.0
    ensures Reflect(Reflect(v, n), n) == v
  {}

  /**
   * refract's parallel part completes the perpendicular part to unit length:
   * |perp|^2 + |parallel|^2 = 1 whenever |perp|^2 <= 1 and the square root is exact.
   */
  lemma RefractPartsComplete(m: MathLib, uv: Vec3, n: Vec3, eta: real)
    requires Dot(n, n) == 1.0
    requires IsSqrtOf(m.sqrt(1.0 - LengthSquared(RefractPerp(uv, n, eta))),
                      1.0 - LengthSquared(RefractPerp(uv, n, eta)))
    ensures LengthSquared(RefractParallel(m, uv, n, eta))
         == 1.0 - LengthSquared(RefractPerp(uv, n, eta))
  {
    var s := m.sqrt(1.0 - LengthSquared(RefractPerp(uv, n, eta)));
    assert LengthSquared(Scale(n, -s)) == s * s * Dot(n, n);
  }

  /**
   * With no clamping of cos(theta), the perpendicular part is orthogonal to
   * the normal, so the refracted direction has unit length.
   */
  lemma {:induction false} RefractIsUnit(m: MathLib, uv: Vec3, n: Vec3, eta: real)
    requires Dot(n, n) == 1.0
    requires Dot(Neg(uv), n) <= 1.0
    requires IsSqrtOf(m.sqrt(1.0 - LengthSquared(RefractPerp(uv, n, eta))),
                      1.0 - LengthSquared(RefractPerp(uv, n, eta)))
    ensures LengthSquared(Refract(m, uv, n, eta)) == 1.0
  {
    var perp := RefractPerp(uv, n, eta);
    var par := RefractParallel(m, uv, n, eta);
    var s := m.sqrt(1.0 - LengthSquared(perp));
    var c := Dot(Neg(uv), n);
    assert perp == Scale(Add(uv, Scale(n, c)), eta);
    assert Dot(perp, n) == 0.0 by {
      DotLinear(Add(uv, Scale(n, c)), n, n, eta);
      DotLinear(uv, Scale(n, c), n, c);
      DotLinear(n, n, n, c);
    }
    assert Dot(perp, par) == 0.0 by {
      DotLinear(n, perp, perp, -s);
    }
    RefractPartsComplete(m, uv, n, eta);
    assert LengthSquared(Add(perp, par))
        == LengthSquared(perp) + 2.0 * Dot(perp, par) + LengthSquared(par);
  }

  /** With an exact square root, normalized() yields a unit vector. */
  lemma NormalizedIsUnit(m: MathLib, v: Vec3)
    requires IsSqrtOf(m.sqrt(LengthSquared(v)), LengthSquared(v))
    requires m.sqrt(LengthSquared(v)) != 0.0
    ensures LengthSquared(Normalized(m, v)) == 1.0
  {
    var len := m.sqrt(LengthSquared(v));
    var k := 1.0 / len;
    assert LengthSquared(Scale(v, k)) == k * k * LengthSquared(v);
    assert k * k * (len * len) == 1.0;
  }

  /** nearEquals is reflexive and symmetric. */
  lemma NearEqualsReflexiveSymmetric(a: Vec3, b: Vec3)
    ensures NearEquals(a, a)
    ensures NearEquals(a, b) <==> NearEquals(b, a)
  {}

  /** A vector that is not nearEquals to ZERO is not zero. */
  lemma NotNearZeroIsNonZero(v: Vec3)
    requires !NearEquals(v, Zero)
    ensures v != Zero
  {}

  // ---------------------------------------------------------------------------
  // Triple product and Cramer's rule (used by the quad's plane coordinates)

  /** The scalar triple product [a, b, c] = (a x b) . c. */
  function Triple(a: Vec3, b: Vec3, c: Vec3): real {
    Det(a.x, a.y, a.z, b.x, b.y, b.z, c.x, c.y, c.z)
  }

  lemma TripleIsDot(a: Vec3, b: Vec3, c: Vec3)
    ensures Dot(Cross(a, b), c) == Triple(a, b, c)
  {}

  /** The 3x3 determinant with rows (a1, a2, a3), (b1, b2, b3), (c1, c2, c3). */
  function Det(a1: real, a2: real, a3: real, b1: real, b2: real, b3: real, c1: real, c2: real, c3: real): real {
    (a2 * b3 - a3 * b2) * c1 + (a3 * b1 - a1 * b3) * c2 + (a1 * b2 - a2 * b1) * c3
  }
  /**
   * Cramer's rule, one coordinate at a time, with every product expanded so
   * that the solver only has to compare monomials.
   */
  lemma CramerX(a1: real, a2: real, a3: real, b1: real, b2: real, b3: real, c1: real, c2: real, c3: real,
                x1: real, x2: real, x3: real)
    ensures x1 * Det(a1, a2, a3, b1, b2, b3, c1, c2, c3)
         == a1 * Det(x1, x2, x3, b1, b2, b3, c1, c2, c3)
          + b1 * Det(a1, a2, a3, x1, x2, x3, c1, c2, c3)
          + c1 * Det(a1, a2, a3, b1, b2, b3, x1, x2, x3)
  {
    assert x1 * Det(a1, a2, a3, b1, b2, b3, c1, c2, c3)
        == x1 * a2 * b3 * c1 - x1 * a3 * b2 * c1 + x1 * a3 * b1 * c2 - x1 * a1 * b3 * c2 + x1 * a1 * b2 * c3 - x1 * a2 * b1 * c3;
    assert a1 * Det(x1, x2, x3, b1, b2, b3, c1, c2, c3)
        == a1 * x2 * b3 * c1 - a1 * x3 * b2 * c1 + a1 * x3 * b1 * c2 - a1 * x1 * b3 * c2 + a1 * x1 * b2 * c3 - a1 * x2 * b1 * c3;
    assert b1 * Det(a1, a2, a3, x1, x2, x3, c1, c2, c3)
        == b1 * a2 * x3 * c1 - b1 * a3 * x2 * c1 + b1 * a3 * x1 * c2 - b1 * a1 * x3 * c2 + b1 * a1 * x2 * c3 - b1 * a2 * x1 * c3;
    assert c1 * Det(a1, a2, a3, b1, b2, b3, x1, x2, x3)
        == c1 * a2 * b3 * x1 - c1 * a3 * b2 * x1 + c1 * a3 * b1 * x2 - c1 * a1 * b3 * x2 + c1 * a1 * b2 * x3 - c1 * a2 * b1 * x3;
  }

  lemma CramerY(a1: real, a2: real, a3: real, b1: real, b2: real, b3: real, c1: real, c2: real, c3: real,
                x1: real, x2: real, x3: real)
    ensures x2 * Det(a1, a2, a3, b1, b2, b3, c1, c2, c3)
         == a2 * Det(x1, x2, x3, b1, b2, b3, c1, c2, c3)
          + b2 * Det(a1, a2, a3, x1, x2, x3, c1, c2, c3)
          + c2 * Det(a1, a2, a3, b1, b2, b3, x1, x2, x3)
  {
    assert x2 * Det(a1, a2, a3, b1, b2, b3, c1, c2, c3)
        == x2 * a2 * b3 * c1 - x2 * a3 * b2 * c1 + x2 * a3 * b1 * c2 - x2 * a1 * b3 * c2 + x2 * a1 * b2 * c3 - x2 * a2 * b1 * c3;
    assert a2 * Det(x1, x2, x3, b1, b2, b3, c1, c2, c3)
        == a2 * x2 * b3 * c1 - a2 * x3 * b2 * c1 + a2 * x3 * b1 * c2 - a2 * x1 * b3 * c2 + a2 * x1 * b2 * c3 - a2 * x2 * b1 * c3;
    assert b2 * Det(a1, a2, a3, x1, x2, x3, c1, c2, c3)
        == b2 * a2 * x3 * c1 - b2 * a3 * x2 * c1 + b2 * a3 * x1 * c2 - b2 * a1 * x3 * c2 + b2 * a1 * x2 * c3 - b2 * a2 * x1 * c3;
    assert c2 * Det(a1, a2, a3, b1, b2, b3, x1, x2, x3)
        == c2 * a2 * b3 * x1 - c2 * a3 * b2 * x1 + c2 * a3 * b1 * x2 - c2 * a1 * b3 * x2 + c2 * a1 * b2 * x3 - c2 * a2 * b1 * x3;
  }

  lemma CramerZ(a1: real, a2: real, a3: real, b1: real, b2: real, b3: real, c1: real, c2: real, c3: real,
                x1: real, x2: real, x3: real)
    ensures x3 * Det(a1, a2, a3, b1, b2, b3, c1, c2, c3)
         == a3 * Det(x1, x2, x3, b1, b2, b3, c1, c2, c3)
          + b3 * Det(a1, a2, a3, x1, x2, x3, c1, c2, c3)
          + c3 * Det(a1, a2, a3, b1, b2, b3, x1, x2, x3)
  {
    assert x3 * Det(a1, a2, a3, b1, b2, b3, c1, c2, c3)
        == x3 * a2 * b3 * c1 - x3 * a3 * b2 * c1 + x3 * a3 * b1 * c2 - x3 * a1 * b3 * c2 + x3 * a1 * b2 * c3 - x3 * a2 * b1 * c3;
    assert a3 * Det(x1, x2, x3, b1, b2, b3, c1, c2, c3)
        == a3 * x2 * b3 * c1 - a3 * x3 * b2 * c1 + a3 * x3 * b1 * c2 - a3 * x1 * b3 * c2 + a3 * x1 * b2 * c3 - a3 * x2 * b1 * c3;
    assert b3 * Det(a1, a2, a3, x1, x2, x3, c1, c2, c3)
        == b3 * a2 * x3 * c1 - b3 * a3 * x2 * c1 + b3 * a3 * x1 * c2 - b3 * a1 * x3 * c2 + b3 * a1 * x2 * c3 - b3 * a2 * x1 * c3;
    assert c3 * Det(a1, a2, a3, b1, b2, b3, x1, x2, x3)
        == c3 * a2 * b3 * x1 - c3 * a3 * b2 * x1 + c3 * a3 * b1 * x2 - c3 * a1 * b3 * x2 + c3 * a1 * b2 * x3 - c3 * a2 * b1 * x3;
  }

  /** The same identities with the determinants passed in by name. */
  lemma CramerXAt(a1: real, a2: real, a3: real, b1: real, b2: real, b3: real, c1: real, c2: real, c3: real,
                x1: real, x2: real, x3: real, dabc: real, dxbc: real, daxc: real, dabx: real)
    requires dabc == Det(a1, a2, a3, b1, b2, b3, c1, c2, c3)
    requires dxbc == Det(x1, x2, x3, b1, b2, b3, c1, c2, c3)
    requires daxc == Det(a1, a2, a3, x1, x2, x3, c1, c2, c3)
    requires dabx == Det(a1, a2, a3, b1, b2, b3, x1, x2, x3)
    ensures x1 * dabc == a1 * dxbc + b1 * daxc + c1 * dabx
  {
    CramerX(a1, a2, a3, b1, b2, b3, c1, c2, c3, x1, x2, x3);
  }

  lemma CramerYAt(a1: real, a2: real, a3: real, b1: real, b2: real, b3: real, c1: real, c2: real, c3: real,
                x1: real, x2: real, x3: real, dabc: real, dxbc: real, daxc: real, dabx: real)
    requires dabc == Det(a1, a2, a3, b1, b2, b3, c1, c2, c3)
    requires dxbc == Det(x1, x2, x3, b1, b2, b3, c1, c2, c3)
    requires daxc == Det(a1, a2, a3, x1, x2, x3, c1, c2, c3)
    requires dabx == Det(a1, a2, a3, b1, b2, b3, x1, x2, x3)
    ensures x2 * dabc == a2 * dxbc + b2 * daxc + c2 * dabx
  {
    CramerY(a1, a2, a3, b1, b2, b3, c1, c2, c3, x1, x2, x3);
  }

  lemma CramerZAt(a1: real, a2: real, a3: real, b1: real, b2: real, b3: real, c1: real, c2: real, c3: real,
                x1: real, x2: real, x3: real, dabc: real, dxbc: real, daxc: real, dabx: real)
    requires dabc == Det(a1, a2, a3, b1, b2, b3, c1, c2, c3)
    requires dxbc == Det(x1, x2, x3, b1, b2, b3, c1, c2, c3)
    requires daxc == Det(a1, a2, a3, x1, x2, x3, c1, c2, c3)
    requires dabx == Det(a1, a2, a3, b1, b2, b3, x1, x2, x3)
    ensures x3 * dabc == a3 * dxbc + b3 * daxc + c3 * dabx
  {
    CramerZ(a1, a2, a3, b1, b2, b3, c1, c2, c3, x1, x2, x3);
  }

  /** One coordinate of Cramer's rule for vectors. */
  lemma CramerVX(a: Vec3, b: Vec3, c: Vec3, x: Vec3)
    ensures x.x * Triple(a, b, c) == a.x * Triple(x, b, c) + b.x * Triple(a, x, c) + c.x * Triple(a, b, x)
  {
    CramerXAt(a.x, a.y, a.z, b.x, b.y, b.z, c.x, c.y, c.z, x.x, x.y, x.z,
               Triple(a, b, c), Triple(x, b, c), Triple(a, x, c), Triple(a, b, x));
  }

  lemma CramerVY(a: Vec3, b: Vec3, c: Vec3, x: Vec3)
    ensures x.y * Triple(a, b, c) == a.y * Triple(x, b, c) + b.y * Triple(a, x, c) + c.y * Triple(a, b, x)
  {
    CramerYAt(a.x, a.y, a.z, b.x, b.y, b.z, c.x, c.y, c.z, x.x, x.y, x.z,
               Triple(a, b, c), Triple(x, b, c), Triple(a, x, c), Triple(a, b, x));
  }

  lemma CramerVZ(a: Vec3, b: Vec3, c: Vec3, x: Vec3)
    ensures x.z * Triple(a, b, c) == a.z * Triple(x, b, c) + b.z * Triple(a, x, c) + c.z * Triple(a, b, x)
  {
    CramerZAt(a.x, a.y, a.z, b.x, b.y, b.z, c.x, c.y, c.z, x.x, x.y, x.z,
               Triple(a, b, c), Triple(x, b, c), Triple(a, x, c), Triple(a, b, x));
  }

  /**
   * Cramer's rule: every vector x is a combination of a, b and c with
   * coefficients given by triple products, scaled by [a, b, c].
   */
  lemma Cramer(a: Vec3, b: Vec3, c: Vec3, x: Vec3)
    ensures Scale(x, Triple(a, b, c))
         == Add(Add(Scale(a, Triple(x, b, c)), Scale(b, Triple(a, x, c))), Scale(c, Triple(a, b, x)))
  {
    CramerVX(a, b, c, x);
    CramerVY(a, b, c, x);
    CramerVZ(a, b, c, x);
  }
}
