/**
 * utils.js and the numeric primitives of JavaScript's Math that the renderer
 * calls. Transcendental functions are not computed: they are carried in a
 * `MathLib` value supplied by the caller, and every proof that needs one of
 * their properties states that property about the specific value it uses.
 */
module Numeric {

  /** Math.PI. */
  const PI: real := 3.141592653589793

  /** Math.sqrt, Math.tan, Math.sin, Math.acos and Math.atan2, left uninterpreted. */
  datatype MathLib = MathLib(
    sqrt: real -> real,
    tan: real -> real,
    sin: real -> real,
    acos: real -> real,
    atan2: (real, real) -> real)

  /** `s` is the (non-negative) square root of `x`. */
  predicate IsSqrtOf(s: real, x: real) {
    s >= 0.0 && s * s == x
  }

  function Abs(x: real): real {
    if x < 0.0 then -x else x
  }

  /** Math.floor. */
  function Floor(x: real): int {
    x.Floor
  }

  /** Truncation toward zero, as `x >> 0` and the JavaScript remainder use. */
  function Trunc(x: real): int {
    if x >= 0.0 then x.Floor else -((-x).Floor)
  }

  /** Products of positive reals are positive; the solver needs this spelled out. */
  lemma MulPositive(a: real, b: real)
    requires a > 0.0 && b > 0.0
    ensures a * b > 0.0
  {}

  /** Scaling a positive `k` by a factor in [0, 1) stays below `k`. */
  lemma FractionBelow(d: real, k: real)
    requires 0.0 <= d < 1.0 && k > 0.0
    ensures 0.0 <= d * k < k
  {
    MulPositive(1.0 - d, k);
    assert k - d * k == (1.0 - d) * k;
  }

  /** A draw in [0, 1) scales any `k` into the half-open range between 0 and `k`. */
  lemma ScaledDraw(d: real, k: real)
    requires 0.0 <= d < 1.0
    ensures k > 0.0 ==> 0.0 <= d * k < k
    ensures k < 0.0 ==> k < d * k <= 0.0
    ensures k == 0.0 ==> d * k == 0.0
  {
    if k > 0.0 {
      FractionBelow(d, k);
    } else if k < 0.0 {
      FractionBelow(d, -k);
      assert d * k == -(d * -k);
    }
  }

  /** Multiplying by a non-zero `d` keeps the sign of `y` when `d > 0` and flips it when `d < 0`. */
  lemma SignOfProduct(y: real, d: real)
    requires d != 0.0
    ensures d > 0.0 ==> (y * d > 0.0 <==> y > 0.0) && (y * d < 0.0 <==> y < 0.0)
    ensures d < 0.0 ==> (y * d > 0.0 <==> y < 0.0) && (y * d < 0.0 <==> y > 0.0)
  {
    if y > 0.0 && d > 0.0 {
      MulPositive(y, d);
    } else if y < 0.0 && d > 0.0 {
      MulPositive(-y, d);
    } else if y > 0.0 && d < 0.0 {
      MulPositive(y, -d);
    } else if y < 0.0 && d < 0.0 {
      MulPositive(-y, -d);
    }
  }

  /** A product is zero only when a factor is. */
  lemma ZeroProduct(x: real, y: real)
    requires x * y == 0.0
    ensures x == 0.0 || y == 0.0
  {
    if x != 0.0 && y != 0.0 {
      SignOfProduct(y, x);
    }
  }

  /** 1 / d has the sign of d. */
  lemma RecipSign(d: real)
    requires d != 0.0
    ensures d > 0.0 ==> 1.0 / d > 0.0
    ensures d < 0.0 ==> 1.0 / d < 0.0
  {
    var q := 1.0 / d;
    assert q * d == 1.0;
    SignOfProduct(q, d);
  }

  /**
   * Comparing `t` with x * (1 / d), as the slab test does, is comparing d t
   * with x, the order reversed for a negative `d`.
   */
  lemma DivideThrough(x: real, d: real, t: real)
    requires d != 0.0
    ensures d > 0.0 ==> (x * (1.0 / d) <= t <==> x <= d * t) && (x * (1.0 / d) < t <==> x < d * t)
    ensures d > 0.0 ==> (t <= x * (1.0 / d) <==> d * t <= x) && (t < x * (1.0 / d) <==> d * t < x)
    ensures d < 0.0 ==> (x * (1.0 / d) <= t <==> d * t <= x) && (x * (1.0 / d) < t <==> d * t < x)
    ensures d < 0.0 ==> (t <= x * (1.0 / d) <==> x <= d * t) && (t < x * (1.0 / d) <==> x < d * t)
  {
    var q := x * (1.0 / d);
    var y := q - t;
    assert q * d == x;
    assert y * d == x - d * t;
    SignOfProduct(y, d);
  }

  /** The sign of a product follows the signs of its factors. */
  lemma ProductSign(a: real, b: real)
    ensures a >= 0.0 && b >= 0.0 ==> a * b >= 0.0
    ensures a <= 0.0 && b <= 0.0 ==> a * b >= 0.0
    ensures a >= 0.0 && b <= 0.0 ==> a * b <= 0.0
    ensures a <= 0.0 && b >= 0.0 ==> a * b <= 0.0
  {}

  /** The part that truncation removes lies strictly between -1 and 1 and keeps the sign. */
  lemma TruncFraction(q: real)
    ensures var f := q - Trunc(q) as real;
      && Abs(f) < 1.0
      && (q >= 0.0 ==> f >= 0.0)
      && (q <= 0.0 ==> f <= 0.0)
  {}

  /** The quotient has the sign of the dividend times that of the divisor. */
  lemma QuotientSign(x: real, y: real)
    requires y != 0.0
    ensures y * (x / y) == x
    ensures x >= 0.0 && y > 0.0 ==> x / y >= 0.0
    ensures x >= 0.0 && y < 0.0 ==> x / y <= 0.0
    ensures x <= 0.0 && y > 0.0 ==> x / y <= 0.0
    ensures x <= 0.0 && y < 0.0 ==> x / y >= 0.0
  {
    var q := x / y;
    if q < 0.0 && y > 0.0 {
      MulPositive(-q, y);
    } else if q > 0.0 && y > 0.0 {
      MulPositive(q, y);
    } else if q < 0.0 && y < 0.0 {
      MulPositive(-q, -y);
    } else if q > 0.0 && y < 0.0 {
      MulPositive(q, -y);
    }
  }

  /** Multiplying by a factor of magnitude below one shrinks the magnitude. */
  lemma ShrinkingProduct(y: real, f: real)
    requires y != 0.0 && Abs(f) < 1.0
    ensures Abs(y * f) < Abs(y)
  {
    var ay, af := Abs(y), Abs(f);
    FractionBelow(af, ay);
    var p := af * ay;
    assert y * f == p || y * f == -p;
  }

  /** The truncated remainder is smaller than the divisor and has the dividend's sign. */
  lemma TruncRemainder(x: real, y: real)
    requires y != 0.0
    ensures var r := x - y * (Trunc(x / y) as real);
      && Abs(r) < Abs(y)
      && (x >= 0.0 ==> r >= 0.0)
      && (x <= 0.0 ==> r <= 0.0)
  {
    var q := x / y;
    var t := Trunc(q) as real;
    var f := q - t;
    TruncFraction(q);
    QuotientSign(x, y);
    assert x - y * t == y * f;
    ShrinkingProduct(y, f);
    ProductSign(y, f);
  }

  /** JavaScript `x % y` on numbers: the remainder has the sign of `x`. */
  function JsRem(x: real, y: real): (r: real)
    requires y != 0.0
    ensures Abs(r) < Abs(y)
    ensures x >= 0.0 ==> r >= 0.0
    ensures x <= 0.0 ==> r <= 0.0
  {
    TruncRemainder(x, y);
    x - y * (Trunc(x / y) as real)
  }

  /** JavaScript `a % b` on integers: truncated, so `-3 % 2 == -1`. */
  function JsIntRem(a: int, b: int): (r: int)
    requires b != 0
    ensures r == 0 <==> a % b == 0
    ensures a >= 0 ==> r == a % b
    ensures a < 0 ==> -(if b > 0 then b else -b) < r <= 0
  {
    if a >= 0 || a % b == 0 then a % b else a % b - (if b > 0 then b else -b)
  }

  /** degreesToRadians (utils.js:1-3). */
  function DegreesToRadians(degrees: real): (radians: real)
    ensures radians * 180.0 == degrees * PI
  {
    degrees * (PI / 180.0)
  }

  lemma DegreesToRadiansLinear(a: real, b: real, k: real)
    ensures DegreesToRadians(a + b) == DegreesToRadians(a) + DegreesToRadians(b)
    ensures DegreesToRadians(k * a) == k * DegreesToRadians(a)
    ensures DegreesToRadians(0.0) == 0.0 && DegreesToRadians(180.0) == PI
  {}

  /** A draw in [0, 1) takes a fraction of a non-negative span `k`. */
  function Portion(draw: real, k: real): (s: real)
    requires 0.0 <= draw < 1.0 && k >= 0.0
    ensures 0.0 <= s <= k
    ensures k > 0.0 ==> s < k
  {
    if k == 0.0 then 0.0 else FractionBelow(draw, k); draw * k
  }

  /**
   * randomInRange (utils.js:4-7) for the sampler value `draw`, which
   * Math.random takes from [0, 1): min + draw * (max - min), computed from
   * whichever end keeps the span non-negative.
   */
  function RandomInRange(min: real, max: real, draw: real): (r: real)
    requires 0.0 <= draw < 1.0
    ensures min < max ==> min <= r < max
    ensures min == max ==> r == min
    ensures max < min ==> max < r <= min
  {
    if min <= max then min + Portion(draw, max - min) else min - Portion(draw, min - max)
  }

  /** Both branches of RandomInRange compute the source's single expression. */
  lemma RandomInRangeFormula(min: real, max: real, draw: real)
    requires 0.0 <= draw < 1.0
    ensures RandomInRange(min, max, draw) == min + draw * (max - min)
  {
    if min > max {
      assert draw * (min - max) == -(draw * (max - min));
    }
  }

  /** randomInt (utils.js:8-11): floor(draw * max). */
  function RandomInt(max: int, draw: real): (n: int)
    requires 0.0 <= draw < 1.0
    ensures max >= 1 ==> 0 <= n < max
    ensures max <= 0 ==> max <= n <= 0
  {
    ScaledDraw(draw, max as real);
    Floor(draw * (max as real))
  }

  lemma RandomIntSmall(draw: real)
    requires 0.0 <= draw < 1.0
    ensures RandomInt(1, draw) == 0
    ensures RandomInt(3, draw) in {0, 1, 2}
  {}
}
