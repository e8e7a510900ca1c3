/**
 * Color3 (color.js): an unclamped linear RGB triple. Mutating members
 * (copy, plusEquals, scaled) are modelled as functions returning the
 * receiver's new value. The named constants are ordinary mutable instances
 * in the source; only Camera.RayColorAsWritten models what that sharing does.
 */
module Colors {
  import opened Numeric

  datatype Color = Color(r: real, g: real, b: real)

  const BLACK: Color := Color(0.0, 0.0, 0.0)
  const WHITE: Color := Color(1.0, 1.0, 1.0)
  const SKY_BLUE: Color := Color(0.5, 0.7, 1.0)
  const RED: Color := Color(1.0, 0.0, 0.0)
  const CYAN: Color := Color(0.0, 1.0, 1.0)
  const YELLOW: Color := Color(1.0, 1.0, 0.0)

  /** mul: channel-wise product. */
  function Mul(a: Color, b: Color): Color {
    Color(a.r * b.r, a.g * b.g, a.b * b.b)
  }

  function Add(a: Color, b: Color): Color {
    Color(a.r + b.r, a.g + b.g, a.b + b.b)
  }

  /** scale: t times every channel, as a new colour. */
  function Scale(c: Color, t: real): Color {
    Color(t * c.r, t * c.g, t * c.b)
  }

  /** plusEquals: the receiver's value after the call. */
  function PlusEquals(self: Color, other: Color): Color {
    Color(self.r + other.r, self.g + other.g, self.b + other.b)
  }

  /** scaled: the receiver's value after the call, which is also what it returns. */
  function Scaled(self: Color, k: real): Color {
    Color(self.r * k, self.g * k, self.b * k)
  }

  /** copy: the receiver's value after copying `other` into it. */
  function Copy(self: Color, other: Color): (r: Color)
    ensures r.r == other.r && r.g == other.g && r.b == other.b
  {
    Color(other.r, other.g, other.b)
  }

  /** Color3.random(min, max) for three sampler values in [0, 1). */
  function Random(min: real, max: real, d1: real, d2: real, d3: real): (c: Color)
    requires 0.0 <= d1 < 1.0 && 0.0 <= d2 < 1.0 && 0.0 <= d3 < 1.0
    requires min < max
    ensures min <= c.r < max && min <= c.g < max && min <= c.b < max
  {
    Color(RandomInRange(min, max, d1), RandomInRange(min, max, d2), RandomInRange(min, max, d3))
  }

  /** mul is commutative, WHITE is its identity and BLACK its zero. */
  lemma MulLaws(a: Color, b: Color)
    ensures Mul(a, b) == Mul(b, a)
    ensures Mul(a, WHITE) == a && Mul(WHITE, a) == a
    ensures Mul(a, BLACK) == BLACK && Mul(BLACK, a) == BLACK
  {}

  /** plusEquals leaves the receiver equal to what add returns; scaled agrees with scale. */
  lemma InPlaceAgreesWithPure(a: Color, b: Color, k: real)
    ensures PlusEquals(a, b) == Add(a, b)
    ensures Scaled(a, k) == Scale(a, k)
    ensures Copy(a, b) == b
  {}

  /** The colour algebra used to unroll the rayColor recursion. */
  lemma ColorAlgebra(a: Color, b: Color, c: Color)
    ensures Add(a, b) == Add(b, a)
    ensures Add(Add(a, b), c) == Add(a, Add(b, c))
    ensures Add(a, BLACK) == a
    ensures Mul(Mul(a, b), c) == Mul(a, Mul(b, c))
    ensures Mul(a, Add(b, c)) == Add(Mul(a, b), Mul(a, c))
  {}
}
