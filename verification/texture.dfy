/**
 * The textures of src/texture.ts as one datatype. value() may throw (the
 * unfinished UV checker does), so it returns a Result. Image decoding
 * (ImageTexture.load) is not modelled: an image texture holds either no
 * buffer yet or the decoded width, height and RGBA bytes.
 */
module Textures {
  import opened Results
  import opened Numeric
  import opened Vectors
  import opened Colors
  import opened Perlin

  /** A decoded image: row-major RGBA bytes, four per pixel. */
  datatype ImageData = ImageData(width: int, height: int, buffer: seq<int>)

  /** An image the decoder can hand over: at least one pixel, four bytes each. */
  predicate ValidImage(img: ImageData) {
    && 1 <= img.width < 0x8000_0000
    && 1 <= img.height < 0x8000_0000
    && |img.buffer| == 4 * img.width * img.height
    && forall i :: 0 <= i < |img.buffer| ==> 0 <= img.buffer[i] < 256
  }

  datatype Texture =
    | SolidColor(color: Color)
      /** CheckerTextureXYZ keeps 1 / scale. */
    | CheckerXYZ(c1: Color, c2: Color, invScale: real)
    | CheckerUV
    | Image(data: Option<ImageData>)
    | NoiseTexture(noise: Tables, scale: real)

  predicate ValidTexture(tex: Texture) {
    match tex
    case Image(Some(img)) => ValidImage(img)
    case NoiseTexture(noise, _) => Valid(noise)
    case _ => true
  }

  /** new CheckerTextureXYZ(c1, c2, scale). */
  function NewCheckerXYZ(c1: Color, c2: Color, scale: real): (tex: Texture)
    requires scale != 0.0
    ensures tex.CheckerXYZ? && tex.invScale * scale == 1.0
  {
    CheckerXYZ(c1, c2, 1.0 / scale)
  }

  /** The checker cell index floor(c / scale) along one axis. */
  function Cell(invScale: real, c: real): int {
    Floor(invScale * c)
  }

  /** The sum of the three cell indices. */
  function CellSum(invScale: real, p: Point3): int {
    Cell(invScale, p.x) + Cell(invScale, p.y) + Cell(invScale, p.z)
  }

  /**
   * CheckerTextureXYZ.value: c1 when the cell sum is even. The source tests
   * `sum % 2 == 0` with JavaScript's truncating remainder, which is -1 for a
   * negative odd sum, so the test is still exactly the parity test.
   */
  function CheckerValue(c1: Color, c2: Color, invScale: real, p: Point3): (c: Color)
    ensures c == (if CellSum(invScale, p) % 2 == 0 then c1 else c2)
  {
    if JsIntRem(CellSum(invScale, p), 2) == 0 then c1 else c2
  }

  /**
   * The image column `|u w % w| >> 0`: the remainder lies strictly between
   * -w and w, so the truncated magnitude is a column index.
   */
  function ImageColumn(u: real, w: int): (col: int)
    requires 1 <= w < 0x8000_0000
    ensures 0 <= col < w
  {
    var x := Abs(JsRem(u * (w as real), w as real));
    assert 0.0 <= x < w as real;
    var k := Trunc(x);
    assert 0 <= k < w;
    ToInt32(k)
  }

  /** The byte offset of pixel (col, row) lies in the buffer with room for three channels. */
  function PixelIndex(col: int, row: int, w: int, h: int): (idx: int)
    requires 0 <= col < w && 0 <= row < h
    ensures 0 <= idx && idx + 3 < 4 * w * h
    ensures idx % 4 == 0
  {
    RowFits(col, row, w, h);
    (col + row * w) * 4
  }

  lemma RowFits(col: int, row: int, w: int, h: int)
    requires 0 <= col < w && 0 <= row < h
    ensures 0 <= col + row * w < w * h
  {
    ProductSign(row as real, w as real);
    assert row * w <= (h - 1) * w;
  }

  /** A stored byte as a channel value, byte / 255. */
  function Channel(byte: int): (c: real)
    requires 0 <= byte < 256
    ensures 0.0 <= c <= 1.0
  {
    byte as real / 255.0
  }

  /** ImageTexture.value on a decoded image. */
  function ImageValue(img: ImageData, u: real, v: real): (c: Color)
    requires ValidImage(img)
    ensures 0.0 <= c.r <= 1.0 && 0.0 <= c.g <= 1.0 && 0.0 <= c.b <= 1.0
  {
    var col := ImageColumn(u, img.width);
    var row := ImageColumn(1.0 - v, img.height);
    var idx := PixelIndex(col, row, img.width, img.height);
    Color(Channel(img.buffer[idx]), Channel(img.buffer[idx + 1]), Channel(img.buffer[idx + 2]))
  }

  /** The angle NoiseTexture.value takes the sine of: s.z + 10 turb(s) with s = scale p. */
  function NoisePhase(noise: Tables, scale: real, p: Point3): real
    requires Valid(noise)
  {
    var s := Vectors.Scale(p, scale);
    s.z + 10.0 * Turb(noise, s, DefaultDepth)
  }

  /** Half of one plus a value in [-1, 1] lies in [0, 1]. */
  lemma HalfShifted(k: real)
    ensures -1.0 <= k <= 1.0 ==> 0.0 <= 0.5 * (1.0 + k) <= 1.0
  {}

  /** White scaled by 0.5 (1 + sin(phase)): a grey, in [0, 1] when the sine is in [-1, 1]. */
  function NoiseGrey(m: MathLib, phase: real): (c: Color)
    ensures c.r == c.g == c.b
    ensures -1.0 <= m.sin(phase) <= 1.0 ==> 0.0 <= c.r <= 1.0
  {
    var k := m.sin(phase);
    HalfShifted(k);
    Colors.Scale(WHITE, 0.5 * (1.0 + k))
  }

  /** NoiseTexture.value. */
  function NoiseValue(m: MathLib, noise: Tables, scale: real, p: Point3): (c: Color)
    requires Valid(noise)
    ensures c.r == c.g == c.b
    ensures -1.0 <= m.sin(NoisePhase(noise, scale, p)) <= 1.0 ==> 0.0 <= c.r <= 1.0
  {
    NoiseGrey(m, NoisePhase(noise, scale, p))
  }

  /** Texture.value(u, v, point). */
  function Value(m: MathLib, tex: Texture, u: real, v: real, p: Point3): (r: Result<Color>)
    requires ValidTexture(tex)
    ensures r.Error? <==> tex.CheckerUV?
    ensures tex.Image? && tex.data.None? ==> r == Ok(CYAN)
    ensures tex.Image? && tex.data.Some? ==>
              0.0 <= r.value.r <= 1.0 && 0.0 <= r.value.g <= 1.0 && 0.0 <= r.value.b <= 1.0
    ensures tex.NoiseTexture? ==> r.value.r == r.value.g == r.value.b
    ensures tex.NoiseTexture? && -1.0 <= m.sin(NoisePhase(tex.noise, tex.scale, p)) <= 1.0 ==>
              0.0 <= r.value.r <= 1.0
  {
    match tex
    case SolidColor(color) => Ok(color)
    case CheckerXYZ(c1, c2, invScale) => Ok(CheckerValue(c1, c2, invScale, p))
    case CheckerUV => Error("Method not implemented.")
    case Image(None) => Ok(CYAN)
    case Image(Some(img)) => Ok(ImageValue(img, u, v))
    case NoiseTexture(noise, scale) => Ok(NoiseValue(m, noise, scale, p))
  }

  // ---------------------------------------------------------------------------
  // Properties

  /** A solid colour ignores u, v and the point. */
  lemma SolidIgnoresInputs(m: MathLib, color: Color, u1: real, v1: real, p1: Point3,
                           u2: real, v2: real, p2: Point3)
    ensures Value(m, SolidColor(color), u1, v1, p1) == Value(m, SolidColor(color), u2, v2, p2)
    ensures Value(m, SolidColor(color), u1, v1, p1) == Ok(color)
  {}

  /** Adding one to a number adds one to its floor. */
  lemma FloorShift(x: real, y: real, k: int)
    requires y == x + k as real
    ensures Floor(y) == Floor(x) + k
  {}

  /** Moving a coordinate by k checker sizes moves its scaled value by k. */
  lemma ScaledStep(invScale: real, scale: real, x: real, y: real, k: int)
    requires invScale * scale == 1.0
    requires y == x + k as real * scale
    ensures invScale * y == invScale * x + k as real
  {
    assert invScale * y == invScale * x + k as real * (invScale * scale);
  }

  /** A move along x alone changes the cell sum by the change in the x cell. */
  lemma CellSumAlongX(inv: real, p: Point3, x: real, k: int)
    requires Cell(inv, x) == Cell(inv, p.x) + k
    ensures CellSum(inv, Vec3(x, p.y, p.z)) == CellSum(inv, p) + k
  {}

  /** One more cell flips the colour; two more cells keep it. */
  lemma CheckerParity(c1: Color, c2: Color, inv: real, p: Point3, q1: Point3, q2: Point3)
    requires CellSum(inv, q1) == CellSum(inv, p) + 1
    requires CellSum(inv, q2) == CellSum(inv, p) + 2
    ensures CheckerValue(c1, c2, inv, q1)
         == (if CheckerValue(c1, c2, inv, p) == c1 && c1 != c2 then c2 else c1)
    ensures CheckerValue(c1, c2, inv, q2) == CheckerValue(c1, c2, inv, p)
  {
    var n := CellSum(inv, p);
    assert (n + 1) % 2 == 0 <==> n % 2 != 0;
    assert (n + 2) % 2 == n % 2;
  }

  /**
   * Moving the point by one checker size along x switches between the two
   * colours, and moving it by two sizes gives the same colour back.
   */
  lemma CheckerAlternates(c1: Color, c2: Color, scale: real, p: Point3)
    requires scale != 0.0
    ensures var tex := NewCheckerXYZ(c1, c2, scale);
      && CheckerValue(c1, c2, tex.invScale, Vec3(p.x + scale, p.y, p.z))
         == (if CheckerValue(c1, c2, tex.invScale, p) == c1 && c1 != c2 then c2 else c1)
      && CheckerValue(c1, c2, tex.invScale, Vec3(p.x + 2.0 * scale, p.y, p.z))
         == CheckerValue(c1, c2, tex.invScale, p)
  {
    var inv := NewCheckerXYZ(c1, c2, scale).invScale;
    var q1 := Vec3(p.x + scale, p.y, p.z);
    var q2 := Vec3(p.x + 2.0 * scale, p.y, p.z);
    ScaledStep(inv, scale, p.x, q1.x, 1);
    ScaledStep(inv, scale, p.x, q2.x, 2);
    FloorShift(inv * p.x, inv * q1.x, 1);
    FloorShift(inv * p.x, inv * q2.x, 2);
    CellSumAlongX(inv, p, q1.x, 1);
    CellSumAlongX(inv, p, q2.x, 2);
    CheckerParity(c1, c2, inv, p, q1, q2);
  }

  /** The JavaScript parity test agrees with the mathematical one on negative sums too. */
  lemma CheckerNegativeCells(c1: Color, c2: Color)
    requires c1 != c2
    ensures CheckerValue(c1, c2, 1.0, Vec3(-1.0, 0.0, 0.0)) == c2
    ensures CheckerValue(c1, c2, 1.0, Vec3(-1.0, -1.0, 0.0)) == c1
    ensures JsIntRem(-1, 2) == -1
  {}
}
