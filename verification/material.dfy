/**
 * The materials of js/material.js. scatter(inRay, rec, attenuation,
 * scattered) writes its two out-parameters and returns whether the ray goes
 * on; here it returns what it wrote (None for an out-parameter left alone)
 * together with the verdict. Every draw of Math.random and
 * Vec3.randomUnitVector is supplied in a `Sample`. A texture lookup that
 * throws makes scatter and emitted throw, so both return a Result.
 */
module Materials {
  import opened Results
  import opened Numeric
  import opened Vectors
  import opened Colors
  import opened Rays
  import opened Hits
  import opened Textures

  datatype Distribution = Uniform | Lambertian

  datatype Material =
    | Metal(texture: Texture, roughness: real)
    | Diffuse(texture: Texture, roughness: real, distribution: Distribution, absorbtionProbability: real)
    | Dielectric(ir: real)
    | DiffuseLight(emit: Texture)

  /** Textures the model can evaluate, and a positive refractive index. */
  predicate ValidMaterial(mat: Material) {
    match mat
    case Metal(texture, _) => ValidTexture(texture)
    case Diffuse(texture, _, _, _) => ValidTexture(texture)
    case Dielectric(ir) => ir > 0.0
    case DiffuseLight(emit) => ValidTexture(emit)
  }

  /** The random values one scatter call consumes: a unit vector and a number in [0, 1). */
  datatype Sample = Sample(unit: Vec3, draw: real)

  predicate ValidSample(s: Sample) {
    0.0 <= s.draw < 1.0
  }

  /** What scatter wrote to its out-parameters and whether it returned true. */
  datatype ScatterOut = ScatterOut(ok: bool, attenuation: Option<Color>, scattered: Option<Ray>)

  type Record = HitRecord<Material>

  /** emitted(u, v, p): black except for a light, which emits its texture. */
  function Emitted(m: MathLib, mat: Material, u: real, v: real, p: Point3): (r: Result<Color>)
    requires ValidMaterial(mat)
    ensures !mat.DiffuseLight? ==> r == Ok(BLACK)
    ensures mat.DiffuseLight? ==> r == Textures.Value(m, mat.emit, u, v, p)
  {
    match mat
    case DiffuseLight(emit) => Textures.Value(m, emit, u, v, p)
    case _ => Ok(Color(0.0, 0.0, 0.0))
  }

  // ---------------------------------------------------------------------------
  // Metal

  /** Metal.scatter's direction: the mirror image of the unit incoming direction, fuzzed. */
  function MetalDirection(m: MathLib, roughness: real, inRay: Ray, normal: Vec3, unit: Vec3): (d: Vec3)
    ensures roughness == 0.0 ==> d == Reflect(Normalized(m, inRay.dir), normal)
  {
    Vectors.Add(Reflect(Normalized(m, inRay.dir), normal), Vectors.Scale(unit, roughness))
  }

  /**
   * Metal.scatter: the ray leaves from the hit point, the attenuation is the
   * texture's colour even when the ray is then declined, and it goes on only
   * when it leaves on the normal's side.
   */
  function MetalScatter(m: MathLib, texture: Texture, roughness: real, inRay: Ray, rec: Record, s: Sample)
    : (r: Result<ScatterOut>)
    requires ValidTexture(texture)
    ensures r.Error? <==> texture.CheckerUV?
    ensures r.Ok? ==> r.value.attenuation == Some(Textures.Value(m, texture, rec.u, rec.v, rec.p).value)
    ensures r.Ok? ==> r.value.scattered.Some? && r.value.scattered.value.orig == rec.p
    ensures r.Ok? ==> (r.value.ok <==> Dot(r.value.scattered.value.dir, rec.normal) > 0.0)
  {
    var dir := MetalDirection(m, roughness, inRay, rec.normal, s.unit);
    var att :- Textures.Value(m, texture, rec.u, rec.v, rec.p);
    Ok(ScatterOut(Dot(dir, rec.normal) > 0.0, Some(att), Some(Ray(rec.p, dir))))
  }

  // ---------------------------------------------------------------------------
  // Diffuse

  /** Diffuse.scatter's direction for either distribution. */
  function DiffuseDirection(distribution: Distribution, roughness: real, normal: Vec3, unit: Vec3): (d: Vec3)
    ensures distribution == Uniform ==> Dot(normal, d) >= 0.0
    ensures var fuzzed := Vectors.Add(normal, Vectors.Scale(unit, roughness));
      distribution == Lambertian ==> d == (if NearEquals(fuzzed, Zero) then normal else fuzzed)
  {
    match distribution
    case Uniform => RandomOnHemisphere(normal, unit)
    case Lambertian =>
      var reflected := Vectors.Add(normal, Vectors.Scale(unit, roughness));
      if NearEquals(reflected, Zero) then normal else reflected
  }

  /**
   * Diffuse.scatter: always goes on from the hit point. An absorbed ray (the
   * draw below absorbtionProbability) is attenuated to black without looking
   * at the texture; otherwise the texture is scaled by 1 - absorbtionProbability.
   */
  function DiffuseScatter(m: MathLib, mat: Material, rec: Record, s: Sample): (r: Result<ScatterOut>)
    requires mat.Diffuse? && ValidTexture(mat.texture)
    ensures s.draw < mat.absorbtionProbability ==> r.Ok? && r.value.attenuation == Some(BLACK)
    ensures !(s.draw < mat.absorbtionProbability) ==> (r.Error? <==> mat.texture.CheckerUV?)
    ensures r.Ok? && !(s.draw < mat.absorbtionProbability) ==>
              r.value.attenuation
              == Some(Colors.Scale(Textures.Value(m, mat.texture, rec.u, rec.v, rec.p).value,
                                   1.0 - mat.absorbtionProbability))
    ensures r.Ok? ==> r.value.ok && r.value.scattered.Some? && r.value.scattered.value.orig == rec.p
  {
    var dir := DiffuseDirection(mat.distribution, mat.roughness, rec.normal, s.unit);
    var att :- if s.draw < mat.absorbtionProbability then Ok(BLACK)
               else var c :- Textures.Value(m, mat.texture, rec.u, rec.v, rec.p);
                    Ok(Colors.Scale(c, 1.0 - mat.absorbtionProbability));
    Ok(ScatterOut(true, Some(att), Some(Ray(rec.p, dir))))
  }

  // ---------------------------------------------------------------------------
  // Dielectric

  /** x^5, as Math.pow(x, 5) for the integer exponent. */
  function Pow5(x: real): real {
    x * x * x * x * x
  }

  /** Schlick's r0 = ((1 - n) / (1 + n))^2. */
  function R0(refIndex: real): real
    requires refIndex != -1.0
  {
    var q := (1.0 - refIndex) / (1.0 + refIndex);
    q * q
  }

  /** Dielectric.reflectance: Schlick's approximation r0 + (1 - r0)(1 - cos)^5. */
  function Reflectance(cosTheta: real, refIndex: real): (r: real)
    requires refIndex != -1.0
    ensures cosTheta == 1.0 ==> r == R0(refIndex)
  {
    R0(refIndex) + (1.0 - R0(refIndex)) * Pow5(1.0 - cosTheta)
  }

  /** The refraction ratio: 1 / ir entering a front face, ir leaving through a back face. */
  function RefractionRatio(ir: real, frontface: bool): (ratio: real)
    requires ir > 0.0
    ensures ratio > 0.0
    ensures frontface ==> ratio * ir == 1.0
    ensures !frontface ==> ratio == ir
  {
    if frontface then RecipSign(ir); 1.0 / ir else ir
  }

  /** cos(theta) = min(-unitDir . n, 1). */
  function CosTheta(unitDir: Vec3, normal: Vec3): (c: real)
    ensures c <= 1.0
    ensures c == Dot(Neg(unitDir), normal) || c == 1.0
  {
    var d := Dot(Neg(unitDir), normal);
    if d < 1.0 then d else 1.0
  }

  /** sin(theta) = sqrt(1 - cos(theta)^2). */
  function SinTheta(m: MathLib, cosTheta: real): real {
    m.sqrt(1.0 - cosTheta * cosTheta)
  }

  /** Snell's law has no solution: ratio sin(theta) > 1. */
  predicate CannotRefract(m: MathLib, ratio: real, cosTheta: real) {
    ratio * SinTheta(m, cosTheta) > 1.0
  }

  /** Whether the dielectric reflects: total internal reflection, or the Schlick draw. */
  predicate Reflects(m: MathLib, ratio: real, cosTheta: real, draw: real)
    requires ratio > 0.0
  {
    CannotRefract(m, ratio, cosTheta) || Reflectance(cosTheta, ratio) > draw
  }

  /**
   * Dielectric.scatter: always goes on, white attenuation, from the hit
   * point; reflects where it cannot refract or where Schlick's reflectance
   * beats the draw, and refracts otherwise.
   */
  function DielectricScatter(m: MathLib, ir: real, inRay: Ray, rec: Record, s: Sample): (r: ScatterOut)
    requires ir > 0.0
    ensures r.ok && r.attenuation == Some(WHITE)
    ensures r.scattered.Some? && r.scattered.value.orig == rec.p
    ensures var unitDir := Normalized(m, inRay.dir);
      var ratio := RefractionRatio(ir, rec.frontface);
      var cos := CosTheta(unitDir, rec.normal);
      && (CannotRefract(m, ratio, cos) ==> r.scattered.value.dir == Reflect(unitDir, rec.normal))
      && (Reflects(m, ratio, cos, s.draw) ==> r.scattered.value.dir == Reflect(unitDir, rec.normal))
      && (!Reflects(m, ratio, cos, s.draw) ==> r.scattered.value.dir == Refract(m, unitDir, rec.normal, ratio))
  {
    var ratio := RefractionRatio(ir, rec.frontface);
    var unitDir := Normalized(m, inRay.dir);
    var cos := CosTheta(unitDir, rec.normal);
    var dir := if Reflects(m, ratio, cos, s.draw) then Reflect(unitDir, rec.normal)
               else Refract(m, unitDir, rec.normal, ratio);
    ScatterOut(true, Some(WHITE), Some(Ray(rec.p, dir)))
  }

  // ---------------------------------------------------------------------------
  // Dispatch

  /** material.scatter(inRay, rec, attenuation, scattered). */
  function Scatter(m: MathLib, mat: Material, inRay: Ray, rec: Record, s: Sample): (r: Result<ScatterOut>)
    requires ValidMaterial(mat)
    ensures mat.DiffuseLight? ==> r == Ok(ScatterOut(false, None, None))
    ensures r.Ok? && r.value.ok ==> r.value.attenuation.Some? && r.value.scattered.Some?
    ensures r.Ok? && r.value.scattered.Some? ==> r.value.scattered.value.orig == rec.p
    ensures (mat.Diffuse? || mat.Dielectric?) && r.Ok? ==> r.value.ok
  {
    match mat
    case Metal(texture, roughness) => MetalScatter(m, texture, roughness, inRay, rec, s)
    case Diffuse(_, _, _, _) => DiffuseScatter(m, mat, rec, s)
    case Dielectric(ir) => Ok(DielectricScatter(m, ir, inRay, rec, s))
    case DiffuseLight(_) => Ok(ScatterOut(false, None, None))
  }

  // ---------------------------------------------------------------------------
  // Properties

  /** A product of two values in [0, 1] is in [0, 1]. */
  lemma UnitProduct(a: real, b: real)
    requires 0.0 <= a <= 1.0 && 0.0 <= b <= 1.0
    ensures 0.0 <= a * b <= 1.0
  {
    ProductSign(a, b);
    if b > 0.0 {
      ScaledUnit(b, a);
    }
  }

  /** x^5 stays in [0, 1] for x in [0, 1]. */
  lemma Pow5Unit(x: real)
    requires 0.0 <= x <= 1.0
    ensures 0.0 <= Pow5(x) <= 1.0
  {
    UnitProduct(x, x);
    UnitProduct(x * x, x);
    UnitProduct(x * x * x, x);
    UnitProduct(x * x * x * x, x);
  }

  /** For a positive index the Schlick ratio (1 - n) / (1 + n) lies strictly inside (-1, 1). */
  lemma SchlickRatio(n: real)
    requires n > 0.0
    ensures -1.0 < (1.0 - n) / (1.0 + n) < 1.0
  {
    var q := (1.0 - n) / (1.0 + n);
    assert q * (1.0 + n) == 1.0 - n;
    DivideThrough(1.0 - n, 1.0 + n, 1.0);
    DivideThrough(1.0 - n, 1.0 + n, -1.0);
    assert (1.0 - n) * (1.0 / (1.0 + n)) == q;
  }

  /** Squares of values in (-1, 1) lie in [0, 1). */
  lemma SquareBelowOne(q: real)
    requires -1.0 < q < 1.0
    ensures 0.0 <= q * q < 1.0
  {
    var a := Abs(q);
    assert q * q == a * a;
    ProductSign(a, a);
    if a > 0.0 {
      FractionBelow(a, a);
    }
  }

  /** For a positive index, r0 lies in [0, 1). */
  lemma R0Range(n: real)
    requires n > 0.0
    ensures 0.0 <= R0(n) < 1.0
  {
    SchlickRatio(n);
    SquareBelowOne((1.0 - n) / (1.0 + n));
  }

  /** Scaling by a factor in [0, 1] keeps a positive value between 0 and itself. */
  lemma ScaledUnit(k: real, x: real)
    requires k > 0.0 && 0.0 <= x <= 1.0
    ensures 0.0 <= k * x <= k
  {
    assert k - k * x == k * (1.0 - x);
    ProductSign(k, 1.0 - x);
  }

  /** A blend r0 + (1 - r0) x with x in [0, 1] lies between r0 and 1. */
  lemma BlendRange(r0: real, x: real)
    requires 0.0 <= r0 < 1.0 && 0.0 <= x <= 1.0
    ensures r0 <= r0 + (1.0 - r0) * x
    ensures r0 + (1.0 - r0) * x <= 1.0
  {
    ProductSign(1.0 - r0, x);
    ProductSign(1.0 - r0, 1.0 - x);
    assert 1.0 - (r0 + (1.0 - r0) * x) == (1.0 - r0) * (1.0 - x);
  }

  /** reflectance(cos, n) lies in [r0, 1] for cos in [0, 1] and a positive index, and is r0 at cos = 1. */
  lemma ReflectanceRange(cosTheta: real, n: real)
    requires 0.0 <= cosTheta <= 1.0 && n > 0.0
    ensures 0.0 <= R0(n) < 1.0
    ensures R0(n) <= Reflectance(cosTheta, n) <= 1.0
    ensures Reflectance(1.0, n) == R0(n)
  {
    R0Range(n);
    Pow5Unit(1.0 - cosTheta);
    BlendRange(R0(n), Pow5(1.0 - cosTheta));
  }

  /** Only a light emits, and only a light never scatters. */
  lemma LightOnlyEmitter(m: MathLib, mat: Material, inRay: Ray, rec: Record, s: Sample,
                         u: real, v: real, p: Point3)
    requires ValidMaterial(mat)
    ensures !mat.DiffuseLight? ==> Emitted(m, mat, u, v, p) == Ok(BLACK)
    ensures mat.DiffuseLight? <==> Scatter(m, mat, inRay, rec, s) == Ok(ScatterOut(false, None, None))
  {
    if mat.Metal? && Scatter(m, mat, inRay, rec, s) == Ok(ScatterOut(false, None, None)) {
      assert false;
    }
  }

  /** A perfectly smooth metal mirrors the unit incoming direction about the normal. */
  lemma SmoothMetalMirrors(m: MathLib, texture: Texture, inRay: Ray, rec: Record, s: Sample)
    requires ValidTexture(texture) && !texture.CheckerUV?
    ensures var r := MetalScatter(m, texture, 0.0, inRay, rec, s);
      r.Ok? && r.value.scattered == Some(Ray(rec.p, Reflect(Normalized(m, inRay.dir), rec.normal)))
  {}

  /**
   * Against a unit normal, a smooth metal scatters exactly when the unit
   * incoming direction runs against the normal.
   */
  lemma SmoothMetalScattersAgainstNormal(m: MathLib, texture: Texture, inRay: Ray, rec: Record, s: Sample)
    requires ValidTexture(texture) && !texture.CheckerUV?
    requires Dot(rec.normal, rec.normal) == 1.0
    ensures MetalScatter(m, texture, 0.0, inRay, rec, s).value.ok
            <==> Dot(Normalized(m, inRay.dir), rec.normal) < 0.0
  {
    ReflectNegatesNormalPart(Normalized(m, inRay.dir), rec.normal);
  }

  /** The uniform distribution sends the ray into the normal's hemisphere. */
  lemma UniformDiffuseHemisphere(m: MathLib, texture: Texture, roughness: real, p: real,
                                 rec: Record, s: Sample)
    requires ValidTexture(texture)
    ensures var r := DiffuseScatter(m, Diffuse(texture, roughness, Uniform, p), rec, s);
      r.Ok? ==> Dot(rec.normal, r.value.scattered.value.dir) >= 0.0
  {}

  /** An absorbed diffuse ray is still scattered, with black attenuation, even on a throwing texture. */
  lemma AbsorbedDiffuse(m: MathLib, mat: Material, rec: Record, s: Sample)
    requires mat.Diffuse? && ValidTexture(mat.texture)
    requires s.draw < mat.absorbtionProbability
    ensures var r := DiffuseScatter(m, mat, rec, s);
      r.Ok? && r.value.ok && r.value.attenuation == Some(BLACK)
  {}

  /**
   * Entering a front face the ratio is 1 / ir and leaving a back face it is
   * ir; a ratio times sin(theta) above one always reflects.
   */
  lemma DielectricTotalReflection(m: MathLib, ir: real, inRay: Ray, rec: Record, s: Sample)
    requires ir > 0.0
    requires var cos := CosTheta(Normalized(m, inRay.dir), rec.normal);
      CannotRefract(m, RefractionRatio(ir, rec.frontface), cos)
    ensures DielectricScatter(m, ir, inRay, rec, s).scattered.value.dir
            == Reflect(Normalized(m, inRay.dir), rec.normal)
  {}

  /** Below total reflection, the dielectric refracts exactly when the draw reaches the reflectance. */
  lemma DielectricRefractsOnDraw(m: MathLib, ir: real, inRay: Ray, rec: Record, s: Sample)
    requires ir > 0.0
    requires var unitDir := Normalized(m, inRay.dir);
      var ratio := RefractionRatio(ir, rec.frontface);
      var cos := CosTheta(unitDir, rec.normal);
      && !CannotRefract(m, ratio, cos)
      && s.draw >= Reflectance(cos, ratio)
    ensures var unitDir := Normalized(m, inRay.dir);
      DielectricScatter(m, ir, inRay, rec, s).scattered.value.dir
      == Refract(m, unitDir, rec.normal, RefractionRatio(ir, rec.frontface))
  {}
}
