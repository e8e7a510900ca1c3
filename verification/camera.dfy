/**
 * The camera of demo/js/camera.js: its viewport, derived from the vertical
 * field of view and the aspect ratio, its orthonormal frame, set by lookAt,
 * and rayColor, the depth-bounded path-tracing recursion. The random values
 * a material consumes at each bounce come from `sample`, indexed by the
 * remaining depth. Each depth is visited at most once along a path.
 */
module Cameras {
  import opened Results
  import opened Numeric
  import opened ExtReals
  import opened Vectors
  import opened Colors
  import opened Rays
  import opened Hits
  import opened Materials
  import Scenes
  import Spheres
  import Quads
  import Boxes
  import QuadExamples

  datatype Camera = Camera(
    background: Color,
    lookfrom: Point3,
    lookdir: Vec3,
    vup: Vec3,
    u: Vec3,
    v: Vec3,
    w: Vec3,
    moveSpeed: real,
    vfov: real,
    aspectRatio: real,
    focalLength: real,
    viewportHeight: real,
    viewportWidth: real)

  /** The vertical field of view used when the constructor gets none, in degrees. */
  const DefaultVfov: real := 90.0

  /** The viewport matches the field of view, the focal length and the aspect ratio. */
  predicate ViewportFits(m: MathLib, c: Camera) {
    && c.viewportHeight == 2.0 * m.tan(c.vfov * PI / 360.0) * c.focalLength
    && c.viewportWidth == c.viewportHeight * c.aspectRatio
  }

  /** u, v and w are pairwise orthogonal unit vectors, and u x v = w. */
  predicate RightHandedFrame(c: Camera) {
    && Dot(c.u, c.u) == 1.0 && Dot(c.v, c.v) == 1.0 && Dot(c.w, c.w) == 1.0
    && Dot(c.u, c.v) == 0.0 && Dot(c.v, c.w) == 0.0 && Dot(c.u, c.w) == 0.0
    && Cross(c.u, c.v) == c.w
  }

  /**
   * The viewport height for a vertical field of view of vfov degrees at
   * distance focalLength: the line of sight tilted by half the field of
   * view, slope tan(theta / 2), meets the viewport plane at its top edge.
   * The height is positive exactly when the slope and the distance have
   * the same sign, and vanishes exactly when either does.
   */
  function ViewportHeight(m: MathLib, vfov: real, focalLength: real): (h: real)
    ensures var t := m.tan(DegreesToRadians(vfov) / 2.0);
      h > 0.0 <==> (t > 0.0 && focalLength > 0.0) || (t < 0.0 && focalLength < 0.0)
    ensures var t := m.tan(DegreesToRadians(vfov) / 2.0);
      h == 0.0 <==> t == 0.0 || focalLength == 0.0
  {
    var t := m.tan(DegreesToRadians(vfov) / 2.0);
    HeightSign(t, focalLength);
    2.0 * t * focalLength
  }

  /** Sign rule for twice a slope times a distance. */
  lemma HeightSign(t: real, d: real)
    ensures 2.0 * t * d > 0.0 <==> (t > 0.0 && d > 0.0) || (t < 0.0 && d < 0.0)
    ensures 2.0 * t * d == 0.0 <==> t == 0.0 || d == 0.0
  {
    if d != 0.0 { Numeric.SignOfProduct(2.0 * t, d); }
  }

  /** The viewport height is linear in the focal length. */
  lemma ViewportHeightScales(m: MathLib, vfov: real, focalLength: real, k: real)
    ensures ViewportHeight(m, vfov, k * focalLength) == k * ViewportHeight(m, vfov, focalLength)
  {
    var t := m.tan(DegreesToRadians(vfov) / 2.0);
    assert 2.0 * t * (k * focalLength) == k * (2.0 * t * focalLength);
  }

  /**
   * new Camera(vfov, aspectRatio, focalLength): at the origin, looking down
   * -z with y up, against a sky-blue background.
   */
  function NewCamera(m: MathLib, vfov: real, aspectRatio: real, focalLength: real): (c: Camera)
    ensures ViewportFits(m, c) && RightHandedFrame(c)
    ensures c.vfov == vfov && c.aspectRatio == aspectRatio && c.focalLength == focalLength
    ensures c.lookdir == Neg(c.w) && c.vup == c.v && c.lookfrom == Zero
    ensures c.background == SKY_BLUE
  {
    var h := ViewportHeight(m, vfov, focalLength);
    Camera(SKY_BLUE, Vec3(0.0, 0.0, 0.0), Vec3(0.0, 0.0, -1.0), Vec3(0.0, 1.0, 0.0),
           Vec3(1.0, 0.0, 0.0), Vec3(0.0, 1.0, 0.0), Vec3(0.0, 0.0, 1.0),
           5.0, vfov, aspectRatio, focalLength, h, h * aspectRatio)
  }

  /** setViewPort: recompute the viewport from the current settings; nothing else changes. */
  function SetViewPort(m: MathLib, c: Camera): (r: Camera)
    ensures ViewportFits(m, r)
    ensures r.(viewportHeight := c.viewportHeight, viewportWidth := c.viewportWidth) == c
  {
    var h := ViewportHeight(m, c.vfov, c.focalLength);
    c.(viewportHeight := h, viewportWidth := h * c.aspectRatio)
  }

  /** updateFOV: a new field of view, and the viewport that goes with it. */
  function UpdateFOV(m: MathLib, c: Camera, newValue: real): (r: Camera)
    ensures ViewportFits(m, r) && r.vfov == newValue
    ensures r.(vfov := c.vfov, viewportHeight := c.viewportHeight, viewportWidth := c.viewportWidth) == c
  {
    SetViewPort(m, c.(vfov := newValue))
  }

  /** updateAspectRatio: a new aspect ratio, and the viewport that goes with it. */
  function UpdateAspectRatio(m: MathLib, c: Camera, newValue: real): (r: Camera)
    ensures ViewportFits(m, r) && r.aspectRatio == newValue
    ensures r.(aspectRatio := c.aspectRatio, viewportHeight := c.viewportHeight, viewportWidth := c.viewportWidth) == c
  {
    SetViewPort(m, c.(aspectRatio := newValue))
  }

  /** A camera whose viewport already fits is left as it is by setViewPort. */
  lemma SetViewPortFixesFitting(m: MathLib, c: Camera)
    requires ViewportFits(m, c)
    ensures SetViewPort(m, c) == c
  {}

  /** Putting the old field of view back restores the camera exactly. */
  lemma UpdateFOVRoundTrip(m: MathLib, c: Camera, newValue: real)
    requires ViewportFits(m, c)
    ensures UpdateFOV(m, UpdateFOV(m, c, newValue), c.vfov) == c
  {}

  /** The two updates commute. */
  lemma UpdatesCommute(m: MathLib, c: Camera, vfov: real, aspectRatio: real)
    ensures UpdateAspectRatio(m, UpdateFOV(m, c, vfov), aspectRatio)
            == UpdateFOV(m, UpdateAspectRatio(m, c, aspectRatio), vfov)
  {}

  // ---------------------------------------------------------------------------
  // lookAt

  /**
   * lookAt(pos): w points from the target back to the eye, u is vup x w and
   * v is w x u, both normalized; the camera then looks along -w. The three
   * axes are pairwise orthogonal whatever the normalization does.
   */
  function LookAt(m: MathLib, c: Camera, pos: Point3): (r: Camera)
    ensures Dot(r.u, r.w) == 0.0 && Dot(r.v, r.w) == 0.0 && Dot(r.v, r.u) == 0.0
    ensures r.lookdir == Vectors.Scale(r.w, -1.0)
    ensures r.(u := c.u, v := c.v, w := c.w, lookdir := c.lookdir) == c
  {
    var w := Normalized(m, Vectors.Sub(c.lookfrom, pos));
    var u := Normalized(m, Cross(c.vup, w));
    CrossOrthogonal(c.vup, w);
    NormalizedOrthogonal(m, Cross(c.vup, w), w);
    CrossOrthogonal(w, u);
    c.(w := w, u := u, v := Cross(w, u), lookdir := Vectors.Scale(w, -1.0))
  }

  /** Normalizing a vector orthogonal to `b` keeps it orthogonal to `b`. */
  lemma NormalizedOrthogonal(m: MathLib, a: Vec3, b: Vec3)
    requires Dot(a, b) == 0.0
    ensures Dot(Normalized(m, a), b) == 0.0
  {
    var len := Length(m, a);
    if len != 0.0 {
      DotLinear(a, b, b, 1.0 / len);
    }
  }

  /** |a x b|^2 = |a|^2 |b|^2 - (a . b)^2. */
  lemma CrossLength(a: Vec3, b: Vec3)
    ensures LengthSquared(Cross(a, b)) == LengthSquared(a) * LengthSquared(b) - Dot(a, b) * Dot(a, b)
  {}

  /**
   * When the eye is not at the target, vup is not parallel to the view
   * direction and the square roots are exact, lookAt leaves a right-handed
   * orthonormal frame.
   */
  lemma LookAtOrthonormal(m: MathLib, c: Camera, pos: Point3)
    requires var d := Vectors.Sub(c.lookfrom, pos);
      IsSqrtOf(m.sqrt(LengthSquared(d)), LengthSquared(d)) && m.sqrt(LengthSquared(d)) != 0.0
    requires var x := Cross(c.vup, Normalized(m, Vectors.Sub(c.lookfrom, pos)));
      IsSqrtOf(m.sqrt(LengthSquared(x)), LengthSquared(x)) && m.sqrt(LengthSquared(x)) != 0.0
    ensures RightHandedFrame(LookAt(m, c, pos))
  {
    var r := LookAt(m, c, pos);
    NormalizedIsUnit(m, Vectors.Sub(c.lookfrom, pos));
    NormalizedIsUnit(m, Cross(c.vup, r.w));
    CrossLength(r.w, r.u);
    DotLinear(r.u, r.v, r.u, 1.0);
    CrossOfFrame(r.u, r.w);
  }

  /** For orthogonal unit vectors u and w, u x (w x u) = w. */
  lemma CrossOfFrame(u: Vec3, w: Vec3)
    requires Dot(u, u) == 1.0 && Dot(w, w) == 1.0 && Dot(u, w) == 0.0
    ensures Cross(u, Cross(w, u)) == w
  {
    BacCab(u, w, 1.0, 0.0);
  }

  /** The BAC-CAB rule: u x (w x u) = w (u . u) - u (u . w). */
  lemma BacCab(u: Vec3, w: Vec3, uu: real, uw: real)
    requires uu == Dot(u, u) && uw == Dot(u, w)
    ensures Cross(u, Cross(w, u)) == Vec3(w.x * uu - u.x * uw, w.y * uu - u.y * uw, w.z * uu - u.z * uw)
  {
    BacCabComponent(u.x, u.y, u.z, w.x, w.y, w.z, uu, uw);
    BacCabComponent(u.y, u.z, u.x, w.y, w.z, w.x, uu, uw);
    BacCabComponent(u.z, u.x, u.y, w.z, w.x, w.y, uu, uw);
  }

  /** The first component of the BAC-CAB rule, for u = (a, b, c) and w = (p, q, r). */
  lemma BacCabComponent(a: real, b: real, c: real, p: real, q: real, r: real, uu: real, uw: real)
    requires uu == a * a + b * b + c * c && uw == a * p + b * q + c * r
    ensures b * (p * b - q * a) - c * (r * a - p * c) == p * uu - a * uw
  {
    assert b * (p * b - q * a) - c * (r * a - p * c) == p * (a * a + b * b + c * c) - a * (a * p + b * q + c * r);
  }

  // ---------------------------------------------------------------------------
  // rayColor

  /** The near end of the window rayColor searches, 1e-8. */
  const HitEpsilon: real := 0.00000001

  /**
   * What a scene's materials may be asked to be: evaluable by the model (a
   * positive refractive index, well-formed textures), or not a light.
   */
  datatype Requirement = Evaluable | Unlit

  predicate Meets(mat: Material, req: Requirement) {
    match req
    case Evaluable => ValidMaterial(mat)
    case Unlit => !mat.DiffuseLight?
  }

  /** Every object of the scene carries a material meeting `P`. */
  predicate AllMaterials(h: Scenes.Hittable, P: Requirement)
    decreases h
  {
    match h
    case SphereObj(s, _) => Meets(s.mat, P)
    case QuadObj(q, _) => Meets(q.mat, P)
    case List(objects, _) => forall i | 0 <= i < |objects| :: AllMaterials(objects[i], P)
    case Node(left, right) => AllMaterials(left, P) && AllMaterials(right, P)
  }

  /** The record of a hit carries the material of an object of the scene. */
  lemma {:induction false} HitMaterial(m: MathLib, h: Scenes.Hittable, r: Ray, tmin: real, tmax: Bound,
                                       P: Requirement)
    requires AllMaterials(h, P)
    ensures var res := Scenes.Hit(m, h, r, tmin, tmax); res.Some? ==> Meets(res.value.material, P)
    decreases h, 1
  {
    match h
    case SphereObj(s, _) =>
    case QuadObj(q, _) =>
    case List(_, _) => ListFromMaterial(m, h, 0, r, tmin, tmax, None, P);
    case Node(left, right) =>
      HitMaterial(m, left, r, tmin, tmax, P);
      var hitLeft := Scenes.Hit(m, left, r, tmin, tmax);
      HitMaterial(m, right, r, tmin, if hitLeft.Some? then Fin(hitLeft.value.t) else tmax, P);
  }

  /** The list search keeps a record whose material is the accumulator's or one of its objects'. */
  lemma {:induction false} ListFromMaterial(m: MathLib, list: Scenes.Hittable, i: nat, r: Ray, tmin: real,
                                            closest: Bound, acc: Option<Record>, P: Requirement)
    requires list.List? && i <= |list.objects| && AllMaterials(list, P)
    requires acc.Some? ==> Meets(acc.value.material, P)
    ensures var res := Scenes.ListFrom(m, list, i, r, tmin, closest, acc); res.Some? ==> Meets(res.value.material, P)
    decreases list, 0, |list.objects| - i
  {
    if i < |list.objects| {
      HitMaterial(m, list.objects[i], r, tmin, closest, P);
      var found := Scenes.Hit(m, list.objects[i], r, tmin, closest);
      if found.Some? {
        ListFromMaterial(m, list, i + 1, r, tmin, Fin(found.value.t), found, P);
      } else {
        ListFromMaterial(m, list, i + 1, r, tmin, closest, acc, P);
      }
    }
  }

  /**
   * scene.hit(ray, 1e-8, Infinity, rec) as rayColor sees it: whatever object
   * it is handed, the nearest hit it reports, if any.
   */
  type Search = Ray -> Option<Record>

  /** Every hit the search reports carries a material meeting `P`. */
  ghost predicate Reports(search: Search, P: Requirement) {
    forall r: Ray :: search(r).Some? ==> Meets(search(r).value.material, P)
  }

  /** A scene object's hit over (1e-8, infinity). */
  function SceneSearch(m: MathLib, scene: Scenes.Hittable): (search: Search)
    ensures forall r: Ray :: search(r) == Scenes.Hit(m, scene, r, HitEpsilon, PosInf)
    ensures forall r: Ray :: search(r).Some? ==> HitEpsilon < search(r).value.t
    ensures forall P: Requirement :: AllMaterials(scene, P) ==> Reports(search, P)
  {
    var search: Search := r => Scenes.Hit(m, scene, r, HitEpsilon, PosInf);
    SearchReports(m, scene, search);
    search
  }

  /** A search over a scene whose objects all meet a requirement reports only hits that meet it. */
  lemma SearchReports(m: MathLib, scene: Scenes.Hittable, search: Search)
    requires forall r: Ray :: search(r) == Scenes.Hit(m, scene, r, HitEpsilon, PosInf)
    ensures forall P: Requirement :: AllMaterials(scene, P) ==> Reports(search, P)
  {
    forall P: Requirement | AllMaterials(scene, P)
      ensures Reports(search, P)
    {
      forall r: Ray {
        HitMaterial(m, scene, r, HitEpsilon, PosInf, P);
      }
    }
  }

  /** A scene whose objects all meet `P` reports only hits that meet `P`. */
  lemma SceneReports(m: MathLib, scene: Scenes.Hittable, P: Requirement)
    requires AllMaterials(scene, P)
    ensures Reports(SceneSearch(m, scene), P)
  {
    forall r: Ray {
      HitMaterial(m, scene, r, HitEpsilon, PosInf, P);
    }
  }

  /**
   * What one hit does to the path: the light its material emits, the
   * colour scatter copied into the attenuation (None if it wrote nothing),
   * and the scattered ray when scatter returned true.
   */
  datatype Interaction = Interaction(emitted: Color, written: Option<Color>, next: Option<Ray>)

  /**
   * material.emitted(u, v, p) followed by material.scatter(ray, rec,
   * attenuation, scattered); either throws when the texture does.
   */
  function Interact(m: MathLib, rec: Record, ray: Ray, s: Sample): (r: Result<Interaction>)
    requires ValidMaterial(rec.material)
    ensures r.Ok? && r.value.next.Some? ==> r.value.written.Some?
    ensures r.Ok? && r.value.next.Some? ==> r.value.next.value.orig == rec.p
    ensures r.Ok? && !rec.material.DiffuseLight? ==> r.value.emitted == BLACK
    ensures rec.material.DiffuseLight? ==> r.Ok? == Textures.Value(m, rec.material.emit, rec.u, rec.v, rec.p).Ok?
    ensures rec.material.DiffuseLight? && r.Ok? ==>
              && r.value.next.None? && r.value.written.None?
              && r.value.emitted == Textures.Value(m, rec.material.emit, rec.u, rec.v, rec.p).value
    ensures rec.material.Dielectric? ==> r.Ok? && r.value.next.Some? && r.value.written == Some(WHITE)
  {
    var emitted :- Emitted(m, rec.material, rec.u, rec.v, rec.p);
    var out :- Scatter(m, rec.material, ray, rec, s);
    Ok(Interaction(emitted, out.attenuation, if out.ok then out.scattered else None))
  }

  /**
   * rayColor(ray, scene, depth) with the attenuation a fresh value: black
   * below depth 0; the background on a miss; the emitted light when the
   * material declines to scatter; otherwise the emitted light plus the
   * attenuation times the colour of the scattered ray one level deeper. A
   * texture that throws makes the whole call throw.
   */
  function RayColor(m: MathLib, cam: Camera, search: Search, ray: Ray, depth: int,
                    sample: int -> Sample): (res: Result<Color>)
    requires Reports(search, Evaluable)
    decreases if depth < 0 then 0 else depth + 1
  {
    if depth < 0 then Ok(BLACK)
    else
      match search(ray)
      case None => Ok(cam.background)
      case Some(rec) =>
        var hit :- Interact(m, rec, ray, sample(depth));
        match hit.next
        case None => Ok(hit.emitted)
        case Some(next) =>
          var fromScatter :- RayColor(m, cam, search, next, depth - 1, sample);
          Ok(Colors.Add(hit.emitted, Colors.Mul(hit.written.value, fromScatter)))
  }

  /**
   * The number of times rayColor scatters before it returns: the length of
   * the path it follows.
   */
  function Bounces(m: MathLib, cam: Camera, search: Search, ray: Ray, depth: int,
                   sample: int -> Sample): (n: nat)
    requires Reports(search, Evaluable)
    ensures n <= if depth < 0 then 0 else depth + 1
    decreases if depth < 0 then 0 else depth + 1
  {
    if depth < 0 then 0
    else
      match search(ray)
      case None => 0
      case Some(rec) =>
        match Interact(m, rec, ray, sample(depth))
        case Error(_) => 0
        case Ok(hit) =>
          match hit.next
          case None => 0
          case Some(next) => 1 + Bounces(m, cam, search, next, depth - 1, sample)
  }

  /** Below depth 0 the result is black without a look at the scene; a miss shows the background. */
  lemma RayColorEnds(m: MathLib, cam: Camera, search: Search, ray: Ray, depth: int, sample: int -> Sample)
    requires Reports(search, Evaluable)
    ensures depth < 0 ==> RayColor(m, cam, search, ray, depth, sample) == Ok(BLACK)
    ensures depth >= 0 && search(ray).None? ==> RayColor(m, cam, search, ray, depth, sample) == Ok(cam.background)
  {}

  /**
   * A scene without lights seen against a black background is black at
   * every depth, whatever the materials scatter.
   */
  lemma {:induction false} DarkSceneIsBlack(m: MathLib, cam: Camera, search: Search, ray: Ray, depth: int,
                                            sample: int -> Sample)
    requires Reports(search, Evaluable) && Reports(search, Unlit)
    requires cam.background == BLACK
    ensures var res := RayColor(m, cam, search, ray, depth, sample); res.Ok? ==> res.value == BLACK
    decreases if depth < 0 then 0 else depth + 1
  {
    if depth >= 0 && search(ray).Some? {
      var rec := search(ray).value;
      var hit := Interact(m, rec, ray, sample(depth));
      if hit.Ok? && hit.value.next.Some? {
        DarkSceneIsBlack(m, cam, search, hit.value.next.value, depth - 1, sample);
      }
      DarkStep(m, cam, search, ray, depth, sample);
    }
  }

  /** One bounce of DarkSceneIsBlack: an unlit hit adds nothing, and black below stays black. */
  lemma DarkStep(m: MathLib, cam: Camera, search: Search, ray: Ray, depth: int, sample: int -> Sample)
    requires Reports(search, Evaluable) && Reports(search, Unlit)
    requires depth >= 0 && search(ray).Some?
    requires var hit := Interact(m, search(ray).value, ray, sample(depth));
      hit.Ok? && hit.value.next.Some? ==>
        var below := RayColor(m, cam, search, hit.value.next.value, depth - 1, sample);
        below.Ok? ==> below.value == BLACK
    ensures var res := RayColor(m, cam, search, ray, depth, sample); res.Ok? ==> res.value == BLACK
  {
    var rec := search(ray).value;
    assert Meets(rec.material, Unlit);
    var hit := Interact(m, rec, ray, sample(depth));
    if hit.Ok? && hit.value.next.Some? {
      var below := RayColor(m, cam, search, hit.value.next.value, depth - 1, sample);
      if below.Ok? {
        MulLaws(hit.value.written.value, below.value);
      }
    }
  }

  /**
   * A light seen directly contributes its emission and nothing more: it
   * never scatters, so the depth does not matter.
   */
  lemma SeenLightEmits(m: MathLib, cam: Camera, search: Search, ray: Ray, depth: int, sample: int -> Sample)
    requires Reports(search, Evaluable)
    requires depth >= 0
    requires search(ray).Some? && search(ray).value.material.DiffuseLight?
    ensures var rec := search(ray).value;
      RayColor(m, cam, search, ray, depth, sample) == Textures.Value(m, rec.material.emit, rec.u, rec.v, rec.p)
    ensures RayColor(m, cam, search, ray, depth, sample) == RayColor(m, cam, search, ray, 0, sample)
  {}

  // ---------------------------------------------------------------------------
  // rayColor as written

  /**
   * What rayColor returns in the source: either the shared Color3.BLACK
   * object itself, whose channels a later write can still change, or a
   * colour nothing else writes to.
   */
  datatype Returned = SharedBlack | Fresh(color: Color)

  /** The colour a reader sees when it reads the returned object while BLACK holds `black`. */
  function Read(ret: Returned, black: Color): (c: Color)
    ensures ret.Fresh? ==> c == ret.color
  {
    match ret
    case SharedBlack => black
    case Fresh(color) => color
  }

  /**
   * The value Color3.BLACK holds after scatter wrote to the attenuation,
   * which is BLACK itself: Metal and Dielectric copy their colour in, an
   * absorbing Diffuse copies BLACK onto itself, and a light writes nothing.
   */
  function AliasedAttenuation(mat: Material, s: Sample, written: Option<Color>, black: Color): (after: Color)
    ensures written.None? ==> after == black
    ensures mat.Dielectric? && written.Some? ==> after == written.value
  {
    if mat.Diffuse? && s.draw < mat.absorbtionProbability then black
    else if written.Some? then written.value
    else black
  }

  /**
   * rayColor as the source runs it, with `black` the current channels of
   * Color3.BLACK: the placeholder attenuation is BLACK itself, each scatter
   * overwrites it, and `attenuation.mul(...)` reads it only after the
   * recursive call has overwritten it again. Returns the colour returned and
   * what BLACK holds afterwards.
   */
  function RayColorAsWritten(m: MathLib, cam: Camera, search: Search, ray: Ray, depth: int,
                             sample: int -> Sample, black: Color): (res: Result<(Returned, Color)>)
    requires Reports(search, Evaluable)
    decreases if depth < 0 then 0 else depth + 1
  {
    if depth < 0 then Ok((SharedBlack, black))
    else
      match search(ray)
      case None => Ok((Fresh(cam.background), black))
      case Some(rec) =>
        var hit :- Interact(m, rec, ray, sample(depth));
        var black1 := AliasedAttenuation(rec.material, sample(depth), hit.written, black);
        match hit.next
        case None => Ok((Fresh(hit.emitted), black1))
        case Some(next) =>
          var deeper :- RayColorAsWritten(m, cam, search, next, depth - 1, sample, black1);
          var black2 := deeper.1;
          Ok((Fresh(Colors.Add(hit.emitted, Colors.Mul(black2, Read(deeper.0, black2)))), black2))
  }

  /** Without a scatter the two versions agree, and BLACK keeps what it held. */
  lemma AsWrittenAgreesWithoutScatter(m: MathLib, cam: Camera, search: Search, ray: Ray, depth: int,
                                      sample: int -> Sample)
    requires Reports(search, Evaluable)
    requires depth < 0 || search(ray).None?
    ensures var aw := RayColorAsWritten(m, cam, search, ray, depth, sample, BLACK);
      aw.Ok? && Read(aw.value.0, aw.value.1) == RayColor(m, cam, search, ray, depth, sample).value
      && aw.value.1 == BLACK
  {}

  /** A dielectric seen at depth 0 stains BLACK white, and the as-written colour turns white. */
  lemma {:induction false} DielectricAtLastBounce(m: MathLib, cam: Camera, search: Search, ray: Ray,
                                                  sample: int -> Sample)
    requires Reports(search, Evaluable)
    requires search(ray).Some? && search(ray).value.material.Dielectric?
    ensures RayColor(m, cam, search, ray, 0, sample) == Ok(BLACK)
    ensures RayColorAsWritten(m, cam, search, ray, 0, sample, BLACK) == Ok((Fresh(WHITE), WHITE))
  {
    var rec := search(ray).value;
    var hit := Interact(m, rec, ray, sample(0)).value;
    var next := hit.next.value;
    assert RayColor(m, cam, search, next, -1, sample) == Ok(BLACK);
    assert RayColorAsWritten(m, cam, search, next, -1, sample, WHITE) == Ok((SharedBlack, WHITE));
  }

  /** The unit square of the z = 0 plane, made of glass, caches Q = 0, u = x, v = y, normal and w = z, D = 0. */
  lemma GlassSquareFields(m: MathLib)
    requires m.sqrt(1.0) == 1.0
    ensures var q := QuadExamples.UnitSquare(m, Dielectric(1.5));
      && q.q == Zero && q.u == Vec3(1.0, 0.0, 0.0) && q.v == Vec3(0.0, 1.0, 0.0)
      && q.normal == Vec3(0.0, 0.0, 1.0) && q.d == 0.0 && q.w == Vec3(0.0, 0.0, 1.0)
      && q.mat == Dielectric(1.5)
  {
    var q := QuadExamples.UnitSquare(m, Dielectric(1.5));
    QuadExamples.UnitSquareNormalField(m, Dielectric(1.5));
    QuadExamples.UnitSquareWField(m, Dielectric(1.5));
    assert q.d == Dot(Vec3(0.0, 0.0, 1.0), Zero) == 0.0;
  }

  /** The ray straight down onto the middle of a quad with the unit square's fields meets it at t = 1. */
  lemma UnitSquareHitAtOne(q: Quads.Quad)
    requires q.q == Zero && q.u == Vec3(1.0, 0.0, 0.0) && q.v == Vec3(0.0, 1.0, 0.0)
    requires q.normal == Vec3(0.0, 0.0, 1.0) && q.d == 0.0 && q.w == Vec3(0.0, 0.0, 1.0)
    ensures var hit := Quads.Hit(q, Ray(Vec3(0.5, 0.5, 1.0), Vec3(0.0, 0.0, -1.0)), HitEpsilon, PosInf);
      hit.Some? && hit.value.t == 1.0 && hit.value.material == q.mat
  {
    var ray := Ray(Vec3(0.5, 0.5, 1.0), Vec3(0.0, 0.0, -1.0));
    assert Quads.Root(q, ray) == 1.0;
    assert At(ray, 1.0) == Vec3(0.5, 0.5, 0.0);
    assert Quads.Alpha(q, Vec3(0.5, 0.5, 0.0)) == 0.5 && Quads.Beta(q, Vec3(0.5, 0.5, 0.0)) == 0.5;
    Quads.HitWhenInterior(q, ray, HitEpsilon, PosInf);
  }

  /** A glass quad with the unit square's fields, whatever box it caches, reports that hit, in glass. */
  lemma GlassSquareHit(m: MathLib, q: Quads.Quad, box: Boxes.AABB)
    requires q.q == Zero && q.u == Vec3(1.0, 0.0, 0.0) && q.v == Vec3(0.0, 1.0, 0.0)
    requires q.normal == Vec3(0.0, 0.0, 1.0) && q.d == 0.0 && q.w == Vec3(0.0, 0.0, 1.0)
    requires q.mat == Dielectric(1.5)
    ensures var hit := SceneSearch(m, Scenes.QuadObj(q, box))(Ray(Vec3(0.5, 0.5, 1.0), Vec3(0.0, 0.0, -1.0)));
      hit.Some? && hit.value.t == 1.0 && hit.value.material == Dielectric(1.5)
  {
    var ray := Ray(Vec3(0.5, 0.5, 1.0), Vec3(0.0, 0.0, -1.0));
    var scene := Scenes.QuadObj(q, box);
    UnitSquareHitAtOne(q);
    QuadSceneHit(m, q, box, ray);
  }

  /** A scene of one quad reports what the quad's own hit finds. */
  lemma QuadSceneHit(m: MathLib, q: Quads.Quad, box: Boxes.AABB, ray: Ray)
    ensures SceneSearch(m, Scenes.QuadObj(q, box))(ray) == Quads.Hit(q, ray, HitEpsilon, PosInf)
  {
  }

  /**
   * That ray at depth 0 onto the glass square (any quad with its fields, as
   * GlassSquareFields shows the constructor builds), whatever box the scene
   * caches (hit does not read it): the camera as designed returns black,
   * since the path ends there, while the source returns white.
   */
  lemma GlassSquareDiverges(m: MathLib, cam: Camera, sample: int -> Sample, q: Quads.Quad, box: Boxes.AABB)
    requires q.q == Zero && q.u == Vec3(1.0, 0.0, 0.0) && q.v == Vec3(0.0, 1.0, 0.0)
    requires q.normal == Vec3(0.0, 0.0, 1.0) && q.d == 0.0 && q.w == Vec3(0.0, 0.0, 1.0)
    requires q.mat == Dielectric(1.5)
    ensures Reports(SceneSearch(m, Scenes.QuadObj(q, box)), Evaluable)
    ensures var search := SceneSearch(m, Scenes.QuadObj(q, box));
      var ray := Ray(Vec3(0.5, 0.5, 1.0), Vec3(0.0, 0.0, -1.0));
      && RayColor(m, cam, search, ray, 0, sample) == Ok(BLACK)
      && RayColorAsWritten(m, cam, search, ray, 0, sample, BLACK) == Ok((Fresh(WHITE), WHITE))
  {
    var scene := Scenes.QuadObj(q, box);
    SceneReports(m, scene, Evaluable);
    GlassSquareHit(m, q, box);
    DielectricAtLastBounce(m, cam, SceneSearch(m, scene), Ray(Vec3(0.5, 0.5, 1.0), Vec3(0.0, 0.0, -1.0)), sample);
  }
}
