/**
 * AABB (src/aabb.ts): an axis-aligned bounding box as three intervals, its
 * hull, padding and the slab test. hit() narrows the interval it is given in
 * place; here it returns the narrowed window alongside the verdict.
 */
module Boxes {
  import opened ExtReals
  import opened Numeric
  import opened Intervals
  import opened Vectors
  import opened Rays

  datatype AABB = AABB(x: Interval, y: Interval, z: Interval)

  /** new AABB(): every axis is Interval.empty. */
  const Default: AABB := AABB(Empty, Empty, Empty)

  /** axis(n): 1 is y, 2 is z, anything else is x. */
  function Axis(box: AABB, n: int): (iv: Interval)
    ensures n == 1 ==> iv == box.y
    ensures n == 2 ==> iv == box.z
    ensures n != 1 && n != 2 ==> iv == box.x
  {
    if n == 1 then box.y else if n == 2 then box.z else box.x
  }

  /** The point lies in the box on all three axes. */
  predicate Inside(box: AABB, p: Point3) {
    Contains(box.x, p.x) && Contains(box.y, p.y) && Contains(box.z, p.z)
  }

  /** The point lies strictly inside the box on all three axes. */
  predicate StrictlyInside(box: AABB, p: Point3) {
    Surrounds(box.x, p.x) && Surrounds(box.y, p.y) && Surrounds(box.z, p.z)
  }

  /** `inner` lies within `outer` on every axis. */
  predicate SubBox(inner: AABB, outer: AABB) {
    Within(inner.x, outer.x) && Within(inner.y, outer.y) && Within(inner.z, outer.z)
  }

  /** Every axis has its min at or below its max. */
  predicate Ordered(box: AABB) {
    Le(box.x.min, box.x.max) && Le(box.y.min, box.y.max) && Le(box.z.min, box.z.max)
  }

  /** The interval spanned by two numbers, in either order. */
  function Span(a: real, b: real): (iv: Interval)
    ensures Le(iv.min, iv.max) && Contains(iv, a) && Contains(iv, b)
    ensures iv.min.Fin? && iv.max.Fin?
  {
    Interval(Min(Fin(a), Fin(b)), Max(Fin(a), Fin(b)))
  }

  /** The span holds every number between its two ends. */
  lemma SpanBetween(a: real, b: real, x: real)
    requires (a <= x <= b) || (b <= x <= a)
    ensures Contains(Span(a, b), x)
  {}

  /** fromPoints(a, b): per axis, the smaller coordinate to the larger. */
  function FromPoints(a: Point3, b: Point3): (box: AABB)
    ensures Ordered(box) && Inside(box, a) && Inside(box, b)
  {
    AABB(Span(a.x, b.x), Span(a.y, b.y), Span(a.z, b.z))
  }

  /** fromAABBs(box1, box2): the axis-wise hull. */
  function FromAABBs(box1: AABB, box2: AABB): (box: AABB)
    ensures SubBox(box1, box) && SubBox(box2, box)
  {
    AABB(FromIntervals(box1.x, box2.x), FromIntervals(box1.y, box2.y), FromIntervals(box1.z, box2.z))
  }

  /** fromIntervals(x, y, z): the box with exactly these axes. */
  function FromAxes(x: Interval, y: Interval, z: Interval): (box: AABB)
    ensures Axis(box, 0) == x && Axis(box, 1) == y && Axis(box, 2) == z
  {
    AABB(x, y, z)
  }

  /** fromAABBs is commutative, and hulling with the default box gives the other box. */
  lemma FromAABBsLaws(a: AABB, b: AABB)
    ensures FromAABBs(a, b) == FromAABBs(b, a)
    ensures FromAABBs(Default, a) == a && FromAABBs(a, Default) == a
    ensures FromAABBs(a, a) == a
  {
    FromIntervalsLaws(a.x, b.x);
    FromIntervalsLaws(a.y, b.y);
    FromIntervalsLaws(a.z, b.z);
  }

  /** A point inside a sub-box is inside the box. */
  lemma SubBoxInside(inner: AABB, outer: AABB, p: Point3)
    requires SubBox(inner, outer)
    ensures Inside(inner, p) ==> Inside(outer, p)
    ensures StrictlyInside(inner, p) ==> StrictlyInside(outer, p)
  {
    WithinContains(inner.x, outer.x, p.x);
    WithinContains(inner.y, outer.y, p.y);
    WithinContains(inner.z, outer.z, p.z);
  }

  /** Containment of boxes is transitive. */
  lemma SubBoxTransitive(a: AABB, b: AABB, c: AABB)
    requires SubBox(a, b) && SubBox(b, c)
    ensures SubBox(a, c)
  {
    LeTransitive(c.x.min, b.x.min, a.x.min);
    LeTransitive(a.x.max, b.x.max, c.x.max);
    LeTransitive(c.y.min, b.y.min, a.y.min);
    LeTransitive(a.y.max, b.y.max, c.y.max);
    LeTransitive(c.z.min, b.z.min, a.z.min);
    LeTransitive(a.z.max, b.z.max, c.z.max);
  }

  /** pad()'s minimum width. */
  const Delta: real := 0.0001

  /** One axis of pad(): kept when size() >= delta, otherwise expanded by delta. */
  function PadAxis(iv: Interval): (r: Interval)
    ensures Le(Fin(Delta), Size(iv)) ==> r == iv
    ensures !Le(Fin(Delta), Size(iv)) ==> r == Expand(iv, Delta)
    ensures Within(iv, r)
    ensures iv.min.Fin? && iv.max.Fin? && Le(iv.min, iv.max) ==> Le(Fin(Delta), Size(r))
  {
    if Le(Fin(Delta), Size(iv)) then iv else Expand(iv, Delta)
  }

  /** pad(): no finite, non-empty side narrower than delta. */
  function Pad(box: AABB): (r: AABB)
    ensures SubBox(box, r)
  {
    FromAxes(PadAxis(box.x), PadAxis(box.y), PadAxis(box.z))
  }

  // ---------------------------------------------------------------------------
  // The slab test

  /** The verdict of hit() and the state the window is left in. */
  datatype SlabResult = SlabResult(hit: bool, window: Interval)

  /** (bound - orig) * invD: the ray parameter at which it crosses the plane of `bound`. */
  function Crossing(bound: Bound, orig: real, invD: ExtReal): ExtReal {
    Mul(ExtReals.Sub(bound, Fin(orig)), invD)
  }

  /** t0 after the swap: the crossing of the near plane. */
  function Enter(iv: Interval, orig: real, invD: ExtReal): ExtReal {
    if Lt(invD, Fin(0.0)) then Crossing(iv.max, orig, invD) else Crossing(iv.min, orig, invD)
  }

  /** t1 after the swap: the crossing of the far plane. */
  function Leave(iv: Interval, orig: real, invD: ExtReal): ExtReal {
    if Lt(invD, Fin(0.0)) then Crossing(iv.min, orig, invD) else Crossing(iv.max, orig, invD)
  }

  /**
   * One iteration of hit()'s loop for an axis interval `iv`, the ray's origin
   * coordinate `orig` and the reciprocal direction `invD`: t0 > min raises
   * min, t1 < max lowers max (a NaN crossing does neither), and the loop
   * stops when max <= min.
   */
  function SlabStep(iv: Interval, orig: real, invD: ExtReal, w: Interval): (r: SlabResult)
    ensures Within(r.window, w)
    ensures r.hit <==> Lt(r.window.min, r.window.max)
    ensures r.window.min == w.min || r.window.min == Enter(iv, orig, invD)
    ensures r.window.max == w.max || r.window.max == Leave(iv, orig, invD)
    ensures !Enter(iv, orig, invD).NaN? ==> Le(Enter(iv, orig, invD), r.window.min)
    ensures !Leave(iv, orig, invD).NaN? ==> Le(r.window.max, Leave(iv, orig, invD))
  {
    var enter := Enter(iv, orig, invD);
    var exit := Leave(iv, orig, invD);
    var min: Bound := if Lt(w.min, enter) then enter else w.min;
    var max: Bound := if Lt(exit, w.max) then exit else w.max;
    LeTotal(min, max);
    LeTotalUnlessNaN(w.min, enter);
    LeTotalUnlessNaN(exit, w.max);
    SlabResult(!Le(max, min), Interval(min, max))
  }

  /** Axis `a` of hit()'s loop, with invD = 1 / dir.idx(a). */
  function SlabAxis(box: AABB, r: Ray, a: int, w: Interval): SlabResult {
    SlabStep(Axis(box, a), Idx(r.orig, a), Recip(Idx(r.dir, a)), w)
  }

  /** hit(r, ray_t) from axis `a` on: stops at the first axis that empties the window. */
  function HitFrom(box: AABB, r: Ray, w: Interval, a: nat): (res: SlabResult)
    requires a <= 3
    requires a > 0 ==> Lt(w.min, w.max)
    ensures Within(res.window, w)
    ensures res.hit ==> Lt(res.window.min, res.window.max)
    ensures !res.hit ==> Le(res.window.max, res.window.min)
    decreases 3 - a
  {
    if a == 3 then
      SlabResult(true, w)
    else
      var s := SlabAxis(box, r, a, w);
      if !s.hit then
        LeTotal(s.window.min, s.window.max);
        s
      else
        var rest := HitFrom(box, r, s.window, a + 1);
        LeTransitive(w.min, s.window.min, rest.window.min);
        LeTransitive(rest.window.max, s.window.max, w.max);
        rest
  }

  /** hit(r, ray_t). */
  function Hit(box: AABB, r: Ray, w: Interval): SlabResult {
    HitFrom(box, r, w, 0)
  }

  /**
   * hit() only narrows: it never lowers min or raises max. On true the window
   * is non-empty; on false it is empty.
   */
  lemma HitNarrows(box: AABB, r: Ray, w: Interval)
    ensures Within(Hit(box, r, w).window, w)
    ensures Hit(box, r, w).hit <==> Lt(Hit(box, r, w).window.min, Hit(box, r, w).window.max)
  {
    var res := Hit(box, r, w);
    if !res.hit {
      LeTotal(res.window.min, res.window.max);
    }
  }

  /**
   * A zero direction component gives 1/+0 = +Infinity or 1/-0 = -Infinity
   * in the source; the model always takes +Infinity. Either sign gives the
   * same verdict, and on true the same window.
   */
  lemma SlabZeroSignIrrelevant(iv: Interval, orig: real, w: Interval)
    ensures SlabStep(iv, orig, PosInf, w).hit == SlabStep(iv, orig, NegInf, w).hit
    ensures SlabStep(iv, orig, PosInf, w).hit ==>
      SlabStep(iv, orig, PosInf, w).window == SlabStep(iv, orig, NegInf, w).window
  {
    CrossingAtInfinity(iv.min, orig);
    CrossingAtInfinity(iv.max, orig);
  }

  /** An infinite reciprocal sends a plane's crossing to an infinity, or to NaN on the plane. */
  lemma CrossingAtInfinity(b: Bound, o: real)
    ensures Crossing(b, o, PosInf) ==
      if Lt(Fin(o), b) then PosInf else if Lt(b, Fin(o)) then NegInf else NaN
    ensures Crossing(b, o, NegInf) ==
      if Lt(Fin(o), b) then NegInf else if Lt(b, Fin(o)) then PosInf else NaN
  {}

  /** The ray's coordinate on axis `a` at parameter `t`. */
  lemma AtIdx(r: Ray, t: real, a: int)
    ensures Idx(At(r, t), a) == Idx(r.orig, a) + Idx(r.dir, a) * t
  {
    IdxComponents(r.orig, Scale(r.dir, t), t, a);
    IdxComponents(r.dir, r.dir, t, a);
  }

  /**
   * For a positive direction component `d`, comparing `t` with a plane's
   * crossing is comparing o + d t with the plane.
   */
  lemma CrossingPositive(b: Bound, o: real, d: real, t: real)
    requires d > 0.0
    ensures !Crossing(b, o, Recip(d)).NaN?
    ensures Le(Crossing(b, o, Recip(d)), Fin(t)) <==> Le(b, Fin(o + d * t))
    ensures Lt(Crossing(b, o, Recip(d)), Fin(t)) <==> Lt(b, Fin(o + d * t))
    ensures Le(Fin(t), Crossing(b, o, Recip(d))) <==> Le(Fin(o + d * t), b)
    ensures Lt(Fin(t), Crossing(b, o, Recip(d))) <==> Lt(Fin(o + d * t), b)
  {
    RecipSign(d);
    match b {
      case Fin(x) => DivideThrough(x - o, d, t);
      case _ =>
    }
  }

  /** For a negative direction component the comparisons turn round. */
  lemma CrossingNegative(b: Bound, o: real, d: real, t: real)
    requires d < 0.0
    ensures !Crossing(b, o, Recip(d)).NaN?
    ensures Le(Crossing(b, o, Recip(d)), Fin(t)) <==> Le(Fin(o + d * t), b)
    ensures Lt(Crossing(b, o, Recip(d)), Fin(t)) <==> Lt(Fin(o + d * t), b)
    ensures Le(Fin(t), Crossing(b, o, Recip(d))) <==> Le(b, Fin(o + d * t))
    ensures Lt(Fin(t), Crossing(b, o, Recip(d))) <==> Lt(b, Fin(o + d * t))
  {
    RecipSign(d);
    match b {
      case Fin(x) => DivideThrough(x - o, d, t);
      case _ =>
    }
  }

  /**
   * For a non-zero direction component, the near crossing is at or before
   * `t` and the far crossing at or after it exactly when o + d t lies in the
   * slab; strictly so exactly when it lies strictly inside.
   */
  lemma CrossingsBracket(iv: Interval, o: real, d: real, t: real)
    requires d != 0.0
    ensures !Enter(iv, o, Recip(d)).NaN? && !Leave(iv, o, Recip(d)).NaN?
    ensures Le(Enter(iv, o, Recip(d)), Fin(t)) && Le(Fin(t), Leave(iv, o, Recip(d)))
        <==> Contains(iv, o + d * t)
    ensures Lt(Enter(iv, o, Recip(d)), Fin(t)) && Lt(Fin(t), Leave(iv, o, Recip(d)))
        <==> Surrounds(iv, o + d * t)
  {
    RecipSign(d);
    if d > 0.0 {
      CrossingPositive(iv.min, o, d, t);
      CrossingPositive(iv.max, o, d, t);
    } else {
      CrossingNegative(iv.min, o, d, t);
      CrossingNegative(iv.max, o, d, t);
    }
  }

  /**
   * For a zero direction component the model's +Infinity reciprocal sends
   * the near crossing to -Infinity or NaN and the far one to +Infinity or
   * NaN exactly when the origin lies in the slab.
   */
  lemma CrossingsZero(iv: Interval, o: real)
    ensures Contains(iv, o) ==> !Lt(NegInf, Enter(iv, o, Recip(0.0))) && !Lt(Leave(iv, o, Recip(0.0)), PosInf)
    ensures !Le(iv.min, Fin(o)) ==> Enter(iv, o, Recip(0.0)) == PosInf
    ensures !Le(Fin(o), iv.max) ==> Leave(iv, o, Recip(0.0)) == NegInf
  {}

  /**
   * One slab is sound: if the step keeps `t` in its window, the ray's
   * coordinate o + d t lies in the axis interval.
   */
  lemma SlabStepSound(iv: Interval, o: real, d: real, w: Interval, t: real)
    requires SlabStep(iv, o, Recip(d), w).hit
    requires Contains(SlabStep(iv, o, Recip(d), w).window, t)
    ensures Contains(iv, o + d * t)
  {
    var res := SlabStep(iv, o, Recip(d), w);
    if d == 0.0 {
      assert o + d * t == o;
      CrossingsZero(iv, o);
      LeTotal(iv.min, Fin(o));
      LeTotal(Fin(o), iv.max);
    } else {
      CrossingsBracket(iv, o, d, t);
      LeTransitive(Enter(iv, o, Recip(d)), res.window.min, Fin(t));
      LeTransitive(Fin(t), res.window.max, Leave(iv, o, Recip(d)));
    }
  }

  /**
   * One slab is complete for interior points: if `t` is strictly inside the
   * window and o + d t strictly inside the axis interval, the step continues
   * and keeps `t` strictly inside the narrowed window.
   */
  lemma SlabStepComplete(iv: Interval, o: real, d: real, w: Interval, t: real)
    requires Surrounds(w, t) && Surrounds(iv, o + d * t)
    ensures SlabStep(iv, o, Recip(d), w).hit
    ensures Surrounds(SlabStep(iv, o, Recip(d), w).window, t)
  {
    var res := SlabStep(iv, o, Recip(d), w);
    if d == 0.0 {
      assert o + d * t == o;
      CrossingsZero(iv, o);
    } else {
      CrossingsBracket(iv, o, d, t);
    }
    assert Lt(res.window.min, Fin(t));
    assert Lt(Fin(t), res.window.max);
    LtLeTransitive(res.window.min, Fin(t), res.window.max);
  }

  /** SlabStepSound for axis `a` of a ray, stated on ray.at(t). */
  lemma SlabAxisSound(box: AABB, r: Ray, a: int, w: Interval, t: real)
    requires SlabAxis(box, r, a, w).hit && Contains(SlabAxis(box, r, a, w).window, t)
    ensures Contains(Axis(box, a), Idx(At(r, t), a))
  {
    SlabStepSound(Axis(box, a), Idx(r.orig, a), Idx(r.dir, a), w, t);
    AtIdx(r, t, a);
  }

  /** SlabStepComplete for axis `a` of a ray, stated on ray.at(t). */
  lemma SlabAxisComplete(box: AABB, r: Ray, a: int, w: Interval, t: real)
    requires Surrounds(w, t) && Surrounds(Axis(box, a), Idx(At(r, t), a))
    ensures SlabAxis(box, r, a, w).hit && Surrounds(SlabAxis(box, r, a, w).window, t)
  {
    AtIdx(r, t, a);
    SlabStepComplete(Axis(box, a), Idx(r.orig, a), Idx(r.dir, a), w, t);
  }

  /** The slab test from axis `a` on is sound: on true, every `t` in the window is inside those slabs. */
  lemma {:induction false} HitFromSound(box: AABB, r: Ray, w: Interval, a: nat, t: real)
    requires a <= 3
    requires a > 0 ==> Lt(w.min, w.max)
    requires HitFrom(box, r, w, a).hit && Contains(HitFrom(box, r, w, a).window, t)
    ensures forall b :: a <= b < 3 ==> Contains(Axis(box, b), Idx(At(r, t), b))
    decreases 3 - a
  {
    if a < 3 {
      var s := SlabAxis(box, r, a, w);
      assert s.hit;
      var rest := HitFrom(box, r, s.window, a + 1);
      assert HitFrom(box, r, w, a) == rest;
      WithinContains(rest.window, s.window, t);
      SlabAxisSound(box, r, a, w, t);
      HitFromSound(box, r, s.window, a + 1, t);
    }
  }

  /**
   * Soundness of hit(): on true, every parameter in the narrowed window puts
   * ray.at(t) inside the box.
   */
  lemma HitSound(box: AABB, r: Ray, w: Interval, t: real)
    requires Hit(box, r, w).hit && Contains(Hit(box, r, w).window, t)
    ensures Inside(box, At(r, t))
  {
    HitFromSound(box, r, w, 0, t);
    assert Contains(Axis(box, 0), Idx(At(r, t), 0));
    assert Contains(Axis(box, 1), Idx(At(r, t), 1));
    assert Contains(Axis(box, 2), Idx(At(r, t), 2));
  }

  /** The slab test from axis `a` on accepts a `t` strictly inside the window whose point is strictly inside those slabs. */
  lemma {:induction false} HitFromComplete(box: AABB, r: Ray, w: Interval, a: nat, t: real)
    requires a <= 3
    requires Surrounds(w, t)
    requires forall b :: a <= b < 3 ==> Surrounds(Axis(box, b), Idx(At(r, t), b))
    ensures a > 0 ==> Lt(w.min, w.max)
    ensures HitFrom(box, r, w, a).hit
    ensures Surrounds(HitFrom(box, r, w, a).window, t)
    decreases 3 - a
  {
    LtLeTransitive(w.min, Fin(t), w.max);
    if a < 3 {
      SlabAxisComplete(box, r, a, w, t);
      var s := SlabAxis(box, r, a, w);
      HitFromComplete(box, r, s.window, a + 1, t);
    }
  }

  /**
   * A ray parallel to the x slab whose origin lies beyond the slab's upper
   * bound misses the box, whatever the window.
   */
  lemma ParallelBeyondMisses(box: AABB, r: Ray, w: Interval)
    requires r.dir.x == 0.0 && !Le(Fin(r.orig.x), box.x.max)
    ensures !Hit(box, r, w).hit
  {
    CrossingsZero(box.x, r.orig.x);
  }

  /**
   * Completeness of hit() for interior points: a `t` strictly inside the
   * window whose point ray.at(t) is strictly inside the box makes hit()
   * return true, whatever the direction's zero components.
   */
  lemma HitComplete(box: AABB, r: Ray, w: Interval, t: real)
    requires Surrounds(w, t) && StrictlyInside(box, At(r, t))
    ensures Hit(box, r, w).hit
    ensures Surrounds(Hit(box, r, w).window, t)
  {
    HitFromComplete(box, r, w, 0, t);
  }
}
