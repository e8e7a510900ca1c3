/**
 * BVHNode (src/bvh.ts): a binary tree over a scene's objects. Each node
 * draws an axis, sorts its objects by the minimum of their boxes on that
 * axis, splits them at the median and caches the hull of its children's
 * boxes. Its hit is Scenes.Hit on a Node; the main result here is that the
 * tree finds the same nearest hit as searching the objects as a list.
 */
module Bvh {
  import opened Results
  import opened Numeric
  import opened ExtReals
  import opened Intervals
  import opened Rays
  import opened Boxes
  import opened Hits
  import opened Materials
  import opened Scenes

  // ---------------------------------------------------------------------------
  // The comparators

  /** An object's box minimum on an axis: what boxCompare compares. */
  function Key(o: Hittable, axis: int): Bound {
    Axis(BoundingBox(o), axis).min
  }

  /** boxXCompare, boxYCompare, boxZCompare: -1 when `a`'s minimum is strictly smaller, else 1. */
  function Compare(a: Hittable, b: Hittable, axis: int): (c: int)
    ensures c == -1 || c == 1
    ensures c < 0 <==> Lt(Key(a, axis), Key(b, axis))
  {
    if Lt(Key(a, axis), Key(b, axis)) then -1 else 1
  }

  /** The comparators never report two objects equal: even an object compared with itself is "greater". */
  lemma CompareNeverEqual(a: Hittable, axis: int)
    ensures Compare(a, a, axis) == 1
  {}

  // ---------------------------------------------------------------------------
  // The sort

  /** Ordered by box minimum on `axis`. */
  ghost predicate Sorted(s: seq<Hittable>, axis: int) {
    forall i, j :: 0 <= i < j < |s| ==> Le(Key(s[i], axis), Key(s[j], axis))
  }

  /** Insert `o` before the first element it compares below. */
  function Insert(o: Hittable, s: seq<Hittable>, axis: int): (res: seq<Hittable>)
    ensures |res| == |s| + 1
    decreases |s|
  {
    if s == [] then [o]
    else if Compare(o, s[0], axis) < 0 then [o] + s
    else [s[0]] + Insert(o, s[1..], axis)
  }

  /** Insertion adds exactly `o`. */
  lemma {:induction false} InsertPermutes(o: Hittable, s: seq<Hittable>, axis: int)
    ensures multiset(Insert(o, s, axis)) == multiset(s) + multiset{o}
    decreases |s|
  {
    if s != [] && Compare(o, s[0], axis) >= 0 {
      InsertPermutes(o, s[1..], axis);
      assert s == [s[0]] + s[1..];
    }
  }

  /** Every key of `s` is at least `x`. */
  ghost predicate AllAbove(x: Bound, s: seq<Hittable>, axis: int) {
    forall i :: 0 <= i < |s| ==> Le(x, Key(s[i], axis))
  }

  /** Insertion keeps a lower bound on the keys. */
  lemma {:induction false} InsertAbove(x: Bound, o: Hittable, s: seq<Hittable>, axis: int)
    requires Le(x, Key(o, axis)) && AllAbove(x, s, axis)
    ensures AllAbove(x, Insert(o, s, axis), axis)
    decreases |s|
  {
    if s != [] && Compare(o, s[0], axis) >= 0 {
      InsertAbove(x, o, s[1..], axis);
      var rest := Insert(o, s[1..], axis);
      forall i | 0 <= i < |rest| + 1
        ensures Le(x, Key(([s[0]] + rest)[i], axis))
      {
        if i > 0 {
          assert ([s[0]] + rest)[i] == rest[i - 1];
        }
      }
    }
  }

  /** A sorted sequence is its first element followed by a sorted sequence above it. */
  lemma SortedCons(s: seq<Hittable>, axis: int)
    requires s != []
    ensures Sorted(s, axis) <==> AllAbove(Key(s[0], axis), s[1..], axis) && Sorted(s[1..], axis)
  {
    if AllAbove(Key(s[0], axis), s[1..], axis) && Sorted(s[1..], axis) {
      forall i, j | 0 <= i < j < |s|
        ensures Le(Key(s[i], axis), Key(s[j], axis))
      {
        assert s[j] == s[1..][j - 1];
        if i > 0 {
          assert s[i] == s[1..][i - 1];
        }
      }
    }
  }

  /** Insertion keeps a sorted sequence sorted. */
  lemma {:induction false} InsertSorted(o: Hittable, s: seq<Hittable>, axis: int)
    requires Sorted(s, axis)
    ensures Sorted(Insert(o, s, axis), axis)
    decreases |s|
  {
    if s == [] {
      assert Insert(o, s, axis) == [o];
    } else {
      var res := Insert(o, s, axis);
      LeTotal(Key(o, axis), Key(s[0], axis));
      SortedCons(s, axis);
      if Compare(o, s[0], axis) < 0 {
        assert res == [o] + s && res[1..] == s && res[0] == o;
        forall i | 0 <= i < |s|
          ensures Le(Key(o, axis), Key(s[i], axis))
        {
          if i > 0 {
            assert s[i] == s[1..][i - 1];
            LeTransitive(Key(o, axis), Key(s[0], axis), Key(s[i], axis));
          }
        }
        SortedCons(res, axis);
      } else {
        var rest := Insert(o, s[1..], axis);
        InsertSorted(o, s[1..], axis);
        InsertAbove(Key(s[0], axis), o, s[1..], axis);
        assert res == [s[0]] + rest && res[1..] == rest && res[0] == s[0];
        SortedCons(res, axis);
      }
    }
  }

  /**
   * objects.sort(comparator): a sorted permutation. JavaScript leaves the
   * order of equal keys to the engine; this sort is one admissible order.
   */
  function Sort(s: seq<Hittable>, axis: int): (res: seq<Hittable>)
    ensures |res| == |s|
    decreases |s|
  {
    if s == [] then []
    else Insert(s[0], Sort(s[1..], axis), axis)
  }

  /** The sort is a permutation. */
  lemma {:induction false} SortPermutes(s: seq<Hittable>, axis: int)
    ensures multiset(Sort(s, axis)) == multiset(s)
    decreases |s|
  {
    if s != [] {
      SortPermutes(s[1..], axis);
      InsertPermutes(s[0], Sort(s[1..], axis), axis);
      assert s == [s[0]] + s[1..];
    }
  }

  /** The sort's result is ordered by box minimum. */
  lemma {:induction false} SortSorted(s: seq<Hittable>, axis: int)
    ensures Sorted(Sort(s, axis), axis)
    decreases |s|
  {
    if s != [] {
      SortSorted(s[1..], axis);
      InsertSorted(s[0], Sort(s[1..], axis), axis);
    }
  }

  // ---------------------------------------------------------------------------
  // Construction

  /** Every draw of the random source lies in [0, 1). */
  ghost predicate ValidDraws(draw: nat -> real) {
    forall i :: 0.0 <= draw(i) < 1.0
  }

  /** A built tree and the index of the next unused draw. */
  datatype Built = Built(tree: Hittable, next: nat)

  /** The objects a tree's nodes hang above, left to right; a node over one object lists it twice. */
  function Leaves(h: Hittable): (s: seq<Hittable>)
    ensures |s| >= 1
  {
    if h.Node? then Leaves(h.left) + Leaves(h.right) else [h]
  }

  /**
   * new BVHNode(objects, start, end) over the span s = objects[start..end),
   * drawing its axis from draw(k) and its subtrees' axes from the draws after
   * it, left subtree first. The span must not be empty (see BuildAsWritten).
   */
  function Build(s: seq<Hittable>, draw: nat -> real, k: nat): (res: Built)
    requires |s| >= 1 && ValidDraws(draw)
    ensures res.tree.Node? && res.next > k
    decreases |s|
  {
    var axis := RandomInt(3, draw(k));
    if |s| == 1 then
      Built(Node(s[0], s[0]), k + 1)
    else if |s| == 2 then
      if Compare(s[0], s[1], axis) < 0 then Built(Node(s[0], s[1]), k + 1)
      else Built(Node(s[1], s[0]), k + 1)
    else
      var sorted := Sort(s, axis);
      var mid := |sorted| / 2;
      var l := Build(sorted[..mid], draw, k + 1);
      var r := Build(sorted[mid..], draw, l.next);
      Built(Node(l.tree, r.tree), r.next)
  }

  /** A span of one object hangs it under both children; a span of two puts the lesser key on the left. */
  lemma BuildSmall(s: seq<Hittable>, draw: nat -> real, k: nat)
    requires 1 <= |s| <= 2 && ValidDraws(draw)
    ensures |s| == 1 ==> Build(s, draw, k).tree.left == s[0] && Build(s, draw, k).tree.right == s[0]
    ensures |s| == 2 ==> var axis := RandomInt(3, draw(k)); var t := Build(s, draw, k).tree;
      if Lt(Key(s[0], axis), Key(s[1], axis)) then t.left == s[0] && t.right == s[1]
      else t.left == s[1] && t.right == s[0]
  {}

  /** Built from objects that are not nodes, the tree's leaves are exactly the span's objects. */
  lemma {:induction false} BuildLeaves(s: seq<Hittable>, draw: nat -> real, k: nat)
    requires |s| >= 1 && ValidDraws(draw)
    requires forall i :: 0 <= i < |s| ==> !s[i].Node?
    ensures forall x :: x in Leaves(Build(s, draw, k).tree) <==> x in s
    decreases |s|
  {
    var t := Build(s, draw, k).tree;
    if |s| > 2 {
      var axis := RandomInt(3, draw(k));
      var sorted := Sort(s, axis);
      var mid := |sorted| / 2;
      SortPermutes(s, axis);
      SplitKeeps(s, sorted, mid);
      BuildLeaves(sorted[..mid], draw, k + 1);
      var l := Build(sorted[..mid], draw, k + 1);
      BuildLeaves(sorted[mid..], draw, l.next);
      var r := Build(sorted[mid..], draw, l.next);
      assert Leaves(t) == Leaves(l.tree) + Leaves(r.tree);
    } else {
      assert !t.left.Node? && !t.right.Node?;
      assert Leaves(t) == [t.left, t.right];
    }
  }

  /** The two halves of a permutation of s hold exactly s's objects, and only what s holds. */
  lemma SplitKeeps(s: seq<Hittable>, sorted: seq<Hittable>, mid: nat)
    requires multiset(sorted) == multiset(s) && mid <= |sorted|
    ensures forall x :: x in sorted[..mid] || x in sorted[mid..] <==> x in s
    ensures (forall i :: 0 <= i < |s| ==> !s[i].Node?) ==>
      (forall i :: 0 <= i < mid ==> !sorted[..mid][i].Node?) && (forall i :: 0 <= i < |sorted| - mid ==> !sorted[mid..][i].Node?)
  {
    assert sorted == sorted[..mid] + sorted[mid..];
    forall x
      ensures x in sorted <==> x in s
    {
      assert x in sorted <==> x in multiset(sorted);
      assert x in s <==> x in multiset(s);
    }
    forall i | 0 <= i < |sorted|
      ensures exists j :: 0 <= j < |s| && s[j] == sorted[i]
    {
      assert sorted[i] in multiset(s);
    }
    forall i | 0 <= i < mid
      ensures sorted[..mid][i] == sorted[i]
    {}
    forall i | 0 <= i < |sorted| - mid
      ensures sorted[mid..][i] == sorted[mid + i]
    {}
  }

  /**
   * BVHNode.fromHittableList(list): the tree over all of the list's objects.
   * An empty list gets the empty-span meaning of BuildSpan.
   */
  function FromHittableList(list: Hittable, draw: nat -> real, k: nat): (res: Built)
    requires list.List? && ValidDraws(draw)
    ensures |list.objects| >= 1 ==> res.tree.Node? && res.next > k
    ensures |list.objects| == 0 ==> res.next == k && !res.tree.Node?
  {
    BuildSpan(list.objects, draw, k)
  }

  /**
   * The tree over a non-empty list of objects that are not nodes has exactly
   * the list's objects as leaves.
   */
  lemma FromHittableListLeaves(list: Hittable, draw: nat -> real, k: nat)
    requires list.List? && ValidDraws(draw)
    requires forall i :: 0 <= i < |list.objects| ==> !list.objects[i].Node?
    ensures |list.objects| >= 1 ==>
      forall x :: x in Leaves(FromHittableList(list, draw, k).tree) <==> x in list.objects
  {
    if |list.objects| >= 1 {
      BuildLeaves(list.objects, draw, k);
    }
  }

  /**
   * The constructor as written, with a `fuel` bound on its recursion depth:
   * None when the fuel runs out. An empty span reaches the sort branch and
   * recurses on the empty span again.
   */
  function BuildAsWritten(s: seq<Hittable>, draw: nat -> real, k: nat, fuel: nat): Option<Built>
    requires ValidDraws(draw)
    decreases fuel
  {
    if fuel == 0 then None
    else
      var axis := RandomInt(3, draw(k));
      if |s| == 1 then
        Some(Built(Node(s[0], s[0]), k + 1))
      else if |s| == 2 then
        if Compare(s[0], s[1], axis) < 0 then Some(Built(Node(s[0], s[1]), k + 1))
        else Some(Built(Node(s[1], s[0]), k + 1))
      else
        var sorted := Sort(s, axis);
        var mid := |sorted| / 2;
        var l := BuildAsWritten(sorted[..mid], draw, k + 1, fuel - 1);
        if l.None? then None
        else
          var r := BuildAsWritten(sorted[mid..], draw, l.value.next, fuel - 1);
          if r.None? then None
          else Some(Built(Node(l.value.tree, r.value.tree), r.value.next))
  }

  /** On an empty span the constructor as written never returns, however deep it may recurse. */
  lemma {:induction false} EmptySpanNeverReturns(draw: nat -> real, k: nat, fuel: nat)
    requires ValidDraws(draw)
    ensures BuildAsWritten([], draw, k, fuel).None?
    decreases fuel
  {
    if fuel > 0 {
      var axis := RandomInt(3, draw(k));
      var sorted := Sort([], axis);
      assert sorted == [] && sorted[..0] == [];
      EmptySpanNeverReturns(draw, k + 1, fuel - 1);
    }
  }

  /**
   * The constructor with the empty span given the meaning it evidently
   * should have: no objects, so an empty list that no ray hits, built
   * without drawing. Non-empty spans are built as Build builds them.
   */
  function BuildSpan(s: seq<Hittable>, draw: nat -> real, k: nat): (res: Built)
    requires ValidDraws(draw)
    ensures |s| >= 1 ==> res.tree.Node? && res.next > k
    ensures |s| == 0 ==> res.next == k && !res.tree.Node?
  {
    if |s| == 0 then Built(List([], Default), k) else Build(s, draw, k)
  }

  /**
   * BuildSpan returns on every span: on a non-empty one it is what the
   * constructor as written returns, given depth |s|, and on the empty span,
   * where the constructor as written never returns, its tree reports no hit
   * for any ray and window.
   */
  lemma BuildSpanTotal(m: MathLib, s: seq<Hittable>, draw: nat -> real, k: nat, r: Ray, tmin: real, tmax: Bound)
    requires ValidDraws(draw)
    ensures |s| >= 1 ==> BuildAsWritten(s, draw, k, |s|) == Some(BuildSpan(s, draw, k))
    ensures |s| == 0 ==> Scenes.Hit(m, BuildSpan(s, draw, k).tree, r, tmin, tmax).None?
  {
    if |s| >= 1 {
      AsWrittenAgrees(s, draw, k, |s|);
    }
  }

  /** One step of the constructor as written on a span of three or more. */
  lemma AsWrittenStep(s: seq<Hittable>, draw: nat -> real, k: nat, fuel: nat, sorted: seq<Hittable>, l: Built, r: Built)
    requires |s| > 2 && ValidDraws(draw) && fuel > 0
    requires sorted == Sort(s, RandomInt(3, draw(k)))
    requires BuildAsWritten(sorted[..|sorted| / 2], draw, k + 1, fuel - 1) == Some(l)
    requires BuildAsWritten(sorted[|sorted| / 2..], draw, l.next, fuel - 1) == Some(r)
    ensures BuildAsWritten(s, draw, k, fuel) == Some(Built(Node(l.tree, r.tree), r.next))
  {}

  /** One step of the constructor on a span of three or more. */
  lemma BuildStep(s: seq<Hittable>, draw: nat -> real, k: nat, sorted: seq<Hittable>, l: Built, r: Built)
    requires |s| > 2 && ValidDraws(draw)
    requires sorted == Sort(s, RandomInt(3, draw(k)))
    requires l == Build(sorted[..|sorted| / 2], draw, k + 1)
    requires r == Build(sorted[|sorted| / 2..], draw, l.next)
    ensures Build(s, draw, k) == Built(Node(l.tree, r.tree), r.next)
  {}

  /** On a non-empty span the constructor as written returns Build's tree, given depth |s|. */
  lemma {:induction false} AsWrittenAgrees(s: seq<Hittable>, draw: nat -> real, k: nat, fuel: nat)
    requires |s| >= 1 && ValidDraws(draw) && fuel >= |s|
    ensures BuildAsWritten(s, draw, k, fuel) == Some(Build(s, draw, k))
    decreases fuel, 1
  {
    if |s| > 2 {
      var sorted := Sort(s, RandomInt(3, draw(k)));
      var lo, hi := sorted[..|sorted| / 2], sorted[|sorted| / 2..];
      var l := Build(lo, draw, k + 1);
      var r := Build(hi, draw, l.next);
      HalfAgrees(lo, draw, k + 1, fuel, l);
      HalfAgrees(hi, draw, l.next, fuel, r);
      AsWrittenStep(s, draw, k, fuel, sorted, l, r);
      BuildStep(s, draw, k, sorted, l, r);
    }
  }

  /** AsWrittenAgrees on one half of a span, with one level of depth spent. */
  lemma {:induction false} HalfAgrees(half: seq<Hittable>, draw: nat -> real, k: nat, fuel: nat, b: Built)
    requires |half| >= 1 && ValidDraws(draw) && fuel >= |half| + 1 && b == Build(half, draw, k)
    ensures BuildAsWritten(half, draw, k, fuel - 1) == Some(b)
    decreases fuel, 0
  {
    AsWrittenAgrees(half, draw, k, fuel - 1);
  }

  // ---------------------------------------------------------------------------
  // The tree finds the list's nearest hit

  /** A node's box covers the box of every object below it. */
  lemma {:induction false} LeavesInBox(h: Hittable)
    ensures forall i :: 0 <= i < |Leaves(h)| ==> SubBox(BoundingBox(Leaves(h)[i]), BoundingBox(h))
    decreases h
  {
    if h.Node? {
      LeavesInBox(h.left);
      LeavesInBox(h.right);
      var l, r := Leaves(h.left), Leaves(h.right);
      forall i | 0 <= i < |Leaves(h)|
        ensures SubBox(BoundingBox(Leaves(h)[i]), BoundingBox(h))
      {
        if i < |l| {
          assert Leaves(h)[i] == l[i];
          SubBoxTransitive(BoundingBox(l[i]), BoundingBox(h.left), BoundingBox(h));
        } else {
          assert Leaves(h)[i] == r[i - |l|];
          SubBoxTransitive(BoundingBox(r[i - |l|]), BoundingBox(h.right), BoundingBox(h));
        }
      }
    } else {
      var b := BoundingBox(h);
      LeReflexive(b.x.min); LeReflexive(b.x.max);
      LeReflexive(b.y.min); LeReflexive(b.y.max);
      LeReflexive(b.z.min); LeReflexive(b.z.max);
    }
  }

  /** An object's unbounded hit lies strictly inside its box. */
  ghost predicate Boxed(m: MathLib, o: Hittable, r: Ray, tmin: real) {
    var u := Unbounded(m, o, r, tmin);
    u.Some? ==> StrictlyInside(BoundingBox(o), At(r, u.value.t))
  }

  /** What the objects below a node must satisfy. */
  ghost predicate GoodLeaves(m: MathLib, objects: seq<Hittable>, r: Ray, tmin: real) {
    forall i :: 0 <= i < |objects| ==> Regular(m, objects[i], r, tmin) && Boxed(m, objects[i], r, tmin)
  }

  /**
   * A quad built by its constructor keeps its hit strictly inside its box
   * when both coordinates of the hit lie strictly inside (0, 1).
   */
  lemma QuadBoxed(m: MathLib, q: Quads.Quad, r: Ray, tmin: real)
    requires Quads.Built(m, q)
    ensures var u := Unbounded(m, NewQuad(q), r, tmin);
      u.Some? && 0.0 < u.value.u < 1.0 && 0.0 < u.value.v < 1.0 ==> Boxed(m, NewQuad(q), r, tmin)
  {
    Quads.InteriorHitStrictlyInBox(m, q, r, tmin, PosInf);
  }

  /** The square root the sphere's hit takes of a non-negative discriminant is exact. */
  ghost predicate ExactRoot(m: MathLib, s: Spheres.Sphere, r: Ray) {
    var d := Spheres.Discriminant(Spheres.Coefficients(s, r));
    d >= 0.0 ==> IsSqrtOf(m.sqrt(d), d)
  }

  /**
   * A sphere's hit lies strictly inside the cached box exactly when it is
   * off the three axes through the centre.
   */
  lemma SphereBoxed(m: MathLib, s: Spheres.Sphere, r: Ray, tmin: real)
    requires ExactRoot(m, s, r)
    ensures var u := Unbounded(m, NewSphere(s), r, tmin);
      u.Some? ==> (Boxed(m, NewSphere(s), r, tmin) <==> Spheres.OffAxis(Vectors.Sub(u.value.p, s.center)))
  {
    var u := Unbounded(m, NewSphere(s), r, tmin);
    if u.Some? {
      assert s.radius != 0.0 && Vectors.LengthSquared(r.dir) != 0.0;
      Spheres.HitIsNearestCrossing(m, s, r, tmin, PosInf, tmin);
      Spheres.SurfaceStrictlyInsideBox(s, u.value.p);
    }
  }

  /**
   * A sphere or quad from its constructor whose hit along the ray, if any,
   * avoids the faces of its box: a sphere hit off the axes through the
   * centre, a quad hit with both coordinates strictly inside (0, 1).
   */
  ghost predicate ClearOfFaces(m: MathLib, o: Hittable, r: Ray, tmin: real) {
    var u := Unbounded(m, o, r, tmin);
    match o
    case SphereObj(s, box) =>
      && box == Spheres.BoundingBox(s) && ExactRoot(m, s, r) && Vectors.LengthSquared(r.dir) != 0.0
      && (u.Some? ==> Spheres.OffAxis(Vectors.Sub(u.value.p, s.center)))
    case QuadObj(q, box) =>
      && box == Quads.BoundingBox(q) && Quads.Built(m, q)
      && (u.Some? ==> 0.0 < u.value.u < 1.0 && 0.0 < u.value.v < 1.0)
    case _ => false
  }

  /** Spheres and quads clear of their boxes' faces are what TreeHitIsNearest asks of the leaves. */
  lemma ClearLeavesAreGood(m: MathLib, objects: seq<Hittable>, r: Ray, tmin: real)
    requires forall i :: 0 <= i < |objects| ==> ClearOfFaces(m, objects[i], r, tmin)
    ensures GoodLeaves(m, objects, r, tmin)
  {
    forall i | 0 <= i < |objects|
      ensures Regular(m, objects[i], r, tmin) && Boxed(m, objects[i], r, tmin)
    {
      var o := objects[i];
      assert ClearOfFaces(m, o, r, tmin);
      if o.SphereObj? {
        assert o == NewSphere(o.sphere);
        SphereRegular(m, o.sphere, o.bbox, r, tmin);
        SphereBoxed(m, o.sphere, r, tmin);
      } else {
        assert o == NewQuad(o.quad);
        QuadRegular(m, o.quad, o.bbox, r, tmin);
        QuadBoxed(m, o.quad, r, tmin);
      }
    }
  }

  /** A distance, kept when below `tmax` and +Infinity otherwise. */
  function Below(d: Bound, tmax: Bound): Bound {
    if Lt(d, tmax) then d else PosInf
  }

  /** The lesser of two bounds. */
  function Least(a: Bound, b: Bound): (c: Bound)
    ensures Le(c, a) && Le(c, b) && (c == a || c == b)
  {
    LeTotal(a, b);
    if Lt(b, a) then b else a
  }

  /** The least distance over two groups of objects is the lesser of their least distances. */
  lemma NearestConcat(m: MathLib, a: seq<Hittable>, b: seq<Hittable>, r: Ray, tmin: real)
    ensures Dist(Nearest(m, a + b, r, tmin)) ==
      Least(Dist(Nearest(m, a, r, tmin)), Dist(Nearest(m, b, r, tmin)))
  {
    var da, db := Dist(Nearest(m, a, r, tmin)), Dist(Nearest(m, b, r, tmin));
    var d := Least(da, db);
    NearestIsLeast(m, a, r, tmin);
    NearestIsLeast(m, b, r, tmin);
    NearestIsLeast(m, a + b, r, tmin);
    forall j | 0 <= j < |a + b|
      ensures Le(d, Dist(Unbounded(m, (a + b)[j], r, tmin)))
    {
      if j < |a| {
        assert (a + b)[j] == a[j];
        LeTransitive(d, da, Dist(Unbounded(m, a[j], r, tmin)));
      } else {
        assert (a + b)[j] == b[j - |a|];
        LeTransitive(d, db, Dist(Unbounded(m, b[j - |a|], r, tmin)));
      }
    }
    if d != PosInf {
      if d == da {
        var j :| 0 <= j < |a| && da == Dist(Unbounded(m, a[j], r, tmin));
        assert (a + b)[j] == a[j];
      } else {
        var j :| 0 <= j < |b| && db == Dist(Unbounded(m, b[j], r, tmin));
        assert (a + b)[|a| + j] == b[j];
      }
    }
    assert IsLeastDist(d, m, a + b, r, tmin);
    LeastDistUnique(Dist(Nearest(m, a + b, r, tmin)), d, m, a + b, a + b, r, tmin);
  }

  /**
   * The node's combination of its children: the right child searched up to
   * the left child's hit, the right hit kept when there is one.
   */
  lemma Combine(dl: Bound, dr: Bound, tmax: Bound, left: Bound, bound: Bound, right: Bound)
    requires left == Below(dl, tmax)
    requires bound == if left != PosInf then left else tmax
    requires right == Below(dr, bound)
    ensures (if right != PosInf then right else left) == Below(Least(dl, dr), tmax)
  {
    LeTotal(dl, dr);
    LeTotal(dl, tmax);
    LeTotal(dr, tmax);
  }

  /** A hit's distance is finite exactly when there is a hit, and then it is Fin(t). */
  lemma DistOfHit(o: Option<Record>)
    ensures o.Some? <==> Dist(o) != PosInf
    ensures o.Some? ==> Dist(o) == Fin(o.value.t)
  {}

  /** The nearest hit below a node lies strictly inside the node's box. */
  lemma NearestInBox(m: MathLib, h: Hittable, r: Ray, tmin: real)
    requires GoodLeaves(m, Leaves(h), r, tmin)
    ensures var n := Nearest(m, Leaves(h), r, tmin);
      n.Some? ==> tmin < n.value.t && StrictlyInside(BoundingBox(h), At(r, n.value.t))
  {
    var leaves := Leaves(h);
    var n := Nearest(m, leaves, r, tmin);
    if n.Some? {
      NearestIsLeast(m, leaves, r, tmin);
      DistOfHit(n);
      var j :| 0 <= j < |leaves| && Dist(n) == Dist(Unbounded(m, leaves[j], r, tmin));
      var u := Unbounded(m, leaves[j], r, tmin);
      DistOfHit(u);
      assert Boxed(m, leaves[j], r, tmin);
      LeavesInBox(h);
      SubBoxInside(BoundingBox(leaves[j]), BoundingBox(h), At(r, n.value.t));
    }
  }

  /** When the node's box test fails, no object below it has a hit nearer than `tmax`. */
  lemma PrunedMisses(m: MathLib, h: Hittable, r: Ray, tmin: real, tmax: Bound)
    requires GoodLeaves(m, Leaves(h), r, tmin)
    requires !Boxes.Hit(BoundingBox(h), r, Interval(Fin(tmin), tmax)).hit
    ensures !Lt(Dist(Nearest(m, Leaves(h), r, tmin)), tmax)
  {
    var n := Nearest(m, Leaves(h), r, tmin);
    if Lt(Dist(n), tmax) {
      DistOfHit(n);
      NearestInBox(m, h, r, tmin);
      var t := n.value.t;
      assert Surrounds(Interval(Fin(tmin), tmax), t);
      HitComplete(BoundingBox(h), r, Interval(Fin(tmin), tmax), t);
      assert false;
    }
  }

  /** The objects below each child of a node are among the objects below the node. */
  lemma GoodLeavesSplit(m: MathLib, h: Hittable, r: Ray, tmin: real)
    requires h.Node? && GoodLeaves(m, Leaves(h), r, tmin)
    ensures GoodLeaves(m, Leaves(h.left), r, tmin) && GoodLeaves(m, Leaves(h.right), r, tmin)
  {
    var leaves, l, rt := Leaves(h), Leaves(h.left), Leaves(h.right);
    assert leaves == l + rt;
    forall i | 0 <= i < |l| ensures leaves[i] == l[i] {}
    forall i | 0 <= i < |rt| ensures leaves[|l| + i] == rt[i] {}
  }

  /** An object that is not a node is its own only leaf, and searches regularly. */
  lemma LeafHitIsNearest(m: MathLib, h: Hittable, r: Ray, tmin: real, tmax: Bound)
    requires !h.Node? && GoodLeaves(m, Leaves(h), r, tmin)
    ensures Dist(Scenes.Hit(m, h, r, tmin, tmax)) == Below(Dist(Nearest(m, Leaves(h), r, tmin)), tmax)
  {
    var leaves := Leaves(h);
    assert leaves == [h] && leaves[..0] == [] && leaves[0] == h;
    assert Regular(m, leaves[0], r, tmin);
    DistClip(Unbounded(m, h, r, tmin), tmax);
  }

  /**
   * BVHNode.hit finds the nearest hit below the node inside (tmin, tmax),
   * given objects that search regularly and whose hits lie strictly inside
   * their boxes: the pruning by boxes loses nothing.
   */
  lemma {:induction false} TreeHitIsNearest(m: MathLib, h: Hittable, r: Ray, tmin: real, tmax: Bound)
    requires GoodLeaves(m, Leaves(h), r, tmin)
    ensures Dist(Scenes.Hit(m, h, r, tmin, tmax)) == Below(Dist(Nearest(m, Leaves(h), r, tmin)), tmax)
    decreases h
  {
    if !h.Node? {
      LeafHitIsNearest(m, h, r, tmin, tmax);
    } else {
      var l, rt := Leaves(h.left), Leaves(h.right);
      GoodLeavesSplit(m, h, r, tmin);
      NearestConcat(m, l, rt, r, tmin);
      if !Boxes.Hit(BoundingBox(h), r, Interval(Fin(tmin), tmax)).hit {
        PrunedMisses(m, h, r, tmin, tmax);
      } else {
        var hitLeft := Scenes.Hit(m, h.left, r, tmin, tmax);
        TreeHitIsNearest(m, h.left, r, tmin, tmax);
        DistOfHit(hitLeft);
        var bound := if hitLeft.Some? then Fin(hitLeft.value.t) else tmax;
        var hitRight := Scenes.Hit(m, h.right, r, tmin, bound);
        TreeHitIsNearest(m, h.right, r, tmin, bound);
        DistOfHit(hitRight);
        Combine(Dist(Nearest(m, l, r, tmin)), Dist(Nearest(m, rt, r, tmin)), tmax,
                Dist(hitLeft), bound, Dist(hitRight));
      }
    }
  }

  /**
   * The tree built over a list's objects reports a hit exactly when the list
   * does, at the same t. The record may differ only when two objects are hit
   * at exactly the same t: the list keeps the earlier object, the tree the
   * one its sort put first.
   */
  lemma BvhAgreesWithList(m: MathLib, objects: seq<Hittable>, box: AABB, draw: nat -> real, k: nat,
                          r: Ray, tmin: real, tmax: Bound)
    requires ValidDraws(draw)
    requires forall i :: 0 <= i < |objects| ==> !objects[i].Node?
    requires GoodLeaves(m, objects, r, tmin)
    ensures var tree := FromHittableList(List(objects, box), draw, k).tree;
      var viaTree, viaList := Scenes.Hit(m, tree, r, tmin, tmax), Scenes.Hit(m, List(objects, box), r, tmin, tmax);
      && (viaTree.Some? <==> viaList.Some?)
      && (viaTree.Some? ==> viaTree.value.t == viaList.value.t)
  {
    if |objects| == 0 {
      BuildSpanTotal(m, objects, draw, k, r, tmin, tmax);
    } else {
      NonEmptyAgrees(m, objects, box, draw, k, r, tmin, tmax);
    }
  }

  /**
   * BvhAgreesWithList for a scene of constructed spheres and quads whose
   * hits along the ray stay off the faces of their boxes.
   */
  lemma BvhAgreesOnClearScenes(m: MathLib, objects: seq<Hittable>, box: AABB, draw: nat -> real, k: nat,
                               r: Ray, tmin: real, tmax: Bound)
    requires ValidDraws(draw)
    requires forall i :: 0 <= i < |objects| ==> ClearOfFaces(m, objects[i], r, tmin)
    ensures var tree := FromHittableList(List(objects, box), draw, k).tree;
      var viaTree, viaList := Scenes.Hit(m, tree, r, tmin, tmax), Scenes.Hit(m, List(objects, box), r, tmin, tmax);
      && (viaTree.Some? <==> viaList.Some?)
      && (viaTree.Some? ==> viaTree.value.t == viaList.value.t)
  {
    ClearLeavesAreGood(m, objects, r, tmin);
    assert forall i :: 0 <= i < |objects| ==> !objects[i].Node? by {
      forall i | 0 <= i < |objects| ensures !objects[i].Node? {
        assert ClearOfFaces(m, objects[i], r, tmin);
      }
    }
    BvhAgreesWithList(m, objects, box, draw, k, r, tmin, tmax);
  }

  /** BvhAgreesWithList on a non-empty list, where the tree is Build's. */
  lemma NonEmptyAgrees(m: MathLib, objects: seq<Hittable>, box: AABB, draw: nat -> real, k: nat,
                       r: Ray, tmin: real, tmax: Bound)
    requires |objects| >= 1 && ValidDraws(draw)
    requires forall i :: 0 <= i < |objects| ==> !objects[i].Node?
    requires GoodLeaves(m, objects, r, tmin)
    ensures var tree := Build(objects, draw, k).tree;
      var viaTree, viaList := Scenes.Hit(m, tree, r, tmin, tmax), Scenes.Hit(m, List(objects, box), r, tmin, tmax);
      && (viaTree.Some? <==> viaList.Some?)
      && (viaTree.Some? ==> viaTree.value.t == viaList.value.t)
  {
    var tree := Build(objects, draw, k).tree;
    var leaves := Leaves(tree);
    BuildLeaves(objects, draw, k);
    assert GoodLeaves(m, leaves, r, tmin) by {
      forall i | 0 <= i < |leaves|
        ensures Regular(m, leaves[i], r, tmin) && Boxed(m, leaves[i], r, tmin)
      {
        assert leaves[i] in objects;
      }
    }
    TreeHitIsNearest(m, tree, r, tmin, tmax);
    assert forall j :: 0 <= j < |objects| ==> Regular(m, objects[j], r, tmin);
    ListHitIsNearest(m, objects, box, r, tmin, tmax);
    DistClip(Nearest(m, objects, r, tmin), tmax);
    NearestIsLeast(m, leaves, r, tmin);
    NearestIsLeast(m, objects, r, tmin);
    LeastDistUnique(Dist(Nearest(m, leaves, r, tmin)), Dist(Nearest(m, objects, r, tmin)), m, leaves, objects, r, tmin);
    var viaTree, viaList := Scenes.Hit(m, tree, r, tmin, tmax), Scenes.Hit(m, List(objects, box), r, tmin, tmax);
    DistOfHit(viaTree);
    DistOfHit(viaList);
  }
}
