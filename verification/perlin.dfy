/**
 * Perlin noise (src/perlin.ts): three permutation tables of 0..255, 256
 * lattice vectors, lattice hashing by `& 255` and XOR, Hermite smoothing and
 * trilinear interpolation, and turbulence as a weighted sum of octaves.
 * The lattice vectors come from Vec3.randomUnitVector, which the model takes
 * as given; the table shuffles take their Math.random draws as input.
 */
module Perlin {
  import opened Numeric
  import opened Vectors

  /** pointCount. */
  const PointCount: nat := 256

  /** 0, 1, ..., n - 1. */
  function Range(n: nat): (s: seq<int>)
    ensures |s| == n && forall i :: 0 <= i < n ==> s[i] == i
  {
    seq(n, i => i)
  }

  /** `s` holds each of 0..n-1 exactly once. */
  predicate IsPermutation(s: seq<int>, n: nat) {
    |s| == n && multiset(s) == multiset(Range(n))
  }

  /** Every entry of a permutation of 0..n-1 is a valid index below n. */
  lemma PermutationInRange(s: seq<int>, n: nat, i: int)
    requires IsPermutation(s, n) && 0 <= i < n
    ensures 0 <= s[i] < n
  {
    assert s[i] in multiset(s);
    assert s[i] in multiset(Range(n));
    var k :| 0 <= k < n && Range(n)[k] == s[i];
  }

  /** Exchanges positions i and j, as the three assignments with `tmp` do. */
  function Swap(s: seq<int>, i: int, j: int): (r: seq<int>)
    requires 0 <= i < |s| && 0 <= j < |s|
    ensures |r| == |s| && r[i] == s[j] && r[j] == s[i]
    ensures forall k :: 0 <= k < |s| && k != i && k != j ==> r[k] == s[k]
    ensures multiset(r) == multiset(s)
  {
    s[i := s[j]][j := s[i]]
  }

  /** The first loop of generatePermutation: arr[i] = i over an array of n zeros. */
  method Identity(n: nat) returns (arr: seq<int>)
    ensures arr == Range(n)
  {
    arr := seq(n, _ => 0);
    var i := 0;
    while i < n
      invariant 0 <= i <= n && |arr| == n
      invariant forall k :: 0 <= k < i ==> arr[k] == k
    {
      arr := arr[i := i];
      i := i + 1;
    }
  }

  /**
   * The state of generatePermutation's second loop before it handles
   * position i: positions above i are settled and none is a fixed point,
   * position i holds a value >= i, and every position below i holds its own
   * index or a value above i.
   */
  predicate SattoloInvariant(arr: seq<int>, n: nat, i: int) {
    -1 <= i < n && |arr| == n
    && multiset(arr) == multiset(Range(n))
    && (forall j :: i < j < n && 0 <= j ==> arr[j] != j)
    && (0 <= i ==> arr[i] >= i)
    && (forall p :: 0 <= p < i ==> arr[p] == p || arr[p] > i)
    && (n >= 2 && i == 0 ==> arr[0] != 0)
  }

  /** Swapping position i with any target below it keeps the invariant for i - 1. */
  lemma SattoloStep(arr: seq<int>, n: nat, i: int, target: int)
    requires SattoloInvariant(arr, n, i) && 1 <= i && 0 <= target < i
    ensures SattoloInvariant(Swap(arr, i, target), n, i - 1)
  {
    var next := Swap(arr, i, target);
    assert next[i] == arr[target] && next[i] != i;
    assert next[i - 1] >= i - 1 by {
      if target != i - 1 {
        assert next[i - 1] == arr[i - 1];
      }
    }
    forall p | 0 <= p < i - 1
      ensures next[p] == p || next[p] > i - 1
    {
      if p != target {
        assert next[p] == arr[p];
      }
    }
  }

  /**
   * generatePermutation(arr, n) as written: for i from n - 1 down to 1 it
   * swaps position i with randomInt(i), which never returns i. The result is
   * a permutation, and for n >= 2 it never has a fixed point, so the
   * identity and every other permutation with a fixed point are unreachable
   * (Sattolo's shuffle). `draws[i]` is the Math.random value used at i.
   */
  method GeneratePermutation(n: nat, draws: seq<real>) returns (arr: seq<int>)
    requires |draws| >= n
    requires forall i :: 0 <= i < |draws| ==> 0.0 <= draws[i] < 1.0
    ensures IsPermutation(arr, n)
    ensures n >= 2 ==> forall p :: 0 <= p < n ==> arr[p] != p
  {
    arr := Identity(n);
    var i: int := n - 1;
    while i > 0
      invariant SattoloInvariant(arr, n, i)
    {
      var target := RandomInt(i, draws[i]);
      SattoloStep(arr, n, i, target);
      arr := Swap(arr, i, target);
      i := i - 1;
    }
  }

  /**
   * The evidently intended Fisher-Yates shuffle: position i is swapped with
   * randomInt(i + 1), which may be i itself. The result is a permutation,
   * and when every draw picks its own position the identity comes out.
   */
  method GeneratePermutationFisherYates(n: nat, draws: seq<real>) returns (arr: seq<int>)
    requires |draws| >= n
    requires forall i :: 0 <= i < |draws| ==> 0.0 <= draws[i] < 1.0
    ensures IsPermutation(arr, n)
    ensures (forall i :: 1 <= i < n ==> RandomInt(i + 1, draws[i]) == i) ==> arr == Range(n)
  {
    arr := Identity(n);
    var i: int := n - 1;
    while i > 0
      invariant -1 <= i < n && |arr| == n
      invariant multiset(arr) == multiset(Range(n))
      invariant (forall k :: 1 <= k < n ==> RandomInt(k + 1, draws[k]) == k) ==> arr == Range(n)
    {
      var target := RandomInt(i + 1, draws[i]);
      arr := Swap(arr, i, target);
      i := i - 1;
    }
  }

  // ---------------------------------------------------------------------------
  // Lattice hashing

  /** ToInt32: the number wrapped into [-2^31, 2^31), as bitwise operators first do. */
  function ToInt32(k: int): (r: int)
    ensures -0x8000_0000 <= r < 0x8000_0000
    ensures (r - k) % 0x1_0000_0000 == 0
  {
    (k + 0x8000_0000) % 0x1_0000_0000 - 0x8000_0000
  }

  /**
   * JavaScript `k & 255`: the low eight bits of the two's-complement 32-bit
   * value, which is that value's residue modulo 256.
   */
  function JsAnd255(k: int): (r: int)
    ensures 0 <= r < 256
  {
    ToInt32(k) % 256
  }

  /** `k & 255` is k modulo 256 for every integer, negative and beyond 32 bits included. */
  lemma And255IsMod(k: int)
    ensures JsAnd255(k) == k % 256
  {
    var r := ToInt32(k);
    var q := (r - k) / 0x1_0000_0000;
    assert r == k + q * 0x1_0000_0000;
    assert r == k + (q * 0x100_0000) * 256;
  }

  /** Bitwise XOR of two non-negative integers, one binary digit at a time. */
  function Xor(a: nat, b: nat): nat
    decreases a + b
  {
    if a == 0 && b == 0 then 0 else (a % 2 + b % 2) % 2 + 2 * Xor(a / 2, b / 2)
  }

  /** 2^k as an integer. */
  function Pow2(k: nat): nat {
    if k == 0 then 1 else 2 * Pow2(k - 1)
  }

  /** XOR of two values below 2^k stays below 2^k. */
  lemma {:induction false} XorBelow(a: nat, b: nat, k: nat)
    requires a < Pow2(k) && b < Pow2(k)
    ensures Xor(a, b) < Pow2(k)
    decreases k
  {
    if !(a == 0 && b == 0) {
      assert k > 0;
      XorBelow(a / 2, b / 2, k - 1);
    }
  }

  /** The lowest digit and the remaining digits of a XOR. */
  lemma XorDigits(a: nat, b: nat)
    ensures Xor(a, b) % 2 == (a % 2 + b % 2) % 2
    ensures Xor(a, b) / 2 == Xor(a / 2, b / 2)
  {}

  /** Two naturals with the same lowest digit and the same remaining digits are equal. */
  lemma SameDigits(x: nat, y: nat)
    requires x % 2 == y % 2 && x / 2 == y / 2
    ensures x == y
  {}

  /** XOR is commutative. */
  lemma {:induction false} XorCommutative(a: nat, b: nat)
    ensures Xor(a, b) == Xor(b, a)
    decreases a + b
  {
    if !(a == 0 && b == 0) {
      XorCommutative(a / 2, b / 2);
    }
  }

  /** 0 is XOR's identity and every value is its own inverse. */
  lemma {:induction false} XorIdentityInverse(a: nat)
    ensures Xor(a, 0) == a && Xor(a, a) == 0
    decreases a
  {
    if a > 0 {
      XorIdentityInverse(a / 2);
    }
  }

  /** A digit XOR-ed twice with the same digit comes back. */
  lemma CancelDigits(a: nat, b: nat, x: nat, l: nat)
    requires x % 2 == (a % 2 + b % 2) % 2 && l % 2 == (x % 2 + b % 2) % 2
    requires l / 2 == a / 2
    ensures l == a
  {
    assert l % 2 == a % 2;
  }

  /** XOR-ing the same value twice restores the original. */
  lemma {:induction false} XorCancel(a: nat, b: nat)
    ensures Xor(Xor(a, b), b) == a
    decreases a + b
  {
    if a + b > 0 {
      var x := Xor(a, b);
      XorDigits(a, b);
      XorDigits(x, b);
      XorCancel(a / 2, b / 2);
      CancelDigits(a, b, x, Xor(x, b));
    }
  }

  /** permX[a] ^ permY[b] ^ permZ[c] for entries in 0..255, evaluated left to right. */
  function Xor3(a: int, b: int, c: int): (r: int)
    requires 0 <= a < 256 && 0 <= b < 256 && 0 <= c < 256
    ensures 0 <= r < 256
  {
    assert Pow2(8) == 256;
    XorBelow(a, b, 8);
    XorBelow(Xor(a, b), c, 8);
    Xor(Xor(a, b), c)
  }

  /** Hashing is symmetric in the x and y entries, and a repeated entry cancels. */
  lemma Xor3Laws(a: int, b: int, c: int)
    requires 0 <= a < 256 && 0 <= b < 256 && 0 <= c < 256
    ensures Xor3(a, b, c) == Xor3(b, a, c)
    ensures Xor3(a, b, b) == a
  {
    XorCommutative(a, b);
    XorCancel(a, b);
  }

  // ---------------------------------------------------------------------------
  // Tables and noise

  datatype Tables = Tables(randvecs: seq<Vec3>, permX: seq<int>, permY: seq<int>, permZ: seq<int>)

  /** What the constructor leaves: 256 vectors and three permutations of 0..255. */
  predicate Valid(t: Tables) {
    |t.randvecs| == PointCount
    && IsPermutation(t.permX, PointCount)
    && IsPermutation(t.permY, PointCount)
    && IsPermutation(t.permZ, PointCount)
  }

  /**
   * new Perlin(): the lattice vectors as supplied, and the three tables
   * shuffled with the three runs of draws, by the corrected Fisher–Yates
   * loop. The source's loop, GeneratePermutation, leaves tables just as
   * Valid.
   */
  method NewTables(randvecs: seq<Vec3>, dx: seq<real>, dy: seq<real>, dz: seq<real>) returns (t: Tables)
    requires |randvecs| == PointCount
    requires |dx| >= PointCount && |dy| >= PointCount && |dz| >= PointCount
    requires forall i :: 0 <= i < |dx| ==> 0.0 <= dx[i] < 1.0
    requires forall i :: 0 <= i < |dy| ==> 0.0 <= dy[i] < 1.0
    requires forall i :: 0 <= i < |dz| ==> 0.0 <= dz[i] < 1.0
    ensures Valid(t) && t.randvecs == randvecs
  {
    var px := GeneratePermutationFisherYates(PointCount, dx);
    var py := GeneratePermutationFisherYates(PointCount, dy);
    var pz := GeneratePermutationFisherYates(PointCount, dz);
    t := Tables(randvecs, px, py, pz);
  }

  /** The hermitian smoothing u * u * (3 - 2 u). */
  function Hermite(t: real): real {
    t * t * (3.0 - 2.0 * t)
  }

  /** The Hermite step maps [0, 1] into [0, 1] and fixes both ends. */
  lemma HermiteRange(t: real)
    requires 0.0 <= t <= 1.0
    ensures 0.0 <= Hermite(t) <= 1.0
    ensures Hermite(0.0) == 0.0 && Hermite(1.0) == 1.0
  {
    var sq := t * t;
    ProductSign(t, t);
    ProductSign(sq, 3.0 - 2.0 * t);
    var s := 1.0 - t;
    var sq1 := s * s;
    ProductSign(s, s);
    ProductSign(sq1, 1.0 + 2.0 * t);
    assert 1.0 - Hermite(t) == sq1 * (1.0 + 2.0 * t);
  }

  /** The fractional part p - floor(p), in [0, 1). */
  function Fraction(p: real): (f: real)
    ensures 0.0 <= f < 1.0
  {
    p - Floor(p) as real
  }

  /** The lattice vector for the corner (i + di, j + dj, k + dk). */
  function Corner(t: Tables, i: int, j: int, k: int): Vec3
    requires Valid(t)
  {
    PermutationInRange(t.permX, PointCount, JsAnd255(i));
    PermutationInRange(t.permY, PointCount, JsAnd255(j));
    PermutationInRange(t.permZ, PointCount, JsAnd255(k));
    t.randvecs[Xor3(t.permX[JsAnd255(i)], t.permY[JsAnd255(j)], t.permZ[JsAnd255(k)])]
  }

  /** The eight lattice vectors c[di][dj][dk] around a cell. */
  datatype Cube = Cube(c000: Vec3, c001: Vec3, c010: Vec3, c011: Vec3,
                       c100: Vec3, c101: Vec3, c110: Vec3, c111: Vec3)
  {
    function At(i: int, j: int, k: int): Vec3 {
      if i == 0 then
        if j == 0 then (if k == 0 then c000 else c001) else (if k == 0 then c010 else c011)
      else
        if j == 0 then (if k == 0 then c100 else c101) else (if k == 0 then c110 else c111)
    }
  }

  /** The interpolation weight i * s + (1 - i) * (1 - s) of corner index i in {0, 1}. */
  function Weight(i: int, s: real): real {
    (i as real) * s + (1.0 - i as real) * (1.0 - s)
  }

  /** One term of perlinInterp's sum. */
  function Term(c: Cube, i: int, j: int, k: int, u: real, v: real, w: real, uu: real, vv: real, ww: real): real {
    Weight(i, uu) * Weight(j, vv) * Weight(k, ww) * Dot(c.At(i, j, k), Vec3(u - i as real, v - j as real, w - k as real))
  }

  /**
   * perlinInterp(c, u, v, w): smooths u, v, w again for the weights, while
   * the offsets use u, v, w as given.
   */
  function PerlinInterp(c: Cube, u: real, v: real, w: real): real {
    var uu, vv, ww := Hermite(u), Hermite(v), Hermite(w);
    Term(c, 0, 0, 0, u, v, w, uu, vv, ww) + Term(c, 0, 0, 1, u, v, w, uu, vv, ww)
    + Term(c, 0, 1, 0, u, v, w, uu, vv, ww) + Term(c, 0, 1, 1, u, v, w, uu, vv, ww)
    + Term(c, 1, 0, 0, u, v, w, uu, vv, ww) + Term(c, 1, 0, 1, u, v, w, uu, vv, ww)
    + Term(c, 1, 1, 0, u, v, w, uu, vv, ww) + Term(c, 1, 1, 1, u, v, w, uu, vv, ww)
  }

  /** The eight trilinear weights sum to 1. */
  lemma WeightsSumToOne(uu: real, vv: real, ww: real)
    ensures Weight(0, uu) + Weight(1, uu) == 1.0
    ensures Weight(0, uu) * Weight(0, vv) * Weight(0, ww) + Weight(0, uu) * Weight(0, vv) * Weight(1, ww)
          + Weight(0, uu) * Weight(1, vv) * Weight(0, ww) + Weight(0, uu) * Weight(1, vv) * Weight(1, ww)
          + Weight(1, uu) * Weight(0, vv) * Weight(0, ww) + Weight(1, uu) * Weight(0, vv) * Weight(1, ww)
          + Weight(1, uu) * Weight(1, vv) * Weight(0, ww) + Weight(1, uu) * Weight(1, vv) * Weight(1, ww)
          == 1.0
  {
    var a0, a1 := 1.0 - uu, uu;
    var b0, b1 := 1.0 - vv, vv;
    var c0, c1 := 1.0 - ww, ww;
    assert Weight(0, uu) == a0 && Weight(1, uu) == a1;
    assert Weight(0, vv) == b0 && Weight(1, vv) == b1;
    assert Weight(0, ww) == c0 && Weight(1, ww) == c1;
    assert a0 * b0 * c0 + a0 * b0 * c1 == a0 * b0;
    assert a0 * b1 * c0 + a0 * b1 * c1 == a0 * b1;
    assert a1 * b0 * c0 + a1 * b0 * c1 == a1 * b0;
    assert a1 * b1 * c0 + a1 * b1 * c1 == a1 * b1;
    assert a0 * b0 + a0 * b1 == a0;
    assert a1 * b0 + a1 * b1 == a1;
  }

  /** The corners of the cell holding `p`. */
  function CellCorners(t: Tables, p: Point3): Cube
    requires Valid(t)
  {
    var i, j, k := Floor(p.x), Floor(p.y), Floor(p.z);
    Cube(Corner(t, i, j, k), Corner(t, i, j, k + 1), Corner(t, i, j + 1, k), Corner(t, i, j + 1, k + 1),
         Corner(t, i + 1, j, k), Corner(t, i + 1, j, k + 1), Corner(t, i + 1, j + 1, k), Corner(t, i + 1, j + 1, k + 1))
  }

  /** noise(p): smoothed fractions, the cell's corners, and perlinInterp. */
  function Noise(t: Tables, p: Point3): real
    requires Valid(t)
  {
    PerlinInterp(CellCorners(t, p), Hermite(Fraction(p.x)), Hermite(Fraction(p.y)), Hermite(Fraction(p.z)))
  }

  /** With all three fractions zero, perlinInterp is zero. */
  lemma PerlinInterpAtCorner(c: Cube)
    ensures PerlinInterp(c, 0.0, 0.0, 0.0) == 0.0
  {
    assert Hermite(0.0) == 0.0;
    assert Weight(1, 0.0) == 0.0 && Weight(0, 0.0) == 1.0;
    assert Dot(c.At(0, 0, 0), Vec3(0.0, 0.0, 0.0)) == 0.0;
  }

  /** At a lattice point every weight but corner (0,0,0)'s is zero, and its offset is zero. */
  lemma NoiseZeroAtLattice(t: Tables, p: Point3)
    requires Valid(t)
    requires p.x == Floor(p.x) as real && p.y == Floor(p.y) as real && p.z == Floor(p.z) as real
    ensures Noise(t, p) == 0.0
  {
    assert Hermite(Fraction(p.x)) == 0.0 && Hermite(Fraction(p.y)) == 0.0 && Hermite(Fraction(p.z)) == 0.0 by {
      assert Fraction(p.x) == 0.0 && Fraction(p.y) == 0.0 && Fraction(p.z) == 0.0;
      assert Hermite(0.0) == 0.0;
    }
    PerlinInterpAtCorner(CellCorners(t, p));
  }

  // ---------------------------------------------------------------------------
  // Turbulence

  /** turb's default depth. */
  const DefaultDepth: int := 7

  /**
   * turb's loop from a given state, for a noise function `noise`: `n` more
   * octaves, each adding weight * noise(tempP), then halving the weight and
   * doubling tempP (a copy of p, so p itself is never changed).
   */
  function TurbLoop(noise: Point3 -> real, tempP: Point3, weight: real, n: nat): real
    decreases n
  {
    if n == 0 then 0.0
    else weight * noise(tempP) + TurbLoop(noise, Scale(tempP, 2.0), weight * 0.5, n - 1)
  }

  /** turb(p, depth): |accum|; a depth of zero or below runs no octave. */
  function Turb(t: Tables, p: Point3, depth: int): (r: real)
    requires Valid(t)
    ensures r >= 0.0
    ensures depth <= 0 ==> r == 0.0
  {
    Abs(TurbLoop(q => NoiseOf(t, q), p, 1.0, if depth > 0 then depth as nat else 0))
  }

  /** noise(p) for tables that may not be valid: 0 outside the model's domain. */
  function NoiseOf(t: Tables, p: Point3): real {
    if Valid(t) then Noise(t, p) else 0.0
  }

  /** 2^i and 0.5^i. */
  function Two(i: nat): real {
    if i == 0 then 1.0 else 2.0 * Two(i - 1)
  }

  function Half(i: nat): real {
    if i == 0 then 1.0 else 0.5 * Half(i - 1)
  }

  /** Octaves k .. k + n - 1 written out: the sum of 0.5^i noise(2^i p). */
  function Octaves(noise: Point3 -> real, p: Point3, k: nat, n: nat): real
    decreases n
  {
    if n == 0 then 0.0
    else Half(k) * noise(Scale(p, Two(k))) + Octaves(noise, p, k + 1, n - 1)
  }

  /** turb's loop, started at octave k, is the closed-form sum of the remaining octaves. */
  lemma {:induction false} TurbLoopIsOctaves(noise: Point3 -> real, p: Point3, k: nat, n: nat)
    ensures TurbLoop(noise, Scale(p, Two(k)), Half(k), n) == Octaves(noise, p, k, n)
    decreases n
  {
    if n > 0 {
      var q := Scale(p, Two(k));
      assert Scale(q, 2.0) == Scale(p, Two(k + 1)) by {
        assert Two(k + 1) == 2.0 * Two(k);
      }
      assert Half(k) * 0.5 == Half(k + 1);
      TurbLoopIsOctaves(noise, p, k + 1, n - 1);
    }
  }

  /** turb(p, d) = |sum over i < d of 0.5^i noise(2^i p)|. */
  lemma TurbClosedForm(t: Tables, p: Point3, depth: nat)
    requires Valid(t)
    ensures Turb(t, p, depth) == Abs(Octaves(q => NoiseOf(t, q), p, 0, depth))
  {
    assert Scale(p, Two(0)) == p;
    TurbLoopIsOctaves(q => NoiseOf(t, q), p, 0, depth);
  }
}
