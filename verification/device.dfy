/**
 * The render loop of device.js. The progressive accumulator blends
 * successive frames of a still camera into the back buffer. The back
 * buffer is a flat sequence of channels, four per pixel (red, green, blue,
 * alpha), in rows of `width` pixels. Gamma correction is applied per
 * channel. The viewport grid aims each pixel's rays, and each pixel
 * averages its samples. Canvas calls are left out. Math.random's draws are
 * inputs: jitter draws and, for each ray, the samples its bounces consume.
 */
module Devices {
  import opened Results
  import opened Numeric
  import opened Vectors
  import Colors
  import opened Rays
  import opened Materials
  import Cameras

  // ---------------------------------------------------------------------------
  // The progressive accumulator

  /**
   * numProgressiveSamples (`count`), prevFrameWeight, newFrameWeight and
   * maxProgressiveSamples (`window`).
   */
  datatype Accumulator = Accumulator(count: int, prevWeight: real, newWeight: real, window: int)

  /** The window the constructor sets. */
  const MaxProgressiveSamples: int := 30

  /** The constructor's state: nothing counted, the new frame taken whole. */
  const InitialAccumulator: Accumulator := Accumulator(0, 0.0, 1.0, MaxProgressiveSamples)

  /**
   * A window of at least one frame and a count inside it. The weights sum
   * to 1, and once a frame has been counted the new frame weighs 1/count.
   */
  predicate Steady(a: Accumulator) {
    && 1 <= a.window && 0 <= a.count <= a.window
    && a.prevWeight + a.newWeight == 1.0
    && (a.count >= 1 ==> a.newWeight * (a.count as real) == 1.0)
  }

  /** The count a still frame reaches: one more, capped by the window. */
  function NextCount(a: Accumulator): int {
    if a.count + 1 < a.window then a.count + 1 else a.window
  }

  /**
   * The head of render. A moving camera resets the count and keeps the
   * weights, which writePixel does not read. A still camera counts the frame,
   * capped by the window, and gives the new frame the weight 1/n. A count of
   * 0, which a window of 0 produces, divides by zero (the source's weights
   * become infinite).
   */
  function BeginFrame(a: Accumulator, moving: bool): (r: Result<Accumulator>)
    ensures moving ==> r == Ok(a.(count := 0))
    ensures !moving ==> (r.Ok? <==> NextCount(a) != 0)
    ensures !moving && r.Ok? ==>
      && r.value.window == a.window
      && r.value.count == NextCount(a)
      && r.value.prevWeight + r.value.newWeight == 1.0
      && r.value.newWeight * (r.value.count as real) == 1.0
  {
    if moving then Ok(a.(count := 0))
    else
      var n := NextCount(a);
      if n == 0 then Error("newFrameWeight = 1 / 0")
      else
        var w := 1.0 / (n as real);
        Ok(Accumulator(n, 1.0 - w, w, a.window))
  }

  /**
   * Every frame keeps a steady accumulator steady. A still frame's count
   * lies in [1, window]: one more than before until the window is reached.
   */
  lemma BeginFrameSteady(a: Accumulator, moving: bool)
    requires Steady(a)
    ensures BeginFrame(a, moving).Ok? && Steady(BeginFrame(a, moving).value)
    ensures !moving ==> 1 <= BeginFrame(a, moving).value.count <= a.window
    ensures !moving && a.count < a.window ==> BeginFrame(a, moving).value.count == a.count + 1
  {}

  /** The constructor's accumulator is steady. */
  lemma InitialSteady()
    ensures Steady(InitialAccumulator)
  {}

  /**
   * changeProgressRenderingWindowSize: a new window, everything else as it
   * was. The window is not checked: 0 makes the next still frame divide by
   * zero.
   */
  function SetWindow(a: Accumulator, window: int): (r: Accumulator)
    ensures r.window == window && r.(window := a.window) == a
  {
    a.(window := window)
  }

  /**
   * Shrinking the window below the count is repaired by the next still
   * frame, which clamps the count to the new window. A window of 0 makes
   * that frame fail.
   */
  lemma SetWindowRecovers(a: Accumulator, window: int)
    requires Steady(a)
    ensures window >= 1 ==> BeginFrame(SetWindow(a, window), false).Ok?
    ensures window >= 1 ==> Steady(BeginFrame(SetWindow(a, window), false).value)
    ensures window == 0 ==> BeginFrame(SetWindow(a, window), false).Error?
  {}

  /** Once the window is full, each still frame weighs 1/window: an exponential moving average. */
  lemma SaturatedWeight(a: Accumulator)
    requires Steady(a) && a.count == a.window
    ensures BeginFrame(a, false).Ok?
    ensures var r := BeginFrame(a, false).value;
      r.count == a.window && r.newWeight * (a.window as real) == 1.0
  {}

  /** One channel of writePixelProgressive: the stored value against the new value scaled to 0..255. */
  function Blend(a: Accumulator, prev: real, value: real): real {
    a.prevWeight * prev + a.newWeight * value * 255.0
  }

  /**
   * With weights summing to 1, a blend lies prevWeight of the way from the
   * new value back to the stored one: a new weight of 1 stores the new value,
   * and a stored value equal to the new one stays.
   */
  lemma BlendTowards(a: Accumulator, prev: real, value: real)
    requires a.prevWeight + a.newWeight == 1.0
    ensures Blend(a, prev, value) - 255.0 * value == a.prevWeight * (prev - 255.0 * value)
  {
    var p, n := a.prevWeight, a.newWeight;
    assert n * value * 255.0 == (1.0 - p) * (255.0 * value);
  }

  /** The sum of a sequence of channel values. */
  function Sum(s: seq<real>): real {
    if |s| == 0 then 0.0 else Sum(s[..|s| - 1]) + s[|s| - 1]
  }

  // ---------------------------------------------------------------------------
  // Bytes of the image data

  /** One channel of the canvas's image data, a Uint8ClampedArray. */
  type Byte = b: int | 0 <= b < 256

  /** The canvas's image data: four bytes per pixel (red, green, blue, alpha). */
  type Buffer = seq<Byte>

  /**
   * Rounding to the nearest integer, ties to the even one, as a
   * Uint8ClampedArray store rounds.
   */
  function RoundHalfEven(v: real): (n: int)
    ensures -0.5 <= (n as real) - v <= 0.5
  {
    var f := v.Floor;
    var frac := v - f as real;
    if frac < 0.5 then f
    else if frac > 0.5 then f + 1
    else if f % 2 == 0 then f
    else f + 1
  }

  /**
   * What a Uint8ClampedArray stores for the number v: clamped to [0, 255],
   * then rounded half to even.
   */
  function ClampByte(v: real): (b: Byte)
    ensures v <= 0.0 ==> b == 0
    ensures v >= 255.0 ==> b == 255
    ensures 0.0 <= v <= 255.0 ==> -0.5 <= (b as real) - v <= 0.5
  {
    if v <= 0.0 then 0
    else if v >= 255.0 then 255
    else RoundHalfEven(v)
  }

  /** A whole number in range is stored as it is. */
  lemma ClampByteExact(n: int)
    requires 0 <= n < 256
    ensures ClampByte(n as real) == n
  {}

  /**
   * Rounding is stable towards its own result: any number between v and
   * the byte v rounds to rounds to that byte as well.
   */
  lemma ClampByteBetween(v: real, w: real)
    requires 0.0 <= v <= 255.0
    requires (ClampByte(v) as real <= w <= v) || (v <= w <= ClampByte(v) as real)
    ensures ClampByte(w) == ClampByte(v)
  {
    var b := ClampByte(v);
    if 0.0 < w < 255.0 && 0.0 < v < 255.0 {
      var f, g := v.Floor, w.Floor;
      if w == b as real {
        assert g == b;
      } else if w < v {
        assert g == b || g == f;
      } else if v < w {
        assert g == f;
      }
    }
  }

  // ---------------------------------------------------------------------------
  // Still frames on one channel

  /**
   * One still frame for one channel: count the frame, then store the blend
   * of the stored byte and the frame's value (0..1) as a byte.
   */
  function StillFrame(state: (Accumulator, Byte), value: real): Result<(Accumulator, Byte)> {
    var a1 :- BeginFrame(state.0, false);
    Ok((a1, ClampByte(Blend(a1, state.1 as real, value))))
  }

  /**
   * Still frames in a row from accumulator `a`, starting from the stored
   * byte `stored` of one channel. Each frame's value (0..1) is in `frames`.
   * Returns the accumulator and the stored byte after the last.
   */
  function Accumulate(a: Accumulator, stored: Byte, frames: seq<real>): Result<(Accumulator, Byte)> {
    if |frames| == 0 then Ok((a, stored))
    else
      var before :- Accumulate(a, stored, frames[..|frames| - 1]);
      StillFrame(before, frames[|frames| - 1])
  }

  /** The rounding slack of k frames of a running mean, summed: k (k + 1) / 4. */
  function MeanSlack(k: real): real {
    k * (k + 1.0) / 4.0
  }

  /**
   * k times the stored value is 255 times the sum of k frames, up to the
   * slack of k frames.
   */
  predicate MeanWithin(k: real, stored: real, total: real) {
    var e := k * stored - 255.0 * total;
    -MeanSlack(k) <= e <= MeanSlack(k)
  }

  /**
   * One frame of the running mean, with rounding. If n - 1 times the stored
   * value v is within the slack of n - 1 frames, then n times b, the blend x
   * (the new frame weighing 1 / n) rounded, is within the slack of n frames.
   */
  lemma MeanStep(n: real, p: real, w: real, v: real, total: real, s: real, x: real, b: real)
    requires n >= 1.0 && w * n == 1.0 && p + w == 1.0
    requires MeanWithin(n - 1.0, v, total)
    requires x == p * v + w * s * 255.0 && -0.5 <= b - x <= 0.5
    ensures MeanWithin(n, b, total + s)
  {
    var e := b - x;
    BlendTimesCount(n, p, w, v, s);
    ScaleHalf(n, e);
    Distrib(n, x, e);
    var nb, nx, ne, m := n * b, n * x, n * e, (n - 1.0) * v;
    assert nb == nx + ne;
    assert nx == m + 255.0 * s;
    assert -(n / 2.0) <= ne <= n / 2.0;
    SlackStep(n);
    MeanLinear(nb, nx, ne, m, total, s, MeanSlack(n - 1.0), n / 2.0);
  }

  /** One more frame, the n-th, adds n / 2 to the slack. */
  lemma SlackStep(n: real)
    ensures MeanSlack(n) == MeanSlack(n - 1.0) + n / 2.0
  {
    assert n * (n + 1.0) == (n - 1.0) * (n - 1.0 + 1.0) + 2.0 * n;
  }

  /** n times a blend whose new weight is 1/n: n - 1 stored values plus the new one. */
  lemma BlendTimesCount(n: real, p: real, w: real, v: real, s: real)
    requires w * n == 1.0 && p + w == 1.0
    ensures n * (p * v + w * s * 255.0) == (n - 1.0) * v + 255.0 * s
  {
    assert p * n == n - 1.0;
    assert n * (p * v + w * s * 255.0) == (p * n) * v + (w * n) * (s * 255.0);
  }

  /** n times a rounding error of at most one half is at most n / 2. */
  lemma ScaleHalf(n: real, e: real)
    requires n >= 0.0 && -0.5 <= e <= 0.5
    ensures -(n / 2.0) <= n * e <= n / 2.0
  {
    MulMonoReal(n, -0.5, e);
    MulMonoReal(n, e, 0.5);
  }

  /** The linear part of MeanStep, with every product already named. */
  lemma MeanLinear(nb: real, nblend: real, ne: real, m: real, total: real, s: real, slack: real, half: real)
    requires nb == nblend + ne && nblend == m + 255.0 * s
    requires -slack <= m - 255.0 * total <= slack && -half <= ne <= half
    ensures -(slack + half) <= nb - 255.0 * (total + s) <= slack + half
  {}

  lemma Distrib(n: real, x: real, y: real)
    ensures n * (x + y) == n * x + n * y
  {}

  /** Multiplying by a non-negative number keeps the order. */
  lemma MulMonoReal(a: real, x: real, y: real)
    requires a >= 0.0 && x <= y
    ensures a * x <= a * y
  {
    assert a * y - a * x == a * (y - x);
  }

  lemma ProductRange(a: real, x: real, hi: real)
    requires a >= 0.0 && 0.0 <= x <= hi
    ensures 0.0 <= a * x <= a * hi
  {
    MulMonoReal(a, x, hi);
  }

  lemma Scale255(s: real)
    requires 0.0 <= s <= 1.0
    ensures 0.0 <= s * 255.0 <= 255.0
  {}

  lemma AddBounds(x: real, y: real, bx: real, by_: real, total: real)
    requires 0.0 <= x <= bx && 0.0 <= y <= by_ && bx + by_ == total
    ensures 0.0 <= x + y <= total
  {}

  lemma SplitWeight(p: real, w: real, c: real)
    requires p + w == 1.0
    ensures p * c + w * c == c
  {
    assert p * c + w * c == (p + w) * c;
  }

  /** With weights 1 - w and w, w in (0, 1], blending a byte with a value in 0..1 stays in 0..255. */
  lemma BlendInRange(p: real, w: real, v: real, s: real)
    requires 0.0 < w <= 1.0 && p + w == 1.0
    requires 0.0 <= v <= 255.0 && 0.0 <= s <= 1.0
    ensures 0.0 <= p * v + w * s * 255.0 <= 255.0
  {
    Scale255(s);
    ProductRange(p, v, 255.0);
    ProductRange(w, s * 255.0, 255.0);
    SplitWeight(p, w, 255.0);
    AddBounds(p * v, w * (s * 255.0), p * 255.0, w * 255.0, 255.0);
    assert w * s * 255.0 == w * (s * 255.0);
  }

  /** A weight that is 1/n for a count n >= 1 lies in (0, 1]. */
  lemma CountWeight(n: real, w: real)
    requires n >= 1.0 && w * n == 1.0
    ensures 0.0 < w <= 1.0
  {
    PositiveFactor(n, w);
    MulMonoReal(w, 1.0, n);
  }

  lemma PositiveFactor(a: real, b: real)
    requires a > 0.0 && a * b > 0.0
    ensures b > 0.0
  {}

  lemma NonNegativeFactor(a: real, b: real)
    requires a > 0.0 && a * b >= 0.0
    ensures b >= 0.0
  {}

  /** Dividing both sides by a positive number keeps the order. */
  lemma CancelLe(k: real, x: real, y: real)
    requires k > 0.0 && k * x <= k * y
    ensures x <= y
  {
    assert k * y - k * x == k * (y - x);
    NonNegativeFactor(k, y - x);
  }

  /** A counted frame's weights: the new weight in (0, 1], the old one 1 minus it. */
  lemma FrameWeights(a: Accumulator)
    requires Steady(a) && a.count >= 1
    ensures 0.0 < a.newWeight <= 1.0 && 0.0 <= a.prevWeight < 1.0
  {
    CountWeight(a.count as real, a.newWeight);
  }

  /** A still frame keeps the accumulator steady and, inside the window, counts one more frame. */
  lemma StillFrameSteady(state: (Accumulator, Byte), s: real)
    requires Steady(state.0) && state.0.count < state.0.window
    ensures StillFrame(state, s).Ok?
    ensures var r := StillFrame(state, s).value;
      Steady(r.0) && r.0.count == state.0.count + 1 && r.0.window == state.0.window
  {
    BeginFrameSteady(state.0, false);
  }

  /**
   * Frame k of a running mean: after k - 1 frames summing to `total`, one
   * more frame of value s keeps k times the stored byte within the slack of
   * k frames of 255 times the new sum.
   */
  lemma MeanFrame(state: (Accumulator, Byte), total: real, s: real)
    requires Steady(state.0) && state.0.count < state.0.window && 0.0 <= s <= 1.0
    requires MeanWithin(state.0.count as real, state.1 as real, total)
    ensures StillFrame(state, s).Ok?
    ensures MeanWithin((state.0.count + 1) as real, StillFrame(state, s).value.1 as real, total + s)
  {
    BeginFrameSteady(state.0, false);
    var a1 := BeginFrame(state.0, false).value;
    assert a1.count as real - 1.0 == state.0.count as real;
    MeanBlend(a1, state.1 as real, total, s);
  }

  /** MeanStep for the weights of a counted frame and its rounded blend. */
  lemma MeanBlend(a: Accumulator, v: real, total: real, s: real)
    requires Steady(a) && a.count >= 1 && 0.0 <= v <= 255.0 && 0.0 <= s <= 1.0
    requires MeanWithin(a.count as real - 1.0, v, total)
    ensures MeanWithin(a.count as real, ClampByte(Blend(a, v, s)) as real, total + s)
  {
    RoundedBlend(a, v, s);
    MeanStep(a.count as real, a.prevWeight, a.newWeight, v, total, s, Blend(a, v, s), ClampByte(Blend(a, v, s)) as real);
  }

  /** A counted frame's blend of a byte with a value in 0..1 rounds to a byte within one half. */
  lemma RoundedBlend(a: Accumulator, v: real, s: real)
    requires Steady(a) && a.count >= 1 && 0.0 <= v <= 255.0 && 0.0 <= s <= 1.0
    ensures -0.5 <= (ClampByte(Blend(a, v, s)) as real) - Blend(a, v, s) <= 0.5
  {
    BlendRange(a, v, s);
  }

  /** A counted frame's blend of a byte with a value in 0..1 lies in 0..255. */
  lemma BlendRange(a: Accumulator, v: real, s: real)
    requires Steady(a) && a.count >= 1 && 0.0 <= v <= 255.0 && 0.0 <= s <= 1.0
    ensures 0.0 <= Blend(a, v, s) <= 255.0
  {
    FrameWeights(a);
    BlendInRange(a.prevWeight, a.newWeight, v, s);
  }

  /**
   * The running mean, in bytes. After a reset and k <= window still frames
   * of values in 0..1, k times the stored byte is 255 times the sum of the
   * frames, up to the rounding of each frame: at most k (k + 1) / 4 either
   * way, whatever the channel held before.
   */
  lemma {:induction false} RunningMean(a: Accumulator, stored: Byte, frames: seq<real>)
    requires Steady(a) && a.count == 0 && |frames| <= a.window
    requires forall k :: 0 <= k < |frames| ==> 0.0 <= frames[k] <= 1.0
    ensures Accumulate(a, stored, frames).Ok?
    ensures var r := Accumulate(a, stored, frames).value;
      && Steady(r.0) && r.0.count == |frames| && r.0.window == a.window
      && MeanWithin(|frames| as real, r.1 as real, Sum(frames))
  {
    if |frames| > 0 {
      var k := |frames|;
      var prefix := frames[..k - 1];
      assert forall i :: 0 <= i < k - 1 ==> prefix[i] == frames[i];
      RunningMean(a, stored, prefix);
      var before := Accumulate(a, stored, prefix).value;
      assert before.0.count + 1 == k;
      StillFrameSteady(before, frames[k - 1]);
      MeanFrame(before, Sum(prefix), frames[k - 1]);
      assert Sum(frames) == Sum(prefix) + frames[k - 1];
      assert Accumulate(a, stored, frames) == StillFrame(before, frames[k - 1]);
    }
  }

  /**
   * The running mean as a quotient: after k frames the stored byte is
   * within (k + 1) / 4 of 255 times the mean frame value.
   */
  lemma RunningMeanQuotient(a: Accumulator, stored: Byte, frames: seq<real>)
    requires Steady(a) && a.count == 0 && 0 < |frames| <= a.window
    requires forall k :: 0 <= k < |frames| ==> 0.0 <= frames[k] <= 1.0
    ensures Accumulate(a, stored, frames).Ok?
    ensures var k := |frames| as real; var mean := 255.0 * Sum(frames) / k;
      -((k + 1.0) / 4.0) <= (Accumulate(a, stored, frames).value.1 as real) - mean <= (k + 1.0) / 4.0
  {
    RunningMean(a, stored, frames);
    WithinQuotient(|frames| as real, Accumulate(a, stored, frames).value.1 as real, Sum(frames));
  }

  /** MeanWithin divided through by the count. */
  lemma WithinQuotient(k: real, b: real, total: real)
    requires k >= 1.0 && MeanWithin(k, b, total)
    ensures -((k + 1.0) / 4.0) <= b - 255.0 * total / k <= (k + 1.0) / 4.0
  {
    QuotientBound(k, b, 255.0 * total);
  }

  /** From a bound on k b - t to a bound on b - t / k. */
  lemma QuotientBound(k: real, b: real, t: real)
    requires k >= 1.0 && -(k * (k + 1.0) / 4.0) <= k * b - t <= k * (k + 1.0) / 4.0
    ensures -((k + 1.0) / 4.0) <= b - t / k <= (k + 1.0) / 4.0
  {
    var q, h := b - t / k, (k + 1.0) / 4.0;
    assert k * q == k * b - t;
    assert k * h == k * (k + 1.0) / 4.0;
    DivBound(k, k * b - t, q, h);
  }

  lemma DivBound(k: real, x: real, q: real, h: real)
    requires k > 0.0 && k * q == x && -(k * h) <= x <= k * h
    ensures -h <= q <= h
  {
    CancelLe(k, q, h);
    assert k * (-h) == -(k * h);
    CancelLe(k, -h, q);
  }

  /**
   * One frame of value c keeps the byte 255 c rounds to, and after a reset
   * stores that byte whatever was stored.
   */
  lemma ConstantFrame(state: (Accumulator, Byte), c: real)
    requires Steady(state.0) && 0.0 <= c <= 1.0
    requires state.0.count == 0 || state.1 == ClampByte(255.0 * c)
    ensures StillFrame(state, c).Ok?
    ensures var r := StillFrame(state, c).value;
      Steady(r.0) && r.0.window == state.0.window && r.1 == ClampByte(255.0 * c)
  {
    BeginFrameSteady(state.0, false);
    var a1 := BeginFrame(state.0, false).value;
    assert state.0.count == 0 ==> a1.count == 1;
    ConstantBlend(a1, state.1 as real, c);
  }

  /**
   * A counted frame's blend with a value c stores the byte 255 c rounds to,
   * when it is the first frame or that byte is already stored.
   */
  lemma ConstantBlend(a: Accumulator, v: real, c: real)
    requires Steady(a) && a.count >= 1 && 0.0 <= c <= 1.0 && 0.0 <= v <= 255.0
    requires a.count == 1 || v == ClampByte(255.0 * c) as real
    ensures ClampByte(Blend(a, v, c)) == ClampByte(255.0 * c)
  {
    if a.count == 1 {
      FirstBlend(a, v, c);
    } else {
      SettledBlend(a, v, c);
    }
  }

  /** The first counted frame stores the new value whole. */
  lemma FirstBlend(a: Accumulator, v: real, c: real)
    requires Steady(a) && a.count == 1
    ensures Blend(a, v, c) == 255.0 * c
  {
    assert a.newWeight == 1.0 && a.prevWeight == 0.0;
  }

  /** A later frame of value c keeps the byte 255 c rounds to once it is stored. */
  lemma SettledBlend(a: Accumulator, v: real, c: real)
    requires Steady(a) && a.count >= 1 && 0.0 <= c <= 1.0 && v == ClampByte(255.0 * c) as real
    ensures ClampByte(Blend(a, v, c)) == ClampByte(255.0 * c)
  {
    FrameWeights(a);
    BlendTowards(a, v, c);
    Between(a.prevWeight, v - 255.0 * c);
    BlendBetween(a.prevWeight * (v - 255.0 * c), v - 255.0 * c, c, Blend(a, v, c));
  }

  /**
   * A value q past 255 c, on the way to the byte 255 c rounds to (d away),
   * rounds to that byte as well.
   */
  lemma BlendBetween(q: real, d: real, c: real, x: real)
    requires 0.0 <= c <= 1.0
    requires d == ClampByte(255.0 * c) as real - 255.0 * c && x - 255.0 * c == q
    requires (d >= 0.0 ==> 0.0 <= q <= d) && (d <= 0.0 ==> d <= q <= 0.0)
    ensures ClampByte(x) == ClampByte(255.0 * c)
  {
    ClampByteBetween(255.0 * c, x);
  }

  lemma Between(p: real, d: real)
    requires 0.0 <= p <= 1.0
    ensures (d >= 0.0 ==> 0.0 <= p * d <= d) && (d <= 0.0 ==> d <= p * d <= 0.0)
  {}

  /**
   * A constant image stays constant: from a reset, or from the stored byte
   * already showing it, any number of still frames of value c (beyond the
   * window as well) store the byte 255 c rounds to.
   */
  lemma {:induction false} ConstantStays(a: Accumulator, stored: Byte, frames: seq<real>, c: real)
    requires Steady(a) && 0.0 <= c <= 1.0
    requires a.count == 0 || stored == ClampByte(255.0 * c)
    requires 0 < |frames| && forall k :: 0 <= k < |frames| ==> frames[k] == c
    ensures Accumulate(a, stored, frames).Ok?
    ensures var r := Accumulate(a, stored, frames).value;
      Steady(r.0) && r.0.window == a.window && r.1 == ClampByte(255.0 * c)
  {
    var k := |frames|;
    var prefix := frames[..k - 1];
    var before: (Accumulator, Byte) := (a, stored);
    if k > 1 {
      ConstantStays(a, stored, prefix, c);
      before := Accumulate(a, stored, prefix).value;
    }
    assert Accumulate(a, stored, prefix) == Ok(before);
    ConstantFrame(before, c);
    assert frames[k - 1] == c;
    assert Accumulate(a, stored, frames) == StillFrame(before, c);
  }

  // ---------------------------------------------------------------------------
  // The back buffer

  /** The offset of pixel (x, y) in the back buffer: four channels a pixel, rows of `width`. */
  function PixelIndex(x: int, y: int, width: int): int {
    (x + y * width) * 4
  }

  /** Pixel `p` of the row-major numbering, as (column, row). */
  function PixelAt(p: nat, width: nat): (xy: (nat, nat))
    requires width > 0
    ensures xy.0 < width
  {
    (p % width, p / width)
  }

  /** An in-image pixel's four channels lie inside a buffer of 4 width height channels. */
  lemma PixelIndexInBuffer(x: int, y: int, width: int, height: int)
    requires 0 <= x < width && 0 <= y < height
    ensures 0 <= PixelIndex(x, y, width) && PixelIndex(x, y, width) + 3 < 4 * width * height
    ensures PixelIndex(x, y, width) % 4 == 0
  {
    RowMajorBelow(x, y, width, height);
  }

  /** Row-major numbering stays below width height. */
  lemma RowMajorBelow(x: int, y: int, width: int, height: int)
    requires 0 <= x < width && 0 <= y < height
    ensures 0 <= x + y * width < width * height
  {
    assert y * width <= (height - 1) * width;
    assert (height - 1) * width == width * height - width;
  }

  /** Numbering pixels row by row and reading the number back is the identity. */
  lemma PixelRoundTrip(x: int, y: int, width: int)
    requires 0 <= x < width && 0 <= y
    ensures PixelAt(x + y * width, width) == (x, y)
  {
    DivModUnique(x + y * width, width, y, x);
  }

  /** The quotient and remainder of n by d are the only q, r with n = q d + r, 0 <= r < d. */
  lemma DivModUnique(n: int, d: int, q: int, r: int)
    requires d > 0 && 0 <= r < d && n == q * d + r
    ensures n / d == q && n % d == r
  {
    var q0, r0 := n / d, n % d;
    MulSub(q0, q, d);
    if q0 > q {
      MulAtLeast(q0 - q, d);
    } else if q0 < q {
      MulAtLeast(q - q0, d);
    }
  }

  lemma MulSub(a: int, b: int, d: int)
    ensures a * d - b * d == (a - b) * d
  {}

  lemma MulAtLeast(k: int, d: int)
    requires k >= 1 && d > 0
    ensures k * d >= d
  {}

  lemma MulMono(a: int, b: int, w: int)
    requires a >= b && w >= 0
    ensures a * w >= b * w
  {}

  /** Distinct in-row pixels have distinct offsets. */
  lemma PixelIndexInjective(x1: int, y1: int, x2: int, y2: int, width: int)
    requires 0 <= x1 < width && 0 <= y1 && 0 <= x2 < width && 0 <= y2
    ensures PixelIndex(x1, y1, width) == PixelIndex(x2, y2, width) <==> x1 == x2 && y1 == y2
  {
    PixelRoundTrip(x1, y1, width);
    PixelRoundTrip(x2, y2, width);
  }

  /**
   * A Uint8ClampedArray store: the number is clamped and rounded to a byte;
   * an offset outside the buffer is ignored.
   */
  function Store(buf: Buffer, k: int, v: real): (r: Buffer)
    ensures |r| == |buf|
    ensures forall i :: 0 <= i < |buf| ==> r[i] == (if i == k then ClampByte(v) else buf[i])
  {
    if 0 <= k < |buf| then buf[k := ClampByte(v)] else buf
  }

  /**
   * A typed-array load. Outside the buffer the source reads undefined; the
   * value only feeds a store that is then ignored, so any value will do.
   */
  function Load(buf: Buffer, k: int): real {
    if 0 <= k < |buf| then buf[k] as real else 0.0
  }

  /** linearToGamma: gamma 2, the square root; with an exact root, squaring undoes it. */
  function LinearToGamma(m: MathLib, x: real): (g: real)
    ensures IsSqrtOf(m.sqrt(x), x) ==> g >= 0.0 && g * g == x
  {
    m.sqrt(x)
  }

  /** The colour writePixel stores: gamma-corrected channel by channel when enabled. */
  function GammaCorrect(m: MathLib, c: Colors.Color, enabled: bool): (r: Colors.Color)
    ensures !enabled ==> r == c
  {
    if enabled then Colors.Color(LinearToGamma(m, c.r), LinearToGamma(m, c.g), LinearToGamma(m, c.b))
    else c
  }

  /** With exact roots, the corrected colour times itself is the linear colour again. */
  lemma GammaSquares(m: MathLib, c: Colors.Color)
    requires IsSqrtOf(m.sqrt(c.r), c.r) && IsSqrtOf(m.sqrt(c.g), c.g) && IsSqrtOf(m.sqrt(c.b), c.b)
    ensures var g := GammaCorrect(m, c, true); Colors.Mul(g, g) == c
    ensures var g := GammaCorrect(m, c, true); g.r >= 0.0 && g.g >= 0.0 && g.b >= 0.0
  {}

  /** Store four channels from `i` on, each as a byte. */
  function Store4(buf: Buffer, i: int, c0: real, c1: real, c2: real, c3: real): (r: Buffer)
    ensures |r| == |buf|
    ensures forall k :: 0 <= k < |buf| ==>
      r[k] == if k == i then ClampByte(c0) else if k == i + 1 then ClampByte(c1)
              else if k == i + 2 then ClampByte(c2) else if k == i + 3 then ClampByte(c3) else buf[k]
  {
    Store(Store(Store(Store(buf, i, c0), i + 1, c1), i + 2, c2), i + 3, c3)
  }

  /**
   * writePixel: pixel (x, y) shows the colour, gamma-corrected when enabled,
   * scaled to 0..255 and stored as bytes, opaque. No other channel changes.
   */
  function WritePixel(m: MathLib, buf: Buffer, width: int, x: int, y: int, color: Colors.Color,
                      gamma: bool): (r: Buffer)
    ensures |r| == |buf|
    ensures var i := PixelIndex(x, y, width); var g := GammaCorrect(m, color, gamma);
      0 <= i && i + 3 < |buf| ==>
        && r[i] == ClampByte(g.r * 255.0) && r[i + 1] == ClampByte(g.g * 255.0)
        && r[i + 2] == ClampByte(g.b * 255.0) && r[i + 3] == 255
    ensures var i := PixelIndex(x, y, width);
      forall k :: 0 <= k < |buf| && !(i <= k < i + 4) ==> r[k] == buf[k]
  {
    var i := PixelIndex(x, y, width);
    var g := GammaCorrect(m, color, gamma);
    Store4(buf, i, g.r * 255.0, g.g * 255.0, g.b * 255.0, 1.0 * 255.0)
  }

  /**
   * writePixelProgressive: each colour channel of pixel (x, y) blends the
   * byte it held with the (gamma-corrected) new value and stores the blend as
   * a byte; alpha is opaque. No other channel changes.
   */
  function WritePixelProgressive(m: MathLib, buf: Buffer, width: int, x: int, y: int, color: Colors.Color,
                                 gamma: bool, a: Accumulator): (r: Buffer)
    ensures |r| == |buf|
    ensures var i := PixelIndex(x, y, width); var g := GammaCorrect(m, color, gamma);
      0 <= i && i + 3 < |buf| ==>
        && r[i] == ClampByte(Blend(a, buf[i] as real, g.r))
        && r[i + 1] == ClampByte(Blend(a, buf[i + 1] as real, g.g))
        && r[i + 2] == ClampByte(Blend(a, buf[i + 2] as real, g.b)) && r[i + 3] == 255
    ensures var i := PixelIndex(x, y, width);
      forall k :: 0 <= k < |buf| && !(i <= k < i + 4) ==> r[k] == buf[k]
  {
    var i := PixelIndex(x, y, width);
    var g := GammaCorrect(m, color, gamma);
    var newR := Blend(a, Load(buf, i), g.r);
    var newG := Blend(a, Load(buf, i + 1), g.g);
    var newB := Blend(a, Load(buf, i + 2), g.b);
    Store4(buf, i, newR, newG, newB, 1.0 * 255.0)
  }

  /**
   * The first still frame after a reset weighs the new frame 1 and the old
   * 0, so it writes exactly what writePixel writes.
   */
  lemma FirstFrameWritesRaw(m: MathLib, buf: Buffer, width: int, x: int, y: int, color: Colors.Color,
                            gamma: bool, a: Accumulator)
    requires Steady(a) && a.count == 1
    ensures WritePixelProgressive(m, buf, width, x, y, color, gamma, a) == WritePixel(m, buf, width, x, y, color, gamma)
  {
    var i := PixelIndex(x, y, width);
    var g := GammaCorrect(m, color, gamma);
    assert a.newWeight == 1.0 && a.prevWeight == 0.0;
    assert Blend(a, Load(buf, i), g.r) == g.r * 255.0;
    assert Blend(a, Load(buf, i + 1), g.g) == g.g * 255.0;
    assert Blend(a, Load(buf, i + 2), g.b) == g.b * 255.0;
  }

  /**
   * Each colour channel writePixelProgressive stores is the byte a still
   * frame of that channel's value stores: the running-mean lemmas above
   * speak about the back buffer, channel by channel.
   */
  lemma ProgressiveIsStillFrame(m: MathLib, buf: Buffer, width: int, x: int, y: int, color: Colors.Color,
                                gamma: bool, prev: Accumulator)
    requires BeginFrame(prev, false).Ok?
    requires 0 <= PixelIndex(x, y, width) && PixelIndex(x, y, width) + 3 < |buf|
    ensures var a := BeginFrame(prev, false).value; var i := PixelIndex(x, y, width);
      var g := GammaCorrect(m, color, gamma);
      var r := WritePixelProgressive(m, buf, width, x, y, color, gamma, a);
      && StillFrame((prev, buf[i]), g.r) == Ok((a, r[i]))
      && StillFrame((prev, buf[i + 1]), g.g) == Ok((a, r[i + 1]))
      && StillFrame((prev, buf[i + 2]), g.b) == Ok((a, r[i + 2]))
  {}

  // ---------------------------------------------------------------------------
  // The viewport grid

  /**
   * The point at grid coordinates (s, t) around `center`: s steps of `du`
   * across and t steps of `dv` down.
   */
  function Grid(center: Point3, du: Vec3, dv: Vec3, s: real, t: real): Point3 {
    Add(center, Add(Scale(du, s), Scale(dv, t)))
  }

  /** The view centre, the steps between pixel centres across and down, and the centre of pixel (0, 0). */
  datatype Viewport = Viewport(center: Point3, du: Vec3, dv: Vec3, pixel00: Point3)

  /**
   * The head of render's frame geometry for a width x height image: the
   * view centre, the cell steps and the centre of pixel (0, 0).
   */
  function ViewportOf(cam: Cameras.Camera, width: nat, height: nat): Viewport
    requires width > 0 && height > 0
  {
    var viewportU := Scale(cam.u, cam.viewportWidth);
    var viewportV := Scale(cam.v, -cam.viewportHeight);
    var du := Scale(viewportU, 1.0 / width as real);
    var dv := Scale(viewportV, 1.0 / height as real);
    var center := Add(cam.lookfrom, Scale(cam.lookdir, cam.focalLength));
    var upperLeft := Vectors.Sub(Vectors.Sub(center, Scale(viewportU, 0.5)), Scale(viewportV, 0.5));
    Viewport(center, du, dv, Add(upperLeft, Scale(Add(du, dv), 0.5)))
  }

  /**
   * The viewport, u times viewportWidth across and -v times viewportHeight
   * down around the point focalLength along lookdir, is cut into width x
   * height cells; pixel (0, 0)'s centre lies half a cell in from its
   * upper-left corner.
   */
  lemma ViewportCells(cam: Cameras.Camera, width: nat, height: nat)
    requires width > 0 && height > 0
    ensures var vp := ViewportOf(cam, width, height);
      && vp.center == Add(cam.lookfrom, Scale(cam.lookdir, cam.focalLength))
      && Scale(vp.du, width as real) == Scale(cam.u, cam.viewportWidth)
      && Scale(vp.dv, height as real) == Scale(cam.v, -cam.viewportHeight)
      && vp.pixel00 == Grid(vp.center, vp.du, vp.dv, 0.5 - (width as real) / 2.0, 0.5 - (height as real) / 2.0)
  {
    var w, h := width as real, height as real;
    var viewportU := Scale(cam.u, cam.viewportWidth);
    var viewportV := Scale(cam.v, -cam.viewportHeight);
    CellsSpanVec(viewportU, w);
    CellsSpanVec(viewportV, h);
    Pixel00Vec(Add(cam.lookfrom, Scale(cam.lookdir, cam.focalLength)), viewportU, viewportV, w, h);
  }

  /** width cells of U / width span U. */
  lemma CellsSpanVec(u: Vec3, w: real)
    requires w > 0.0
    ensures Scale(Scale(u, 1.0 / w), w) == u
  {
    CellsSpan(u.x, w);
    CellsSpan(u.y, w);
    CellsSpan(u.z, w);
  }

  /** Pixel (0, 0)'s centre, as render computes it, in grid coordinates. */
  lemma Pixel00Vec(c: Vec3, u: Vec3, v: Vec3, w: real, h: real)
    requires w > 0.0 && h > 0.0
    ensures var du, dv := Scale(u, 1.0 / w), Scale(v, 1.0 / h);
      Add(Vectors.Sub(Vectors.Sub(c, Scale(u, 0.5)), Scale(v, 0.5)), Scale(Add(du, dv), 0.5))
      == Grid(c, du, dv, 0.5 - w / 2.0, 0.5 - h / 2.0)
  {
    var du, dv := Scale(u, 1.0 / w), Scale(v, 1.0 / h);
    CellsSpanVec(u, w);
    CellsSpanVec(v, h);
    Pixel00Offset(c.x, u.x, v.x, du.x, dv.x, w, h);
    Pixel00Offset(c.y, u.y, v.y, du.y, dv.y, w, h);
    Pixel00Offset(c.z, u.z, v.z, du.z, dv.z, w, h);
  }

  /** width cells of size U / width span U. */
  lemma CellsSpan(u: real, w: real)
    requires w > 0.0
    ensures u * (1.0 / w) * w == u
  {}

  /** One coordinate of pixel (0, 0)'s centre. */
  lemma Pixel00Offset(c: real, u: real, v: real, du: real, dv: real, w: real, h: real)
    requires du * w == u && dv * h == v
    ensures c - u * 0.5 - v * 0.5 + (du + dv) * 0.5 == c + (du * (0.5 - w / 2.0) + dv * (0.5 - h / 2.0))
  {
    assert u * 0.5 == du * (w / 2.0);
    assert v * 0.5 == dv * (h / 2.0);
  }

  /** The centre of pixel (i, j): i cells across and j down from pixel (0, 0)'s. */
  function PixelCentre(vp: Viewport, i: int, j: int): Point3 {
    Add(Add(vp.pixel00, Scale(vp.dv, j as real)), Scale(vp.du, i as real))
  }

  /** Stepping from grid coordinates (s, t) by i across and j down. */
  lemma GridStep(c: real, du: real, dv: real, s: real, t: real, i: real, j: real)
    ensures (c + (du * s + dv * t)) + dv * j + du * i == c + (du * (s + i) + dv * (t + j))
  {}

  /** Pixel centres in grid coordinates around the view centre. */
  lemma PixelCentreAt(cam: Cameras.Camera, width: nat, height: nat, i: int, j: int)
    requires width > 0 && height > 0
    ensures var vp := ViewportOf(cam, width, height);
      PixelCentre(vp, i, j) == Grid(vp.center, vp.du, vp.dv,
                                    (i as real) + 0.5 - (width as real) / 2.0,
                                    (j as real) + 0.5 - (height as real) / 2.0)
  {
    var vp := ViewportOf(cam, width, height);
    ViewportCells(cam, width, height);
    var s, t := 0.5 - (width as real) / 2.0, 0.5 - (height as real) / 2.0;
    GridStep(vp.center.x, vp.du.x, vp.dv.x, s, t, i as real, j as real);
    GridStep(vp.center.y, vp.du.y, vp.dv.y, s, t, i as real, j as real);
    GridStep(vp.center.z, vp.du.z, vp.dv.z, s, t, i as real, j as real);
  }

  /**
   * Every pixel of the image aims strictly inside the viewport, whose edges
   * lie width/2 cells across and height/2 cells down from its centre. The
   * aims are symmetric about the centre: pixel (i, j) and pixel
   * (width-1-i, height-1-j) are opposite.
   */
  lemma PixelCentreInViewport(cam: Cameras.Camera, width: nat, height: nat, i: int, j: int)
    requires width > 0 && height > 0
    requires 0 <= i < width && 0 <= j < height
    ensures var vp := ViewportOf(cam, width, height);
      exists s: real, t: real :: PixelCentre(vp, i, j) == Grid(vp.center, vp.du, vp.dv, s, t)
        && -(width as real) / 2.0 < s < (width as real) / 2.0
        && -(height as real) / 2.0 < t < (height as real) / 2.0
        && PixelCentre(vp, width - 1 - i, height - 1 - j) == Grid(vp.center, vp.du, vp.dv, -s, -t)
  {
    var vp := ViewportOf(cam, width, height);
    var s := (i as real) + 0.5 - (width as real) / 2.0;
    var t := (j as real) + 0.5 - (height as real) / 2.0;
    PixelCentreAt(cam, width, height, i, j);
    PixelCentreAt(cam, width, height, width - 1 - i, height - 1 - j);
    assert ((width - 1 - i) as real) + 0.5 - (width as real) / 2.0 == -s;
    assert ((height - 1 - j) as real) + 0.5 - (height as real) / 2.0 == -t;
  }

  /**
   * render's row loop as written: the aim starts at row j's first centre and
   * steps one cell across before each pixel's ray, so pixel i aims at the
   * centre of pixel i + 1.
   */
  method RowAimsAsWritten(vp: Viewport, j: int, width: nat) returns (aims: seq<Point3>)
    ensures |aims| == width
    ensures forall i :: 0 <= i < width ==> aims[i] == PixelCentre(vp, i + 1, j)
  {
    var pixel := Add(vp.pixel00, Scale(vp.dv, j as real));
    aims := [];
    var i := 0;
    StepAcross(vp, 0, j);
    while i < width
      invariant 0 <= i <= width && |aims| == i
      invariant pixel == PixelCentre(vp, i, j)
      invariant forall k :: 0 <= k < i ==> aims[k] == PixelCentre(vp, k + 1, j)
    {
      StepAcross(vp, i, j);
      pixel := Vectors.PlusEquals(pixel, vp.du);
      aims := aims + [pixel];
      i := i + 1;
    }
  }

  /** One step across the row: from the centre of pixel i to that of pixel i + 1. */
  lemma StepAcross(vp: Viewport, i: int, j: int)
    ensures Vectors.PlusEquals(PixelCentre(vp, i, j), vp.du) == PixelCentre(vp, i + 1, j)
    ensures PixelCentre(vp, 0, j) == Add(vp.pixel00, Scale(vp.dv, j as real))
  {}

  /**
   * The last pixel of each row aims as written half a cell beyond the
   * viewport's right edge (width/2 cells from the centre), and no ray is
   * aimed at the centre of column 0.
   */
  lemma AsWrittenAimLeavesViewport(cam: Cameras.Camera, width: nat, height: nat, j: int)
    requires width > 0 && height > 0
    ensures var vp := ViewportOf(cam, width, height);
      PixelCentre(vp, (width - 1) + 1, j) == Grid(vp.center, vp.du, vp.dv,
                                                  (width as real) / 2.0 + 0.5,
                                                  (j as real) + 0.5 - (height as real) / 2.0)
  {
    PixelCentreAt(cam, width, height, width, j);
  }

  /**
   * pixelOffset: a jitter of up to half a cell either way, from two draws
   * in [0, 1). Along orthogonal steps, the offset's component along du is
   * (rx - 1/2) |du|^2.
   */
  function PixelOffset(du: Vec3, dv: Vec3, rx: real, ry: real): (off: Vec3)
    ensures Dot(du, dv) == 0.0 ==> Dot(off, du) == (rx - 0.5) * Dot(du, du)
    ensures Dot(du, dv) == 0.0 ==> Dot(off, dv) == (ry - 0.5) * Dot(dv, dv)
  {
    var sx := -0.5 + rx;
    var sy := -0.5 + ry;
    DotLinear(Scale(du, sx), Scale(dv, sy), du, 1.0);
    OffsetAlong(du, dv, sx, sy);
    OffsetAlong(dv, du, sy, sx);
    Add(Scale(du, sx), Scale(dv, sy))
  }

  /** (a sa + b sb) . a = sa |a|^2 when a and b are orthogonal. */
  lemma OffsetAlong(a: Vec3, b: Vec3, sa: real, sb: real)
    ensures Dot(a, b) == 0.0 ==> Dot(Add(Scale(a, sa), Scale(b, sb)), a) == sa * Dot(a, a)
    ensures Dot(a, b) == 0.0 ==> Dot(Add(Scale(b, sb), Scale(a, sa)), a) == sa * Dot(a, a)
  {
    assert Dot(Add(Scale(a, sa), Scale(b, sb)), a) == sa * Dot(a, a) + sb * Dot(a, b);
    assert Dot(Add(Scale(b, sb), Scale(a, sa)), a) == sa * Dot(a, a) + sb * Dot(a, b);
  }

  /**
   * A jittered aim stays in its pixel's cell: pixel (i, j)'s centre moved by
   * the offset of draws in [0, 1) lies at grid coordinates within
   * [i, i + 1) x [j, j + 1) cells from the viewport's upper-left corner.
   */
  lemma JitterStaysInCell(cam: Cameras.Camera, width: nat, height: nat, i: int, j: int, rx: real, ry: real)
    requires width > 0 && height > 0
    requires 0.0 <= rx < 1.0 && 0.0 <= ry < 1.0
    ensures var vp := ViewportOf(cam, width, height);
      exists s: real, t: real ::
        && Add(PixelCentre(vp, i, j), PixelOffset(vp.du, vp.dv, rx, ry)) == Grid(vp.center, vp.du, vp.dv, s, t)
        && (i as real) <= s + (width as real) / 2.0 < (i as real) + 1.0
        && (j as real) <= t + (height as real) / 2.0 < (j as real) + 1.0
  {
    var vp := ViewportOf(cam, width, height);
    var s0 := (i as real) + 0.5 - (width as real) / 2.0;
    var t0 := (j as real) + 0.5 - (height as real) / 2.0;
    PixelCentreAt(cam, width, height, i, j);
    var sx, sy := -0.5 + rx, -0.5 + ry;
    GridShift(vp.center, vp.du, vp.dv, s0, t0, sx, sy);
    assert PixelOffset(vp.du, vp.dv, rx, ry) == Add(Scale(vp.du, sx), Scale(vp.dv, sy));
  }

  /** Moving a grid point by sx steps across and sy down moves its grid coordinates by (sx, sy). */
  lemma GridShift(center: Point3, du: Vec3, dv: Vec3, s: real, t: real, sx: real, sy: real)
    ensures Add(Grid(center, du, dv, s, t), Add(Scale(du, sx), Scale(dv, sy))) == Grid(center, du, dv, s + sx, t + sy)
  {
    ShiftComponent(center.x, du.x, dv.x, s, t, sx, sy);
    ShiftComponent(center.y, du.y, dv.y, s, t, sx, sy);
    ShiftComponent(center.z, du.z, dv.z, s, t, sx, sy);
  }

  lemma ShiftComponent(c: real, du: real, dv: real, s: real, t: real, sx: real, sy: real)
    ensures (c + (du * s + dv * t)) + (du * sx + dv * sy) == c + (du * (s + sx) + dv * (t + sy))
  {}

  // ---------------------------------------------------------------------------
  // One pixel's samples

  /** The rays render traces per pixel: the first always, then samples 1 .. numSamples - 1. */
  function RayCount(numSamples: int): (n: nat)
    ensures n >= 1 && (numSamples >= 1 ==> n == numSamples)
  {
    if numSamples < 1 then 1 else numSamples
  }

  /**
   * The rays of pixel (i, j), all from the eye: the first through the
   * pixel's centre, each later one k through the centre moved by the
   * jitter of draws `jitter(k)`.
   */
  function PixelRays(cam: Cameras.Camera, vp: Viewport, i: int, j: int, numSamples: int,
                     jitter: int -> (real, real)): (rays: seq<Ray>)
    ensures |rays| == RayCount(numSamples)
    ensures forall k :: 0 <= k < |rays| ==> rays[k].orig == cam.lookfrom
    ensures At(rays[0], 1.0) == PixelCentre(vp, i, j)
    ensures forall k :: 1 <= k < |rays| ==>
      At(rays[k], 1.0) == Add(PixelCentre(vp, i, j), PixelOffset(vp.du, vp.dv, jitter(k).0, jitter(k).1))
  {
    var aim := PixelCentre(vp, i, j);
    var dir := Vectors.Sub(aim, cam.lookfrom);
    seq(RayCount(numSamples), k =>
      if k == 0 then Ray(cam.lookfrom, dir)
      else Ray(cam.lookfrom, Vectors.PlusEquals(dir, PixelOffset(vp.du, vp.dv, jitter(k).0, jitter(k).1))))
  }

  /**
   * The sum of a pixel's samples, in the order render traces them. The
   * first failing sample makes the whole sum fail.
   */
  function SumSamples(samples: seq<Result<Colors.Color>>): Result<Colors.Color> {
    if |samples| == 0 then Ok(Colors.BLACK)
    else
      var before :- SumSamples(samples[..|samples| - 1]);
      var last :- samples[|samples| - 1];
      Ok(Colors.PlusEquals(before, last))
  }

  /** The sum exists exactly when every sample does. */
  lemma {:induction false} SumSamplesOk(samples: seq<Result<Colors.Color>>)
    ensures SumSamples(samples).Ok? <==> forall k :: 0 <= k < |samples| ==> samples[k].Ok?
  {
    if |samples| > 0 {
      var n := |samples|;
      var prefix := samples[..n - 1];
      SumSamplesOk(prefix);
      assert forall k :: 0 <= k < n - 1 ==> prefix[k] == samples[k];
    }
  }

  /**
   * The sum scaled by 1/numSamples. A count of 0 divides by zero. A
   * negative count is not rejected: the pixel gets its one sample scaled by
   * a negative factor.
   */
  function Average(total: Colors.Color, numSamples: int): (r: Result<Colors.Color>)
    ensures r.Ok? <==> numSamples != 0
    ensures r.Ok? ==> Colors.Scaled(r.value, numSamples as real) == total
  {
    if numSamples == 0 then Error("scaled(1 / 0)")
    else
      var k := 1.0 / (numSamples as real);
      Undo(total.r, numSamples as real);
      Undo(total.g, numSamples as real);
      Undo(total.b, numSamples as real);
      Ok(Colors.Scaled(total, k))
  }

  lemma Undo(x: real, n: real)
    requires n != 0.0
    ensures x * (1.0 / n) * n == x
  {}

  /** n samples of the same colour c sum to n c. */
  lemma {:induction false} SumOfEqual(samples: seq<Result<Colors.Color>>, c: Colors.Color)
    requires forall k :: 0 <= k < |samples| ==> samples[k] == Ok(c)
    ensures SumSamples(samples) == Ok(Colors.Scaled(c, |samples| as real))
  {
    if |samples| > 0 {
      var n := |samples|;
      var prefix := samples[..n - 1];
      assert forall k :: 0 <= k < n - 1 ==> prefix[k] == samples[k];
      SumOfEqual(prefix, c);
      var k := (n - 1) as real;
      assert SumSamples(samples) == Ok(Colors.PlusEquals(Colors.Scaled(c, k), c)) by {
        assert SumSamples(prefix) == Ok(Colors.Scaled(c, k));
        assert samples[n - 1] == Ok(c);
      }
      ScaledOneMore(c, k);
    } else {
      assert Colors.Scaled(c, 0.0) == Colors.BLACK;
    }
  }

  /** Adding c once more to k c gives (k + 1) c. */
  lemma ScaledOneMore(c: Colors.Color, k: real)
    ensures Colors.PlusEquals(Colors.Scaled(c, k), c) == Colors.Scaled(c, k + 1.0)
  {
    OneMore(c.r, k);
    OneMore(c.g, k);
    OneMore(c.b, k);
  }

  lemma OneMore(x: real, k: real)
    ensures x * k + x == x * (k + 1.0)
  {}

  /** Averaging numSamples equal samples gives the sample back. */
  lemma AverageOfEqual(c: Colors.Color, numSamples: int)
    requires numSamples >= 1
    ensures Average(Colors.Scaled(c, numSamples as real), numSamples) == Ok(c)
  {
    var n := numSamples as real;
    Undo(c.r, n);
    Undo(c.g, n);
    Undo(c.b, n);
    assert Colors.Scaled(Colors.Scaled(c, n), 1.0 / n) == c;
  }

  // ---------------------------------------------------------------------------
  // The device

  /**
   * Math.random's draws for one frame: the jitter pair of sample k of pixel
   * (x, y), and the samples that ray's bounces consume, indexed by depth.
   */
  datatype Draws = Draws(jitter: (int, int, int) -> (real, real), bounce: (int, int, int) -> int -> Sample)

  /**
   * The fields of Device that render reads and writes. The back buffer holds
   * four channels per pixel, as the canvas's image data does.
   */
  datatype Device = Device(
    width: nat,
    height: nat,
    camera: Cameras.Camera,
    maxDepth: int,
    numSamples: int,
    acc: Accumulator,
    gammaCorrection: bool,
    cameraMoving: bool,
    backbuffer: Buffer)

  /** changeProgressRenderingWindowSize on the device: only the window changes. */
  function ChangeProgressRenderingWindowSize(d: Device, window: int): (r: Device)
    ensures r.acc.window == window
    ensures r.(acc := d.acc) == d && r.acc.(window := d.acc.window) == d.acc
  {
    d.(acc := SetWindow(d.acc, window))
  }

  /** The colours of pixel (x, y)'s rays, each traced to maxDepth. */
  function PixelSamples(m: MathLib, d: Device, search: Cameras.Search, draws: Draws, x: int, y: int)
    : (samples: seq<Result<Colors.Color>>)
    requires Cameras.Reports(search, Cameras.Evaluable)
    requires d.width > 0 && d.height > 0
    ensures |samples| == RayCount(d.numSamples)
  {
    var vp := ViewportOf(d.camera, d.width, d.height);
    var rays := PixelRays(d.camera, vp, x, y, d.numSamples, k => draws.jitter(x, y, k));
    seq(|rays|, k requires 0 <= k < |rays| =>
      Cameras.RayColor(m, d.camera, search, rays[k], d.maxDepth, draws.bounce(x, y, k)))
  }

  /**
   * The colour of pixel (x, y): the mean of its samples. It exists exactly
   * when every sample does and numSamples is not 0, and numSamples times it
   * is the samples' sum.
   */
  function PixelColor(m: MathLib, d: Device, search: Cameras.Search, draws: Draws, x: int, y: int)
    : (r: Result<Colors.Color>)
    requires Cameras.Reports(search, Cameras.Evaluable)
    requires d.width > 0 && d.height > 0
    ensures var samples := PixelSamples(m, d, search, draws, x, y);
      r.Ok? <==> d.numSamples != 0 && forall k :: 0 <= k < |samples| ==> samples[k].Ok?
    ensures r.Ok? ==> var sum := SumSamples(PixelSamples(m, d, search, draws, x, y));
      sum.Ok? && Colors.Scaled(r.value, d.numSamples as real) == sum.value
  {
    var samples := PixelSamples(m, d, search, draws, x, y);
    SumSamplesOk(samples);
    var total :- SumSamples(samples);
    Average(total, d.numSamples)
  }

  /** With numSamples = 0 every pixel fails: its average divides by zero. */
  lemma ZeroSamplesFail(m: MathLib, d: Device, search: Cameras.Search, draws: Draws, x: int, y: int)
    requires Cameras.Reports(search, Cameras.Evaluable)
    requires d.width > 0 && d.height > 0 && d.numSamples == 0
    ensures PixelColor(m, d, search, draws, x, y).Error?
  {}

  /** What render writes for pixel (x, y) into `buf`: raw while moving, blended while still. */
  function PixelWrite(m: MathLib, d: Device, a: Accumulator, buf: Buffer, x: int, y: int, c: Colors.Color): Buffer {
    if d.cameraMoving then WritePixel(m, buf, d.width, x, y, c, d.gammaCorrection)
    else WritePixelProgressive(m, buf, d.width, x, y, c, d.gammaCorrection, a)
  }

  /** The four channels from `i` on agree in `b1` and `b2`. */
  predicate SameBlock(b1: Buffer, b2: Buffer, i: int) {
    && 0 <= i && i + 3 < |b1| && i + 3 < |b2|
    && b1[i] == b2[i] && b1[i + 1] == b2[i + 1] && b1[i + 2] == b2[i + 2] && b1[i + 3] == b2[i + 3]
  }

  // ---------------------------------------------------------------------------
  // Painting a frame, row by row

  /** How a pixel's colour gets into the buffer: the buffer after writing colour c at pixel (x, y). */
  type Write = (Buffer, int, int, Colors.Color) -> Buffer

  /** How a pixel gets its colour, or the error computing it. */
  type Shade = (int, int) -> Result<Colors.Color>

  /**
   * The colour of every pixel, as PixelColor gives it: the mean of the
   * pixel's samples, and no colour at all with numSamples 0.
   */
  function Shading(m: MathLib, d: Device, search: Cameras.Search, draws: Draws): (shade: Shade)
    requires Cameras.Reports(search, Cameras.Evaluable)
    requires d.width > 0 && d.height > 0
    ensures forall x, y :: shade(x, y) == PixelColor(m, d, search, draws, x, y)
    ensures d.numSamples == 0 ==> forall x, y :: shade(x, y).Error?
    ensures forall x, y :: shade(x, y).Ok? ==> var sum := SumSamples(PixelSamples(m, d, search, draws, x, y));
      sum.Ok? && Colors.Scaled(shade(x, y).value, d.numSamples as real) == sum.value
  {
    (x, y) => PixelColor(m, d, search, draws, x, y)
  }

  /** The write of a frame, as PixelWrite does it: one that keeps to its pixel's block. */
  function Writer(m: MathLib, d: Device, a: Accumulator): (write: Write)
    ensures forall buf, x, y, c :: write(buf, x, y, c) == PixelWrite(m, d, a, buf, x, y, c)
    ensures BlockWrite(write, d.width)
  {
    var write: Write := (buf, x, y, c) => PixelWrite(m, d, a, buf, x, y, c);
    WriterKeepsToBlock(m, d, a, write);
    write
  }

  /**
   * A write that keeps to pixel (x, y)'s block: it keeps the length, leaves
   * every other channel alone, and what it puts in the block depends only
   * on what the block held.
   */
  ghost predicate BlockWrite(write: Write, width: int) {
    && (forall buf, x, y, c :: |write(buf, x, y, c)| == |buf|)
    && (forall buf, x, y, c, k :: 0 <= k < |buf| && !(PixelIndex(x, y, width) <= k < PixelIndex(x, y, width) + 4) ==>
          write(buf, x, y, c)[k] == buf[k])
    && forall b1, b2, x, y, c :: |b1| == |b2| && SameBlock(b1, b2, PixelIndex(x, y, width)) ==>
          SameBlock(write(b1, x, y, c), write(b2, x, y, c), PixelIndex(x, y, width))
  }

  /** Both of render's writes keep to their pixel's block. */
  lemma WriterKeepsToBlock(m: MathLib, d: Device, a: Accumulator, write: Write)
    requires forall buf, x, y, c :: write(buf, x, y, c) == PixelWrite(m, d, a, buf, x, y, c)
    ensures BlockWrite(write, d.width)
  {
    forall b1: Buffer, b2: Buffer, x: int, y: int, c: Colors.Color
      | |b1| == |b2| && SameBlock(b1, b2, PixelIndex(x, y, d.width))
      ensures SameBlock(write(b1, x, y, c), write(b2, x, y, c), PixelIndex(x, y, d.width))
    {
      var i := PixelIndex(x, y, d.width);
      assert b1[i] == b2[i] && b1[i + 1] == b2[i + 1] && b1[i + 2] == b2[i + 2];
    }
  }

  /** The first i pixels of row j painted into `buf`, left to right. */
  function PaintRow(write: Write, shade: Shade, buf: Buffer, j: int, i: nat): Result<Buffer>
  {
    if i == 0 then Ok(buf)
    else
      var before :- PaintRow(write, shade, buf, j, i - 1);
      var c :- shade(i - 1, j);
      Ok(write(before, i - 1, j, c))
  }

  /** The first j rows of a width-pixel image painted into `prior`, top to bottom. */
  function PaintRows(write: Write, shade: Shade, width: nat, prior: Buffer, j: nat): Result<Buffer>
  {
    if j == 0 then Ok(prior)
    else
      var before :- PaintRows(write, shade, width, prior, j - 1);
      PaintRow(write, shade, before, j - 1, width)
  }

  /**
   * Pixel (x, y) of `buf` shows what writing its colour into the frame's
   * old buffer `prior` gives.
   */
  predicate Shown(write: Write, shade: Shade, width: int, prior: Buffer, buf: Buffer, x: int, y: int) {
    var c := shade(x, y);
    c.Ok? && SameBlock(buf, write(prior, x, y, c.value), PixelIndex(x, y, width))
  }

  /** Pixel (x, y) comes before pixel (i, j) in render's row-by-row order. */
  predicate Before(x: int, y: int, i: int, j: int) {
    y < j || (y == j && x < i)
  }

  /**
   * Pixel (x, y) when render reaches pixel (i, j): shown if it comes
   * earlier, its old four channels otherwise.
   */
  predicate Reached(write: Write, shade: Shade, width: int, prior: Buffer, buf: Buffer,
                    i: int, j: int, x: int, y: int)
  {
    if Before(x, y, i, j) then Shown(write, shade, width, prior, buf, x, y)
    else SameBlock(buf, prior, PixelIndex(x, y, width))
  }

  /** The state of the buffer when render reaches pixel (i, j), pixel by pixel. */
  predicate PaintedUpTo(write: Write, shade: Shade, width: int, height: int, prior: Buffer, buf: Buffer,
                        i: int, j: int)
  {
    && |buf| == |prior|
    && forall x, y :: 0 <= x < width && 0 <= y < height ==> Reached(write, shade, width, prior, buf, i, j, x, y)
  }

  /** The blocks of two different in-image pixels do not overlap. */
  lemma BlocksApart(x: int, y: int, i: int, j: int, width: int, height: int)
    requires 0 <= x < width && 0 <= y < height && 0 <= i < width && 0 <= j < height
    requires (x, y) != (i, j)
    ensures PixelIndex(x, y, width) + 4 <= PixelIndex(i, j, width) || PixelIndex(i, j, width) + 4 <= PixelIndex(x, y, width)
    ensures 0 <= PixelIndex(x, y, width) && PixelIndex(x, y, width) + 3 < 4 * width * height
  {
    PixelIndexInjective(x, y, i, j, width);
    PixelIndexInBuffer(x, y, width, height);
    var n1, n2 := x + y * width, i + j * width;
    assert PixelIndex(x, y, width) == 4 * n1 && PixelIndex(i, j, width) == 4 * n2;
  }

  /** A pixel's state is kept while its four channels are left alone. */
  lemma ReachedKept(write: Write, shade: Shade, width: int, prior: Buffer, buf: Buffer, next: Buffer,
                    i: int, j: int, i2: int, j2: int, x: int, y: int)
    requires Reached(write, shade, width, prior, buf, i, j, x, y)
    requires Before(x, y, i, j) == Before(x, y, i2, j2)
    requires |next| == |buf|
    requires var p := PixelIndex(x, y, width); 0 <= p && p + 3 < |buf| && forall k :: p <= k < p + 4 ==> next[k] == buf[k]
    ensures Reached(write, shade, width, prior, next, i2, j2, x, y)
  {
    var p := PixelIndex(x, y, width);
    assert next[p] == buf[p] && next[p + 1] == buf[p + 1];
    assert next[p + 2] == buf[p + 2] && next[p + 3] == buf[p + 3];
  }

  /** Before the first pixel every pixel holds its old channels. */
  lemma Unpainted(write: Write, shade: Shade, width: int, height: int, prior: Buffer)
    requires 0 <= width && 0 <= height && |prior| == 4 * width * height
    ensures PaintedUpTo(write, shade, width, height, prior, prior, 0, 0)
  {
    forall x, y | 0 <= x < width && 0 <= y < height
      ensures Reached(write, shade, width, prior, prior, 0, 0, x, y)
    {
      PixelIndexInBuffer(x, y, width, height);
    }
  }

  /** Writing pixel (i, j) at its turn moves the painted state one pixel on. */
  lemma PaintStep(write: Write, shade: Shade, width: int, height: int, prior: Buffer, buf: Buffer, i: int, j: int)
    requires BlockWrite(write, width) && |prior| == 4 * width * height
    requires 0 <= i < width && 0 <= j < height
    requires PaintedUpTo(write, shade, width, height, prior, buf, i, j) && shade(i, j).Ok?
    ensures PaintedUpTo(write, shade, width, height, prior, write(buf, i, j, shade(i, j).value), i + 1, j)
  {
    var c := shade(i, j).value;
    var next := write(buf, i, j, c);
    var p := PixelIndex(i, j, width);
    assert Reached(write, shade, width, prior, buf, i, j, i, j);
    PixelIndexInBuffer(i, j, width, height);
    assert SameBlock(next, write(prior, i, j, c), p);
    var i1 := i + 1;
    forall x, y | 0 <= x < width && 0 <= y < height
      ensures Reached(write, shade, width, prior, next, i1, j, x, y)
    {
      if (x, y) != (i, j) {
        BlocksApart(x, y, i, j, width, height);
        assert Reached(write, shade, width, prior, buf, i, j, x, y);
        ReachedKept(write, shade, width, prior, buf, next, i, j, i1, j, x, y);
      }
    }
  }

  /** Painting a row from its start leaves the state at the row's end. */
  lemma {:induction false} PaintRowShows(write: Write, shade: Shade, width: int, height: int, prior: Buffer,
                                         buf: Buffer, j: int, i: nat)
    requires BlockWrite(write, width) && |prior| == 4 * width * height
    requires 0 <= j < height && i <= width
    requires PaintedUpTo(write, shade, width, height, prior, buf, 0, j)
    requires PaintRow(write, shade, buf, j, i).Ok?
    ensures PaintedUpTo(write, shade, width, height, prior, PaintRow(write, shade, buf, j, i).value, i, j)
  {
    if i > 0 {
      var before := PaintRow(write, shade, buf, j, i - 1);
      assert before.Ok?;
      PaintRowShows(write, shade, width, height, prior, buf, j, i - 1);
      PaintStep(write, shade, width, height, prior, before.value, i - 1, j);
    }
  }

  /** The end of row j is the start of row j + 1. */
  lemma RowEnd(write: Write, shade: Shade, width: int, height: int, prior: Buffer, buf: Buffer, j: int)
    requires PaintedUpTo(write, shade, width, height, prior, buf, width, j)
    ensures PaintedUpTo(write, shade, width, height, prior, buf, 0, j + 1)
  {
    var j1 := j + 1;
    forall x, y | 0 <= x < width && 0 <= y < height
      ensures Reached(write, shade, width, prior, buf, 0, j1, x, y)
    {
      assert Reached(write, shade, width, prior, buf, width, j, x, y);
    }
  }

  /** After the first j rows, rows 0 .. j-1 are shown and the others still hold their old channels. */
  lemma {:induction false} PaintRowsShows(write: Write, shade: Shade, width: nat, height: nat, prior: Buffer, j: nat)
    requires BlockWrite(write, width) && |prior| == 4 * width * height
    requires j <= height
    requires PaintRows(write, shade, width, prior, j).Ok?
    ensures PaintedUpTo(write, shade, width, height, prior, PaintRows(write, shade, width, prior, j).value, 0, j)
  {
    if j > 0 {
      var before := PaintRows(write, shade, width, prior, j - 1);
      assert before.Ok?;
      var row := PaintRow(write, shade, before.value, j - 1, width);
      assert PaintRows(write, shade, width, prior, j) == row;
      PaintRowsShows(write, shade, width, height, prior, j - 1);
      PaintRowShows(write, shade, width, height, prior, before.value, j - 1, width);
      RowEnd(write, shade, width, height, prior, row.value, j - 1);
    } else {
      Unpainted(write, shade, width, height, prior);
    }
  }

  /** Past the last row every in-image pixel is shown. */
  lemma UpToEnd(write: Write, shade: Shade, width: int, height: int, prior: Buffer, buf: Buffer)
    requires PaintedUpTo(write, shade, width, height, prior, buf, 0, height)
    ensures |buf| == |prior|
    ensures forall x, y :: 0 <= x < width && 0 <= y < height ==> Shown(write, shade, width, prior, buf, x, y)
  {
    forall x, y | 0 <= x < width && 0 <= y < height
      ensures Shown(write, shade, width, prior, buf, x, y)
    {
      assert Reached(write, shade, width, prior, buf, 0, height, x, y);
    }
  }

  /**
   * The whole frame painted: every in-image pixel's four channels are what
   * writing its colour into the old buffer gives.
   */
  lemma FramePixels(write: Write, shade: Shade, width: nat, height: nat, prior: Buffer)
    requires BlockWrite(write, width) && |prior| == 4 * width * height
    requires PaintRows(write, shade, width, prior, height).Ok?
    ensures |PaintRows(write, shade, width, prior, height).value| == |prior|
    ensures forall x, y :: 0 <= x < width && 0 <= y < height ==>
      Shown(write, shade, width, prior, PaintRows(write, shade, width, prior, height).value, x, y)
  {
    PaintRowsShows(write, shade, width, height, prior, height);
    UpToEnd(write, shade, width, height, prior, PaintRows(write, shade, width, prior, height).value);
  }

  /** A row that fails at some pixel fails for every longer prefix. */
  lemma {:induction false} PaintRowFails(write: Write, shade: Shade, buf: Buffer, j: int, i: nat, i2: nat)
    requires i <= i2 && PaintRow(write, shade, buf, j, i).Error?
    ensures PaintRow(write, shade, buf, j, i2).Error?
    decreases i2
  {
    if i < i2 {
      PaintRowFails(write, shade, buf, j, i, i2 - 1);
    }
  }

  /** A frame that fails in some row fails for every later row count. */
  lemma {:induction false} PaintRowsFail(write: Write, shade: Shade, width: nat, prior: Buffer, j: nat, j2: nat)
    requires j <= j2 && PaintRows(write, shade, width, prior, j).Error?
    ensures PaintRows(write, shade, width, prior, j2).Error?
    decreases j2
  {
    if j < j2 {
      PaintRowsFail(write, shade, width, prior, j, j2 - 1);
    }
  }

  /** One in-image pixel whose colour fails makes the whole frame fail. */
  lemma FrameFails(write: Write, shade: Shade, width: nat, height: nat, prior: Buffer, x: int, y: int)
    requires 0 <= x < width && 0 <= y < height && shade(x, y).Error?
    ensures PaintRows(write, shade, width, prior, height).Error?
  {
    var rows := PaintRows(write, shade, width, prior, y);
    if rows.Error? {
      PaintRowsFail(write, shade, width, prior, y, height);
    } else {
      assert PaintRow(write, shade, rows.value, y, x + 1).Error?;
      PaintRowFails(write, shade, rows.value, y, x + 1, width);
      assert PaintRows(write, shade, width, prior, y + 1).Error?;
      PaintRowsFail(write, shade, width, prior, y + 1, height);
    }
  }

  /** A row whose pixels all have a colour paints without error. */
  lemma {:induction false} PaintRowOk(write: Write, shade: Shade, buf: Buffer, j: int, i: nat)
    requires forall x :: 0 <= x < i ==> shade(x, j).Ok?
    ensures PaintRow(write, shade, buf, j, i).Ok?
  {
    if i > 0 {
      PaintRowOk(write, shade, buf, j, i - 1);
      assert shade(i - 1, j).Ok?;
    }
  }

  /** A frame whose pixels all have a colour paints without error. */
  lemma {:induction false} PaintRowsOk(write: Write, shade: Shade, width: nat, prior: Buffer, j: nat)
    requires forall x, y :: 0 <= x < width && 0 <= y < j ==> shade(x, y).Ok?
    ensures PaintRows(write, shade, width, prior, j).Ok?
  {
    if j > 0 {
      PaintRowsOk(write, shade, width, prior, j - 1);
      var before := PaintRows(write, shade, width, prior, j - 1).value;
      PaintRowOk(write, shade, before, j - 1, width);
    }
  }

  /** The frame paints exactly when every in-image pixel has a colour. */
  lemma FrameOk(write: Write, shade: Shade, width: nat, height: nat, prior: Buffer)
    ensures PaintRows(write, shade, width, prior, height).Ok? <==>
      forall x, y :: 0 <= x < width && 0 <= y < height ==> shade(x, y).Ok?
  {
    if forall x, y :: 0 <= x < width && 0 <= y < height ==> shade(x, y).Ok? {
      PaintRowsOk(write, shade, width, prior, height);
    } else {
      var x, y :| 0 <= x < width && 0 <= y < height && !shade(x, y).Ok?;
      FrameFails(write, shade, width, height, prior, x, y);
    }
  }

  /** Render's inner loop: row j, left to right. */
  method PaintRowLoop(write: Write, shade: Shade, rowStart: Buffer, j: int, width: nat)
    returns (r: Result<Buffer>)
    ensures r.Ok? <==> PaintRow(write, shade, rowStart, j, width).Ok?
    ensures r.Ok? ==> r == PaintRow(write, shade, rowStart, j, width)
  {
    var buf := rowStart;
    var i := 0;
    while i < width
      invariant 0 <= i <= width
      invariant PaintRow(write, shade, rowStart, j, i) == Ok(buf)
    {
      var c := shade(i, j);
      if c.Error? {
        PaintRowFails(write, shade, rowStart, j, i + 1, width);
        return Error(c.msg);
      }
      buf := write(buf, i, j, c.value);
      i := i + 1;
    }
    return Ok(buf);
  }

  /** Render's outer loop: the rows, top to bottom, from the old buffer. */
  method PaintFrameLoop(write: Write, shade: Shade, width: nat, height: nat, prior: Buffer)
    returns (r: Result<Buffer>)
    ensures r.Ok? <==> PaintRows(write, shade, width, prior, height).Ok?
    ensures r.Ok? ==> r == PaintRows(write, shade, width, prior, height)
  {
    var buf := prior;
    var j := 0;
    while j < height
      invariant 0 <= j <= height
      invariant PaintRows(write, shade, width, prior, j) == Ok(buf)
    {
      var row := PaintRowLoop(write, shade, buf, j, width);
      if row.Error? {
        PaintRowsFail(write, shade, width, prior, j + 1, height);
        return Error(row.msg);
      }
      buf := row.value;
      j := j + 1;
    }
    return Ok(buf);
  }

  /** Render's frame paints exactly when every pixel's colour exists. */
  lemma RenderedFrameOk(m: MathLib, d: Device, a: Accumulator, search: Cameras.Search, draws: Draws)
    requires Cameras.Reports(search, Cameras.Evaluable)
    requires d.width > 0 && d.height > 0
    ensures PaintRows(Writer(m, d, a), Shading(m, d, search, draws), d.width, d.backbuffer, d.height).Ok? <==>
      forall x, y :: 0 <= x < d.width && 0 <= y < d.height ==> PixelColor(m, d, search, draws, x, y).Ok?
  {
    var shade := Shading(m, d, search, draws);
    FrameOk(Writer(m, d, a), shade, d.width, d.height, d.backbuffer);
    assert (forall x, y :: 0 <= x < d.width && 0 <= y < d.height ==> shade(x, y).Ok?) <==>
      forall x, y :: 0 <= x < d.width && 0 <= y < d.height ==> PixelColor(m, d, search, draws, x, y).Ok?;
  }

  /**
   * In render's painted frame, pixel (x, y)'s four channels are what
   * PixelWrite puts there from the old buffer, given its colour.
   */
  lemma RenderedPixel(m: MathLib, d: Device, a: Accumulator, search: Cameras.Search, draws: Draws, x: int, y: int)
    requires Cameras.Reports(search, Cameras.Evaluable)
    requires d.width > 0 && d.height > 0 && |d.backbuffer| == 4 * d.width * d.height
    requires PaintRows(Writer(m, d, a), Shading(m, d, search, draws), d.width, d.backbuffer, d.height).Ok?
    requires 0 <= x < d.width && 0 <= y < d.height
    ensures PixelColor(m, d, search, draws, x, y).Ok?
    ensures SameBlock(PaintRows(Writer(m, d, a), Shading(m, d, search, draws), d.width, d.backbuffer, d.height).value,
                      PixelWrite(m, d, a, d.backbuffer, x, y, PixelColor(m, d, search, draws, x, y).value),
                      PixelIndex(x, y, d.width))
  {
    var write, shade := Writer(m, d, a), Shading(m, d, search, draws);
    FramePixels(write, shade, d.width, d.height, d.backbuffer);
    assert Shown(write, shade, d.width, d.backbuffer,
                 PaintRows(write, shade, d.width, d.backbuffer, d.height).value, x, y);
  }

  /**
   * render: one frame. The accumulator counts the frame (or resets while the
   * camera moves), then every pixel, row by row, gets the average of its
   * samples, written raw while the camera moves and blended into the old
   * buffer while it stands still; finally the camera counts as still.
   *
   * Pixel (i, j) is traced through its own centre. The source's row loop
   * steps its aim before tracing, so it traces pixel (i, j) through the
   * centre of (i + 1, j); RowAimsAsWritten models that loop.
   *
   * The frame fails exactly when counting it divides by zero or some
   * pixel's colour fails. Otherwise the new buffer is the frame painted row
   * by row, in which pixel (x, y)'s four channels are what writing its
   * colour into the old buffer gives (RenderedPixel).
   */
  method Render(m: MathLib, d: Device, search: Cameras.Search, draws: Draws) returns (r: Result<Device>)
    requires Cameras.Reports(search, Cameras.Evaluable)
    requires |d.backbuffer| == 4 * d.width * d.height
    ensures r.Ok? <==>
      && BeginFrame(d.acc, d.cameraMoving).Ok?
      && (d.width > 0 && d.height > 0 ==>
            PaintRows(Writer(m, d, BeginFrame(d.acc, d.cameraMoving).value), Shading(m, d, search, draws),
                      d.width, d.backbuffer, d.height).Ok?)
    ensures r.Ok? ==>
      r.value == d.(acc := BeginFrame(d.acc, d.cameraMoving).value, cameraMoving := false,
                    backbuffer := r.value.backbuffer)
    ensures r.Ok? && d.width > 0 && d.height > 0 ==>
      PaintRows(Writer(m, d, BeginFrame(d.acc, d.cameraMoving).value), Shading(m, d, search, draws),
                d.width, d.backbuffer, d.height) == Ok(r.value.backbuffer)
    ensures r.Ok? && (d.width == 0 || d.height == 0) ==> r.value.backbuffer == d.backbuffer
  {
    var a :- BeginFrame(d.acc, d.cameraMoving);
    if d.width == 0 || d.height == 0 {
      return Ok(d.(acc := a, cameraMoving := false));
    }
    var frame := PaintFrameLoop(Writer(m, d, a), Shading(m, d, search, draws), d.width, d.height, d.backbuffer);
    if frame.Error? {
      return Error(frame.msg);
    }
    r := Ok(d.(acc := a, cameraMoving := false, backbuffer := frame.value));
  }
}
