# A verified model of the software-raytracing path tracer

This project models the deterministic engine of a small browser path tracer
written in TypeScript/JavaScript, and proves properties of it in Dafny. It
covers:

- the geometric algebra: `Vec3`, `Color3`, `Ray`, `Interval` and `AABB`
  with its slab test;
- the intersection protocol: `HitRecord`, `Sphere`, `Quad`,
  `HittableList` and `BVHNode`;
- the shading decisions: materials, textures, Perlin noise and the
  camera's `rayColor` recursion;
- the device's progressive frame accumulator, back-buffer writes and pixel
  loop.

Modelling choices:

- **Numbers.** JavaScript numbers are Dafny `real`s. Where the source relies
  on `Infinity` or `NaN` (interval bounds, the slab test's `1 / 0`), values
  are `ExtReals.ExtReal`: `NegInf`, `Fin(r)`, `PosInf` or `NaN`. It carries
  JavaScript's `<`, `<=`, `Math.min` and `Math.max`, under which every
  comparison with `NaN` is false.
- **Transcendentals.** `sqrt`, `tan`, `sin`, `acos` and `atan2` come from a
  `Numeric.MathLib` value that every caller passes in. The model assumes
  nothing about it. A property that needs an exact square root or a range
  for `sin` says so in its own `requires`.
- **Randomness.** Every `Math.random()` draw is an explicit input in
  `[0, 1)`: a number, a sequence of numbers, a `nat -> real` oracle
  (`Bvh.Build`), a `Materials.Sample` (one unit vector and one draw per
  scatter), or a `Devices.Draws` record for a whole frame.
- **The back buffer.** Channels are bytes (`Devices.Byte`). Every store
  goes through `Devices.ClampByte`, which clamps to `[0, 255]` and then
  rounds half to even, as a `Uint8ClampedArray` does.
- **The scene.** A scene is a `Scenes.Hittable` tree with four kinds of
  node:
  - a sphere or a quad with its cached box;
  - a list with its cached box;
  - a BVH node over two children, whose box is recomputed as the hull of
    its children's boxes.
- **Mutation.** In-place operations (`plusEquals`, `copy`, `scaled`,
  `expand`, the record out-parameters) are pure functions that return the
  receiver's new value.
- **The shared `Color3.BLACK`.** The source's `rayColor` writes to
  `Color3.BLACK` through `scatter`. `Cameras.RayColorAsWritten` threads its
  current value through the recursion explicitly.

Where the source is evidently wrong, the model has both versions:

- a member that follows the code as written, with a lemma that exhibits
  the wrong behaviour;
- a corrected member with the intended property proved.

Both are listed under "## Findings". `Cameras.RayColor`, `Bvh.BuildSpan`
and `Perlin.NewTables` use the corrected behaviour; "## Left out" says
where else the main path departs from the code as written.

## Model

| member | source | states |
|---|---|---|
| Numeric.JsRem | src/texture.ts:22-29 | JavaScript's truncating `%` on reals: the remainder is smaller than the divisor in magnitude and takes the sign of the dividend, so negative dividends give non-positive remainders |
| Numeric.JsIntRem | src/texture.ts:22-29 | integer `%` as JavaScript computes it: zero exactly when the mathematical remainder is, equal to it for non-negative dividends, and between `-abs(b)` (exclusive) and 0 for negative ones |
| Numeric.DegreesToRadians | utils.js:1-3 | the result times 180 is the angle times pi |
| Numeric.DegreesToRadiansLinear | utils.js:1-3 | the conversion is additive and homogeneous, sends 0 to 0 and 180 to pi |
| Numeric.RandomInRange | utils.js:4-7 | for a draw in `[0, 1)` the result lies in `[min, max)` when `min < max`, is `min` when they are equal, and lies in `(max, min]` when they are reversed |
| Numeric.RandomInRangeFormula | utils.js:4-7 | the result is `min + draw (max - min)`, the source's single expression, in every case |
| Numeric.RandomInt | utils.js:8-11 | `floor(draw max)` lies in `[0, max)` for `max >= 1`, so it never returns `max`, and in `[max, 0]` otherwise |
| Numeric.RandomIntSmall | utils.js:8-11 | `randomInt(1)` is always 0 and `randomInt(3)` is one of 0, 1, 2 |
| ExtReals.Min | src/aabb.ts:72-75 | `Math.min`: NaN exactly when an operand is NaN, otherwise one of the operands and at most both |
| ExtReals.Max | src/aabb.ts:72-75 | `Math.max`: NaN exactly when an operand is NaN, otherwise one of the operands and at least both |
| ExtReals.LeTotal | src/aabb.ts:72-75 | on non-NaN values `<=` is total and `<` is its strict complement, so the slab test's comparisons behave as on numbers |
| Intervals.FromIntervals | src/interval.ts:10-12 | the hull contains both intervals, takes one of the two mins and one of the two maxes, and contains every value either operand contains |
| Intervals.FromIntervalsLaws | src/interval.ts:10-12 | the hull is commutative and idempotent, `empty` is its identity on both sides and `universe` absorbs everything |
| Intervals.FromIntervalsLeast | src/interval.ts:10-12 | any interval containing both operands contains their hull: the hull is the least such interval |
| Intervals.Size | src/interval.ts:14-16 | `max - min`, NaN exactly when both bounds are the same infinity, and the plain difference for finite bounds |
| Intervals.SizeNonNegative | src/interval.ts:14-16 | the size is at least 0 exactly when `min <= max`, outside the two same-infinity intervals whose size is NaN |
| Intervals.Expand | src/interval.ts:18-22 | finite bounds move out by `delta` and infinite bounds stay |
| Intervals.ExpandSize | src/interval.ts:18-22 | expanding by `delta` grows the size by exactly `2 delta`, and leaves an infinite size unchanged |
| Intervals.ExpandWidens | src/interval.ts:18-22 | a non-negative expansion contains the original interval and every value it contained |
| Intervals.SurroundsContains | src/interval.ts:24-30 | `surrounds` implies `contains`, and a finite endpoint of a non-empty interval is contained but not surrounded |
| Intervals.EmptyAndUniverse | src/interval.ts:32-33 | `empty` neither contains nor surrounds any number, and `universe` surrounds every number |
| Intervals.WithinContains | src/interval.ts:24-30 | `contains` and `surrounds` are monotone in the interval |
| Vectors.RandomOnHemisphere | demo/js/vector.js:36-49 | for any supplied unit-sphere vector the result is it or its negation, keeps its length, and has a non-negative dot product with the normal |
| Vectors.SubSelfIsZero | demo/js/vector.js:78-83 | `v - v` and `v + (-v)` are the zero vector |
| Vectors.NegIsScaleMinusOne | demo/js/vector.js:66-68 | `negated` is scaling by -1 and is an involution |
| Vectors.PlusMinusRoundTrip | demo/js/vector.js:56-65 | `plusEquals` then `minusEquals` of the same vector restores the receiver, and so does the reverse order |
| Vectors.IdxComponents | demo/js/vector.js:112-118 | `idx(0)`, `idx(1)` and `idx(2)` are x, y and z, and `idx` of a sum or a scaled vector is the sum or the scaled component |
| Vectors.CrossOrthogonal | demo/js/vector.js:106-108 | `a x b` is orthogonal to both `a` and `b` |
| Vectors.CrossSelfIsZero | demo/js/vector.js:106-108 | a vector crossed with itself is zero |
| Vectors.CrossAdditive | demo/js/vector.js:106-108 | the cross product distributes over addition in each argument |
| Vectors.CrossHomogeneous | demo/js/vector.js:106-108 | scaling the first operand scales the cross product |
| Vectors.CrossAntiCommutative | demo/js/vector.js:106-108 | swapping the operands negates the cross product |
| Vectors.DotLinear | demo/js/vector.js:103-105 | the dot product is symmetric and linear in each argument |
| Vectors.Dot | demo/js/vector.js:103-105 | definition, no contract; `Vectors.DotLinear` states its symmetry and bilinearity |
| Vectors.Cross | demo/js/vector.js:106-108 | definition, no contract; `Vectors.CrossOrthogonal`, `Vectors.CrossAntiCommutative`, `Vectors.CrossAdditive` and `Vectors.CrossHomogeneous` state its laws |
| Vectors.Normalized | demo/js/vector.js:99-102 | definition, no contract; `Vectors.NormalizedIsUnit` states it gives a unit vector under an exact square root, and "## Left out" its zero-vector departure |
| Vectors.Reflect | demo/js/vector.js:69-71 | definition, no contract; `Vectors.ReflectNegatesNormalPart`, `Vectors.ReflectPreservesLength` and `Vectors.ReflectInvolution` state what it does |
| Vectors.Refract | demo/js/vector.js:72-77 | definition, no contract; `Vectors.RefractPartsComplete` and `Vectors.RefractIsUnit` state that it gives a unit vector |
| Vectors.NearEquals | demo/js/vector.js:50-55 | definition, no contract; `Vectors.NearEqualsReflexiveSymmetric` and `Vectors.NotNearZeroIsNonZero` state its laws |
| Vectors.ReflectNegatesNormalPart | demo/js/vector.js:69-71 | for a unit normal, reflecting negates the component along the normal |
| Vectors.ReflectPreservesLength | demo/js/vector.js:69-71 | for a unit normal, reflecting keeps the squared length |
| Vectors.ReflectInvolution | demo/js/vector.js:69-71 | for a unit normal, reflecting twice gives the vector back |
| Vectors.RefractPartsComplete | demo/js/vector.js:72-77 | with a unit normal and an exact square root, the parallel part's squared length is 1 minus the perpendicular part's |
| Vectors.RefractIsUnit | demo/js/vector.js:72-77 | refracting a unit direction whose cosine is not clamped gives a unit vector |
| Vectors.NormalizedIsUnit | demo/js/vector.js:99-102 | with an exact, non-zero square root of the squared length, `normalized()` has length 1 |
| Vectors.NearEqualsReflexiveSymmetric | demo/js/vector.js:50-55 | the 1e-7 component tolerance is reflexive and symmetric |
| Vectors.NotNearZeroIsNonZero | demo/js/vector.js:50-55 | a vector not near zero is not zero |
| Vectors.Cramer | js/quad.js:33-36 | Cramer's rule: any `x` times the triple product `[a, b, c]` is the combination of `a`, `b`, `c` whose weights are the triple products with `x` substituted; the quad's coordinates rest on it |
| Colors.Copy | color.js:8-12 | every channel of the receiver is taken from the argument |
| Colors.Random | color.js:13-17 | for draws in `[0, 1)` and `min < max`, every channel lies in `[min, max)` |
| Colors.MulLaws | color.js:18-20 | `mul` is commutative, `WHITE` is its identity and `BLACK` its zero |
| Colors.InPlaceAgreesWithPure | color.js:21-37 | `plusEquals` leaves what `add` returns, `scaled` what `scale` returns, and `copy` the argument |
| Colors.ColorAlgebra | color.js:18-23 | `add` is commutative and associative with `BLACK` as identity, and `mul` is associative and distributes over `add` |
| Rays.AtOrigin | src/ray.ts:6-9 | `at(0)` is the origin and `at(t) - orig` is `t dir` |
| Rays.AtAffine | src/ray.ts:6-9 | `at(t + s) = at(t) + s dir`: `at` is affine in `t` |
| Boxes.Axis | src/aabb.ts:52-56 | `axis(1)` is y, `axis(2)` is z, and every other `n` gives x |
| Boxes.Span | src/aabb.ts:16-23 | one axis of `fromPoints`: finite, ordered, and containing both coordinates |
| Boxes.SpanBetween | src/aabb.ts:16-23 | every coordinate between the two points' coordinates, in either order, lies in the axis of `fromPoints` |
| Boxes.FromPoints | src/aabb.ts:16-23 | the box is ordered on every axis and contains both points |
| Boxes.FromAABBs | src/aabb.ts:25-33 | the hull contains both boxes |
| Boxes.FromAABBsLaws | src/aabb.ts:10-33 | the hull is commutative and idempotent, and hulling with the default (all-empty) box gives the other box |
| Boxes.FromAxes | src/aabb.ts:35-41 | the box's three axes are exactly the given intervals |
| Boxes.SubBoxInside | src/aabb.ts:25-33 | a point inside (or strictly inside) a sub-box is inside (strictly inside) the box |
| Boxes.SubBoxTransitive | src/aabb.ts:25-33 | containment of boxes is transitive, so nested hulls contain every leaf box |
| Boxes.PadAxis | src/aabb.ts:43-50 | an axis at least `delta` wide is kept, a narrower one is expanded by `delta`; either way it contains the original, and a finite non-empty axis ends at least `delta` wide |
| Boxes.Pad | src/aabb.ts:43-50 | the padded box contains the original |
| Boxes.SlabStep | src/aabb.ts:63-75 | one axis of the slab test only narrows the window, to the entering and leaving crossings, and continues exactly when the window stays non-empty |
| Boxes.HitFrom | src/aabb.ts:58-79 | the loop from axis `a` on narrows the window; on true it is non-empty, on false it has closed (`max <= min`) |
| Boxes.HitNarrows | src/aabb.ts:58-79 | `hit` leaves a window inside the original, non-empty exactly when it returns true |
| Boxes.SlabZeroSignIrrelevant | src/aabb.ts:63-75 | for a zero direction component, `1/+0` and `1/-0` give the same verdict, and the same window on true |
| Boxes.CrossingsBracket | src/aabb.ts:63-70 | for a non-zero direction component, `t` lies between the entering and leaving crossings (strictly) exactly when `o + d t` lies in (strictly inside) the slab |
| Boxes.CrossingsZero | src/aabb.ts:63-70 | for a zero component, `1/0 = Infinity` makes the crossings the whole line when the origin is in the slab, and an empty window when it lies below or above |
| Boxes.SlabStepSound | src/aabb.ts:63-75 | on continue, every `t` in the narrowed window puts `o + d t` in the slab |
| Boxes.SlabStepComplete | src/aabb.ts:63-75 | a `t` strictly inside the window whose point is strictly inside the slab keeps the test going and stays strictly inside the narrowed window |
| Boxes.HitFromSound | src/aabb.ts:58-79 | on true from axis `a`, every `t` in the window puts `at(t)` inside all the remaining slabs |
| Boxes.HitSound | src/aabb.ts:58-79 | soundness: on true, every `t` in the narrowed window puts `at(t)` inside the box, zero direction components included |
| Boxes.HitFromComplete | src/aabb.ts:58-79 | a `t` strictly inside the window whose point is strictly inside the remaining slabs makes the loop from axis `a` return true |
| Boxes.HitComplete | src/aabb.ts:58-79 | completeness: a `t` strictly inside the window with `at(t)` strictly inside the box makes `hit` return true, keeping `t` strictly inside the window |
| Boxes.ParallelBeyondMisses | src/aabb.ts:63-75 | a ray parallel to the x slab whose origin lies beyond it misses the box, whatever the window |
| Perlin.Range | src/perlin.ts:99-100 | `0, 1, ..., n - 1` |
| Perlin.PermutationInRange | src/perlin.ts:66-74 | every entry of a permutation table of size `n` is an index below `n` |
| Perlin.Swap | src/perlin.ts:101-106 | the three assignments through `tmp` exchange two positions, leave the rest, and permute the contents |
| Perlin.Identity | src/perlin.ts:99-100 | the first loop fills the array with `0 .. n - 1` |
| Perlin.SattoloStep | src/perlin.ts:100-107 | one swap of position `i` with a strictly smaller target keeps the loop invariant, in which no settled position is a fixed point |
| Perlin.GeneratePermutation | src/perlin.ts:99-108 | the result is a permutation of `0 .. n - 1`; for `n >= 2` it has no fixed point, so the identity is unreachable |
| Perlin.GeneratePermutationFisherYates | src/perlin.ts:99-108 | the intended shuffle also gives a permutation, and gives the identity when every draw picks its own position |
| Perlin.NewTables | src/perlin.ts:11-26 | the constructor leaves the 256 supplied lattice vectors and three permutations of `0 .. 255` |
| Perlin.ToInt32 | src/perlin.ts:66-74 | a bitwise operand is wrapped into `[-2^31, 2^31)` and congruent to the original modulo `2^32` |
| Perlin.JsAnd255 | src/perlin.ts:66-74 | `k & 255` lies in `[0, 255]` |
| Perlin.And255IsMod | src/perlin.ts:66-74 | `k & 255` is `k mod 256` for every integer, negatives and values beyond 32 bits included |
| Perlin.XorBelow | src/perlin.ts:66-74 | XOR of two values below `2^k` stays below `2^k` |
| Perlin.Xor | src/perlin.ts:66-74 | definition, no contract (JavaScript `^` on non-negative values); `Perlin.XorBelow`, `Perlin.XorCommutative`, `Perlin.XorIdentityInverse` and `Perlin.XorCancel` state its laws |
| Perlin.XorCommutative | src/perlin.ts:66-74 | XOR is commutative |
| Perlin.XorIdentityInverse | src/perlin.ts:66-74 | 0 is XOR's identity and every value is its own inverse |
| Perlin.XorCancel | src/perlin.ts:66-74 | XOR-ing the same value twice restores the original |
| Perlin.Xor3 | src/perlin.ts:66-74 | the hash of three table entries lies in `[0, 255]`, so the lattice vector table is never indexed out of range |
| Perlin.Xor3Laws | src/perlin.ts:66-74 | the hash is symmetric in its x and y entries, and a repeated entry cancels |
| Perlin.HermiteRange | src/perlin.ts:47-49 | the Hermite step maps `[0, 1]` into `[0, 1]` and fixes both ends |
| Perlin.Hermite | src/perlin.ts:47-49 | definition, no contract; `Perlin.HermiteRange` states that it maps `[0, 1]` into itself and fixes both ends |
| Perlin.Fraction | src/perlin.ts:43-46 | the fractional part lies in `[0, 1)` |
| Perlin.WeightsSumToOne | src/perlin.ts:85-93 | each pair of one-axis weights and the eight trilinear weights sum to 1 |
| Perlin.PerlinInterpAtCorner | src/perlin.ts:79-97 | with all three fractions zero the interpolation is zero |
| Perlin.PerlinInterp | src/perlin.ts:79-97 | definition, no contract; `Perlin.WeightsSumToOne` and `Perlin.PerlinInterpAtCorner` state its weights and its value at a corner |
| Perlin.NoiseZeroAtLattice | src/perlin.ts:42-97 | at an integer lattice point the noise is zero |
| Perlin.Noise | src/perlin.ts:42-77 | definition, no contract; `Perlin.NoiseZeroAtLattice` states that it vanishes at lattice points |
| Perlin.Turb | src/perlin.ts:28-40 | turbulence is non-negative, and zero when the depth runs no octave |
| Perlin.TurbLoopIsOctaves | src/perlin.ts:28-40 | the loop from octave `k` adds exactly the remaining octaves' weighted noise |
| Perlin.TurbLoop | src/perlin.ts:28-40 | definition, no contract; `Perlin.TurbLoopIsOctaves` and `Perlin.TurbClosedForm` state that it adds exactly the remaining octaves |
| Perlin.TurbClosedForm | src/perlin.ts:28-40 | `turb(p, d) = abs(sum over i < d of 0.5^i noise(2^i p))` |
| Hits.SetFaceNormal | js/hittable.js:13-18 | `frontface` exactly when the ray runs against the outward normal; the stored normal is the outward one or its negation and faces the ray; nothing else changes |
| Hits.Copy | js/hittable.js:19-27 | all seven fields are taken from the argument |
| Hits.HitRecordLaws | js/hittable.js:13-27 | `copy` leaves nothing of the receiver behind, and `setFaceNormal` is idempotent |
| Hits.FaceNormalOrientation | js/hittable.js:13-18 | the stored normal is the outward normal on a front face and its negation on a back face |
| Hits.Clip | js/hittable.js:43-50 | a hit survives the bound exactly when its `t` is below it, and is then unchanged |
| Hits.ClipTwice | js/hittable.js:43-50 | clipping by a bound and then a smaller one is clipping by the smaller one |
| Textures.NewCheckerXYZ | src/texture.ts:16-20 | the checker caches `invScale` with `invScale * scale = 1` |
| Textures.CheckerValue | src/texture.ts:22-29 | the first colour exactly when the sum of the three cell indices is even |
| Textures.CheckerParity | src/texture.ts:22-29 | raising the cell sum by one switches the colour, raising it by two keeps it |
| Textures.CheckerAlternates | src/texture.ts:18-29 | moving the point by one checker size along x switches between the colours, and by two sizes gives the same colour back |
| Textures.CheckerNegativeCells | src/texture.ts:22-29 | an illustration at two points of the general `Textures.CheckerValue`: JavaScript's `-1 % 2 == -1` still classifies a negative odd cell sum as odd |
| Textures.ImageColumn | src/texture.ts:69-70 | the column `abs(u w % w) >> 0` is an index in `[0, w)` |
| Textures.PixelIndex | src/texture.ts:72 | the byte offset of an in-image pixel is a multiple of 4 with room for its channels in the buffer |
| Textures.RowFits | src/texture.ts:72 | `col + row w` numbers an in-image pixel below `w h` |
| Textures.Channel | src/texture.ts:74-78 | a byte divided by 255 lies in `[0, 1]` |
| Textures.ImageValue | src/texture.ts:67-82 | a loaded image's colour has every channel in `[0, 1]` |
| Textures.NoiseGrey | src/texture.ts:94-99 | the noise colour is a grey, in `[0, 1]` whenever `sin` keeps to `[-1, 1]` |
| Textures.NoiseValue | src/texture.ts:94-99 | `NoiseTexture.value` is a grey of `0.5 (1 + sin(s.z + 10 turb(s)))`, in `[0, 1]` given the range of `sin` |
| Textures.Value | src/texture.ts:9-99 | the texture dispatch throws exactly for the UV checker; an image with no buffer gives CYAN, a loaded one channels in `[0, 1]`; noise is grey |
| Textures.SolidIgnoresInputs | src/texture.ts:9-14 | a solid colour is the same for every `u`, `v` and point |
| Materials.Emitted | js/material.js:25-27 | every material but a light emits black; a light emits its texture's value |
| Materials.LightOnlyEmitter | js/material.js:135-140 | only a light emits, and a material declines to scatter and writes nothing exactly when it is a light |
| Materials.MetalDirection | js/material.js:40-46 | with roughness 0 the direction is exactly the reflection of the unit incoming direction |
| Materials.MetalScatter | js/material.js:40-46 | throws exactly when the texture does; writes the texture's colour and a ray from the hit point even when it then declines; goes on exactly when the ray leaves on the normal's side |
| Materials.SmoothMetalMirrors | js/material.js:40-46 | a perfectly smooth metal scatters along the mirror direction of the unit incoming ray |
| Materials.SmoothMetalScattersAgainstNormal | js/material.js:40-46 | for a smooth metal, an incoming ray against a unit normal is always reflected on |
| Materials.DiffuseDirection | js/material.js:68-81 | the uniform direction lies in the normal's hemisphere; the Lambertian one is `normal + roughness r`, or the normal itself when that sum is near zero |
| Materials.DiffuseScatter | js/material.js:68-89 | always goes on from the hit point; an absorbed draw attenuates to black without reading the texture, otherwise the texture's colour times `1 - absorbtionProbability`, throwing exactly when the texture does |
| Materials.UniformDiffuseHemisphere | js/material.js:68-81 | a uniform diffuse scatter sends the ray into the normal's hemisphere |
| Materials.AbsorbedDiffuse | js/material.js:82-87 | a draw below `absorbtionProbability` gives a black attenuation and still goes on |
| Materials.Reflectance | js/material.js:119-123 | Schlick's reflectance at `cos = 1` is `r0` |
| Materials.ReflectanceRange | js/material.js:119-123 | for `cos` in `[0, 1]` and a positive index, `r0` lies in `[0, 1)` and the reflectance in `[r0, 1]` |
| Materials.R0Range | js/material.js:119-123 | for a positive index, `r0 = ((1 - n) / (1 + n))^2` lies in `[0, 1)` |
| Materials.Pow5 | js/material.js:122 | definition, no contract (`Math.pow(x, 5)`); `Materials.ReflectanceRange` depends on its sign and size |
| Materials.R0 | js/material.js:120-121 | definition, no contract; `Materials.R0Range` states its range |
| Materials.RefractionRatio | js/material.js:102 | the ratio is positive: `1 / ir` on a front face and `ir` on a back face |
| Materials.CosTheta | js/material.js:104 | `cos` is the dot of the reversed unit direction with the normal, clamped to at most 1 |
| Materials.DielectricScatter | js/material.js:100-116 | always goes on with white attenuation from the hit point; reflects exactly when it cannot refract or the reflectance beats the draw, and refracts otherwise |
| Materials.DielectricTotalReflection | js/material.js:104-112 | where `ratio sin > 1` the dielectric reflects, whatever the draw |
| Materials.CannotRefract | js/material.js:105-106 | definition, no contract; `Materials.DielectricTotalReflection` states that it forces reflection |
| Materials.DielectricRefractsOnDraw | js/material.js:106-112 | below total reflection the dielectric refracts exactly when the draw reaches the reflectance |
| Materials.Scatter | js/material.js:25-140 | the dispatch: a light declines and writes nothing; going on always comes with an attenuation and a ray from the hit point; diffuse and dielectric never decline |
| Spheres.BoundingBox | src/sphere.ts:15-16 | the box is ordered on every axis, negative radii included |
| Spheres.SurfaceInsideBox | src/sphere.ts:15-16 | every point of the surface lies in the box |
| Spheres.SurfaceAxis | src/sphere.ts:15-16 | on one axis, a coordinate of a surface point lies strictly inside the box's span exactly when one of the other two offsets from the centre is non-zero |
| Spheres.SurfaceStrictlyInsideBox | src/sphere.ts:15-16 | a point of the surface lies strictly inside the cached box exactly when it is none of the six points where an axis through the centre meets the sphere |
| Spheres.SetUV | src/sphere.ts:51-57 | only `u` and `v` change; both lie in `[0, 1]` when `acos` and `atan2` keep to their standard ranges |
| Spheres.RecordAt | src/sphere.ts:41-46 | the record holds the root, the point `at(t)` and the material; the normal is the outward one or its negation, facing the ray |
| Spheres.Hit | src/sphere.ts:23-49 | a negative discriminant misses; a hit lies strictly inside the window and its record is the one written for its root |
| Spheres.SurfaceEquation | src/sphere.ts:24-30 | the quadratic in `t` is the squared length of `at(t) - center` minus `r^2`, so its roots are exactly the ray's crossings of the sphere |
| Spheres.CompleteSquare | src/sphere.ts:28-39 | completing the square: `a` times the quadratic is `(a t + h)^2` minus the discriminant |
| Spheres.FormulaSolves | src/sphere.ts:32-39 | with an exact square root of the discriminant, both roots of the formula solve the quadratic |
| Spheres.SolutionsAreRoots | src/sphere.ts:32-39 | every solution of the quadratic is one of the formula's two roots |
| Spheres.SolvableDiscriminant | src/sphere.ts:28-30 | a quadratic with a solution has a non-negative discriminant, so the early return loses no crossing |
| Spheres.RootsOrdered | src/sphere.ts:32-39 | with `a > 0` the near root comes first |
| Spheres.Near | src/sphere.ts:33 | definition, no contract; `Spheres.FormulaSolves`, `Spheres.SolutionsAreRoots` and `Spheres.RootsOrdered` state that it is the smaller root |
| Spheres.Far | src/sphere.ts:35 | definition, no contract; `Spheres.FormulaSolves`, `Spheres.SolutionsAreRoots` and `Spheres.RootsOrdered` state that it is the larger root |
| Spheres.HitIsNearestCrossing | src/sphere.ts:23-49 | the recorded point lies on the sphere, no crossing of the sphere inside the window comes before it, and a miss means no crossing inside the window |
| Spheres.HitClips | src/sphere.ts:32-39 | searching up to `tmax` is searching without bound and dropping a hit at or beyond `tmax` |
| Spheres.OutwardNormal | src/sphere.ts:43 | on the surface the outward normal has length 1, and its projection on `p - center` is the radius, so it points toward the centre for a negative radius |
| Spheres.NegativeDiscriminantMisses | src/sphere.ts:28-30 | with a negative discriminant no point of the ray lies on the sphere, and `hit` reports nothing |
| Quads.BoxAsWritten | js/quad.js:12 | the source's box contains `fromPoints(Q, Q + u + v)`, one diagonal only |
| Quads.Box | js/quad.js:12 | the corrected box contains the hull of both diagonals |
| Quads.NormalFactor | js/quad.js:8-9 | `normalized(n)` is `n` times a non-zero factor |
| Quads.NewQuad | js/quad.js:3-13 | the constructor keeps `Q`, `u`, `v` and the material, and caches a normal orthogonal to both edges, `D = normal . Q` and `w` with `w . (u x v) = 1` |
| Quads.BoundingBox | js/quad.js:12 | every point `Q + a u + b v` with `a, b` in `[0, 1]` lies in the returned box; the source's one-diagonal box does not promise this (see "## Left out") |
| Quads.EdgesOrthogonal | js/quad.js:8-9 | the normal is orthogonal to both edges |
| Quads.InverseNormal | js/quad.js:11 | `w . n = 1` for `w = n / (n . n)` |
| Quads.Hit | js/quad.js:22-52 | a ray within 1e-8 of parallel misses; a hit lies strictly inside the window at `at(t)`, carries the material, records `u = alpha` and `v = beta` in `[0, 1]`, and has a normal facing the ray |
| Quads.RootOnPlane | js/quad.js:30-33 | the root puts the point on the plane, `normal . p = D` |
| Quads.OnPlaneOffset | js/quad.js:30-36 | a point of the plane differs from `Q` by a vector orthogonal to `u x v` |
| Quads.CoordinatesRoundTrip | js/quad.js:33-36 | for `p = Q + a u + b v`, `alpha(p) = a` and `beta(p) = b` |
| Quads.Alpha | js/quad.js:33-35 | definition, no contract; `Quads.CoordinatesRoundTrip` and `Quads.PlaneDecomposition` state that it recovers the coordinate along `u` |
| Quads.Beta | js/quad.js:33-36 | definition, no contract; `Quads.CoordinatesRoundTrip` and `Quads.PlaneDecomposition` state that it recovers the coordinate along `v` |
| Quads.PlaneDecomposition | js/quad.js:33-36 | conversely, every point of the plane is `Q + alpha u + beta v` for its own `alpha` and `beta` |
| Quads.ParallelogramInsideBox | js/quad.js:12 | every point of the parallelogram lies in the two-diagonal box |
| Quads.StrictAxis | src/aabb.ts:43-48 | on one axis, a point whose coordinates both lie strictly inside (0, 1) lies strictly inside the padded hull of the corners; an axis that neither edge moves along has zero width, and pad() widens it |
| Quads.InteriorStrictlyInsideBox | js/quad.js:12 | every point of the parallelogram whose coordinates both lie strictly inside (0, 1) lies strictly inside the two-diagonal box |
| Quads.HitOnQuad | js/quad.js:22-52 | a reported hit lies on the plane, at `Q + u' u + v' v` for its recorded coordinates, and inside the two-diagonal box |
| Quads.InteriorHitStrictlyInBox | js/quad.js:22-52 | a reported hit whose recorded coordinates both lie strictly inside (0, 1) lies strictly inside the cached box |
| Quads.HitWhenInterior | js/quad.js:30-52 | a non-parallel root inside the window with interior coordinates is reported with those coordinates |
| Quads.HitComplete | js/quad.js:22-52 | a point of the parallelogram reached inside the window by a non-parallel ray is reported, at that `t` |
| Quads.HitMissesOutside | js/quad.js:46-52 | a plane point whose coordinates are outside `[0, 1]` is not reported |
| Quads.IsInterior | js/quad.js:46-52 | definition, no contract; `Quads.HitMissesOutside` and `Quads.HitWhenInterior` state what it admits |
| Quads.HitClips | js/quad.js:30-32 | searching up to `tmax` is searching without bound and dropping a hit at or beyond `tmax` |
| Quads.BoxAsWrittenFlatX | js/quad.js:12 | when `u.x + v.x = 0` the source's box is only `2 delta` wide in x around `Q` |
| Quads.OutsideFlatBoxAsWritten | js/quad.js:12 | a point further than `delta` from `Q` in x lies outside that flat box |
| Quads.FlatQuadBoxes | js/quad.js:12 | such a point of the parallelogram lies outside the source's box and inside the two-diagonal box |
| QuadExamples.UnitSquareExample | js/quad.js:22-45 | the constructed unit square is hit at `t = 1` in its centre by the ray down from `(0.5, 0.5, 1)`, and is missed by the ray along `(2, 2, -1)` |
| QuadExamples.UnitSquareHits | js/quad.js:22-45 | the same two rays against any quad with the unit square's fields: a hit at `(0.5, 0.5)`, then a miss at `alpha = 2.5` |
| QuadExamples.DiamondFields | js/quad.js:3-13 | the constructor gives the 45-degree square exactly the fields the diamond lemmas assume |
| QuadExamples.DiamondHit | js/quad.js:22-45 | the ray down from `(0.9, 1, 1)` hits the diamond at `(0.9, 1, 0)`, a point outside the source's box and inside the two-diagonal box |
| QuadExamples.LeafTreeMisses | src/bvh.ts:47-54 | a node over a quad leaf whose cached box fails the box test reports nothing, while a list of the same leaf reports the quad's own hit |
| QuadExamples.LeafTreeFinds | src/bvh.ts:47-54 | when the box test passes, the node reports the quad's own hit, as the list does |
| QuadExamples.DiamondTreeAsWritten | js/quad.js:12 | with the source's box, a node over the diamond loses the hit a list of the same leaf finds |
| QuadExamples.DiamondTreeCorrected | js/quad.js:12 | with the two-diagonal box, the node finds the same hit as the list |
| Scenes.BoundingBox | src/bvh.ts:37-40 | a node's box contains both children's boxes |
| Scenes.NewSphere | src/sphere.ts:15-16 | a sphere leaf caches an ordered box |
| Scenes.NewSphereCovers | src/sphere.ts:15-16 | a sphere leaf's cached box holds every point of its surface |
| Scenes.NewQuad | js/quad.js:3-13 | a quad leaf keeps the quad it is built from |
| Scenes.NewQuadCovers | js/quad.js:12 | a quad leaf's cached box holds every point of the parallelogram |
| Scenes.Hit | js/hittable.js:40-53 | whatever the object, a reported hit lies strictly inside `(tmin, tmax)` |
| Scenes.ListFrom | js/hittable.js:43-50 | the list loop keeps its accumulated record or reports a hit strictly inside the current `closestSoFar` |
| Scenes.NewList | js/hittable.js:32-36 | a new list holds the objects and the default box, whatever the objects |
| Scenes.Add | js/hittable.js:54-57 | `add` appends and widens the box to contain the old box and the object's box |
| Scenes.Clear | js/hittable.js:58-60 | `clear` empties the objects and leaves the box stale |
| Scenes.AddAllAppends | js/hittable.js:54-57 | adding objects one after another appends them in order |
| Scenes.AddAllCovers | js/hittable.js:37-39 | the box of a list built by adding contains its start box and every added object's box |
| Scenes.ClearedListMisses | js/hittable.js:58-60 | a cleared list reports nothing, whatever its stale box |
| Scenes.NearestLowerBound | js/hittable.js:40-53 | no object's hit is nearer than the nearest |
| Scenes.NearestAttained | js/hittable.js:40-53 | the nearest is some object's hit, and every earlier object's hit is strictly farther |
| Scenes.NearestIsFirstMinimum | js/hittable.js:46-49 | the nearest is the first object among those of least `t`, and there is none exactly when every object misses |
| Scenes.NearestIsLeast | js/hittable.js:40-53 | the nearest's distance is the least distance of the objects' hits |
| Scenes.DistClip | js/hittable.js:43-50 | the distance of a clipped hit is its own distance below the bound, and infinite otherwise |
| Scenes.LeastDistUnique | js/hittable.js:40-53 | the least distance depends only on the set of objects, not their order or repetition |
| Scenes.ListFromIsNearest | js/hittable.js:43-50 | from any point of the loop, with the record so far the clipped nearest of the prefix, the loop ends with the clipped nearest of all the objects |
| Scenes.ListHitIsNearest | js/hittable.js:40-53 | `HittableList.hit` reports the nearest hit strictly inside `(tmin, tmax)`, the earliest object winning a tie, and nothing when no object hits there |
| Scenes.ListRegular | js/hittable.js:40-53 | a list of objects that search regularly searches regularly itself, so lists nest |
| Scenes.QuadRegular | js/quad.js:22-52 | a quad searches regularly (its bounded search is its unbounded one clipped) |
| Scenes.SphereRegular | src/sphere.ts:23-49 | a sphere searches regularly along a non-zero direction, given a non-negative square root |
| Bvh.Compare | src/bvh.ts:61-75 | the comparator returns -1 or 1, and -1 exactly when the first box's min on the axis is smaller |
| Bvh.CompareNeverEqual | src/bvh.ts:61-75 | even an object compared with itself is "greater": the comparators never return 0 |
| Bvh.InsertPermutes | src/bvh.ts:30-35 | insertion adds exactly the inserted object |
| Bvh.Insert | src/bvh.ts:31 | insertion lengthens the sequence by one; `Bvh.InsertPermutes` and `Bvh.InsertSorted` state its contents and order |
| Bvh.InsertSorted | src/bvh.ts:30-35 | insertion keeps a sorted sequence sorted |
| Bvh.SortPermutes | src/bvh.ts:30-35 | the sort returns a permutation of the slice |
| Bvh.SortSorted | src/bvh.ts:30-35 | the sort orders the objects by box minimum on the chosen axis |
| Bvh.Sort | src/bvh.ts:31 | the sort keeps the length; `Bvh.SortPermutes` and `Bvh.SortSorted` state that it is a sorted permutation |
| Bvh.Leaves | src/bvh.ts:20-35 | a tree has at least one leaf: a node over one object lists it twice, as `this.left = this.right` does |
| Bvh.Build | src/bvh.ts:12-41 | a non-empty span builds a node and consumes at least one draw |
| Bvh.BuildSmall | src/bvh.ts:20-29 | one object hangs under both children; two objects go lesser key on the left |
| Bvh.BuildLeaves | src/bvh.ts:18-35 | the leaves of the built tree are exactly the span's objects |
| Bvh.SplitKeeps | src/bvh.ts:30-35 | the two halves of the sorted copy hold exactly the span's objects |
| Bvh.FromHittableList | src/bvh.ts:43-45 | a non-empty list builds a node; an empty one builds the empty tree without a draw |
| Bvh.FromHittableListLeaves | src/bvh.ts:43-45 | the tree over a list has exactly the list's objects as leaves |
| Bvh.EmptySpanNeverReturns | src/bvh.ts:18-35 | the constructor as written, on an empty span, does not return within any depth |
| Bvh.BuildAsWritten | src/bvh.ts:12-41 | definition, no contract (the constructor with a depth bound); `Bvh.EmptySpanNeverReturns` and `Bvh.AsWrittenAgrees` state how it ends |
| Bvh.BuildSpan | src/bvh.ts:12-41 | the constructor with the empty span given a meaning: a non-empty span builds a node, the empty one the empty tree |
| Bvh.BuildSpanTotal | src/bvh.ts:12-41 | on a non-empty span it is what the constructor as written returns within a depth equal to the span's length; on the empty span its tree reports no hit |
| Bvh.AsWrittenAgrees | src/bvh.ts:12-41 | on a non-empty span the constructor as written returns, with enough depth, exactly `Build`'s tree |
| Bvh.LeavesInBox | src/bvh.ts:37-40 | a node's box contains the box of every object below it |
| Bvh.NearestConcat | src/bvh.ts:47-54 | the nearest hit of two concatenated object lists is the nearer of their two nearest hits |
| Bvh.LeafHitIsNearest | src/bvh.ts:47-54 | a leaf's own search up to `tmax` reports its nearest hit below `tmax` |
| Bvh.NearestInBox | src/bvh.ts:47-54 | the nearest hit below a node lies strictly inside the node's box |
| Bvh.PrunedMisses | src/bvh.ts:47-54 | when the node's box test fails, no object below has a hit before `tmax` |
| Bvh.TreeHitIsNearest | src/bvh.ts:47-54 | `BVHNode.hit` reports the nearest hit below the node inside `(tmin, tmax)`: pruning by boxes loses nothing |
| Bvh.BvhAgreesWithList | src/bvh.ts:43-54 | the tree built over a list's objects reports a hit exactly when the list does, at the same `t` |
| Bvh.QuadBoxed | js/quad.js:12 | a constructed quad whose hit has both coordinates strictly inside (0, 1) keeps that hit strictly inside its cached box, as the strict slab test of a node requires |
| Bvh.SphereBoxed | src/sphere.ts:15-16 | a constructed sphere's hit lies strictly inside its cached box exactly when it is off the three axes through the centre |
| Bvh.ClearLeavesAreGood | src/bvh.ts:47-54 | constructed spheres and quads whose hits avoid the faces of their boxes search regularly and keep their hits strictly inside their boxes, which is what the tree's search needs of its leaves |
| Bvh.BvhAgreesOnClearScenes | src/bvh.ts:43-54 | for a scene of constructed spheres and quads whose hits avoid the faces of their boxes, the tree reports a hit exactly when the list does, at the same `t` |
| Cameras.ViewportHeight | demo/js/camera.js:34-38 | the viewport height `2 tan(theta / 2) focalLength` is positive exactly when the half-angle slope and the focal length have the same sign, and zero exactly when either is zero |
| Cameras.ViewportHeightScales | demo/js/camera.js:34-38 | the viewport height is linear in the focal length: scaling the focal length by `k` scales the height by `k` |
| Cameras.NewCamera | demo/js/camera.js:7-25 | the camera starts at the origin, looking down -z with y up in a right-handed frame, against sky blue, with a viewport fitting its settings |
| Cameras.SetViewPort | demo/js/camera.js:34-39 | the viewport is made to fit and nothing else changes |
| Cameras.UpdateFOV | demo/js/camera.js:26-29 | the field of view and the viewport change, nothing else |
| Cameras.UpdateAspectRatio | demo/js/camera.js:30-33 | the aspect ratio and the viewport change, nothing else |
| Cameras.SetViewPortFixesFitting | demo/js/camera.js:34-39 | a camera whose viewport already fits is left as it is |
| Cameras.UpdateFOVRoundTrip | demo/js/camera.js:26-29 | changing the field of view and changing it back restores a fitting camera |
| Cameras.UpdatesCommute | demo/js/camera.js:26-33 | the two updates commute |
| Cameras.LookAtOrthonormal | demo/js/camera.js:54-60 | given exact normalisation of non-degenerate vectors, `lookAt` leaves a right-handed orthonormal frame with `lookdir = -w` |
| Cameras.LookAt | demo/js/camera.js:54-60 | `lookAt` rebuilds `w`, `u`, `v` pairwise orthogonal with `lookdir = -w`, and changes no other field |
| Cameras.CrossOfFrame | demo/js/camera.js:54-60 | in an orthonormal pair, `u x (w x u) = w`: the recomputed `v` completes the frame |
| Cameras.HitMaterial | js/hittable.js:40-53 | the record of a hit carries the material of an object of the scene |
| Cameras.SceneSearch | demo/js/camera.js:43-44 | the camera's search is `scene.hit(ray, 1e-8, Infinity)`: every hit it reports lies beyond `t = 1e-8`, and carries a material meeting any requirement that all of the scene's materials meet |
| Cameras.SceneReports | demo/js/camera.js:43-48 | a scene whose objects all meet a requirement reports only hits whose material meets it |
| Cameras.Interact | demo/js/camera.js:48-50 | `emitted` then `scatter`: non-lights emit black; going on comes with a written attenuation and a ray from the hit point; glass always goes on with white |
| Cameras.Bounces | demo/js/camera.js:40-53 | the recursion ends after at most `depth + 1` scatters |
| Cameras.RayColor | demo/js/camera.js:40-53 | definition, no contract (the recursion with a fresh attenuation); `Cameras.RayColorEnds`, `Cameras.Bounces`, `Cameras.DarkSceneIsBlack` and `Cameras.SeenLightEmits` state what it returns |
| Cameras.RayColorEnds | demo/js/camera.js:41-45 | below depth 0 the colour is black without a look at the scene; a miss shows the background |
| Cameras.DarkSceneIsBlack | demo/js/camera.js:40-53 | with fresh attenuations, a scene without lights against a black background renders black at every depth |
| Cameras.SeenLightEmits | demo/js/camera.js:48-50 | a light hit directly contributes its emission and nothing more, whatever the depth |
| Cameras.AliasedAttenuation | js/material.js:40-112 | what `Color3.BLACK` holds after `scatter` wrote to it: unchanged when nothing is written, the written colour for glass |
| Cameras.RayColorAsWritten | demo/js/camera.js:40-53 | definition, no contract (the recursion through the shared `Color3.BLACK`); `Cameras.AsWrittenAgreesWithoutScatter`, `Cameras.DielectricAtLastBounce` and `Cameras.GlassSquareDiverges` compare it with `Cameras.RayColor` |
| Cameras.AsWrittenAgreesWithoutScatter | demo/js/camera.js:41-45 | without a scatter the as-written recursion returns what the fresh one does, and `BLACK` keeps its value |
| Cameras.DielectricAtLastBounce | demo/js/camera.js:40-53 | a glass hit at depth 0 is black with fresh attenuation, but white as written, and leaves `BLACK` white |
| Cameras.GlassSquareDiverges | demo/js/camera.js:47-52 | on a concrete glass square the fresh recursion returns black and the as-written one returns white |
| Cameras.GlassSquareHit | demo/js/camera.js:43-44 | the camera's search finds the glass unit square at `t = 1` from `(0.5, 0.5, 1)` looking down |
| Cameras.QuadSceneHit | demo/js/camera.js:43-44 | a one-quad scene's search is the quad's own `hit` from `1e-8` to `Infinity` |
| Devices.BeginFrame | device.js:151-158 | a moving frame resets the count; a still frame counts one more up to the window, with weights `1 - 1/n` and `1/n` that sum to 1, failing exactly when the count is 0 |
| Devices.BeginFrameSteady | device.js:151-158 | every frame keeps a steady accumulator steady; a still count lies in `[1, window]` and rises by one inside the window |
| Devices.InitialSteady | device.js:25-30 | the constructor's accumulator is steady |
| Devices.SetWindow | device.js:78-80 | only the window changes |
| Devices.SetWindowRecovers | device.js:78-80 | after shrinking the window, the next still frame clamps the count back into it; a window of 0 makes that frame fail |
| Devices.SaturatedWeight | device.js:151-155 | once the window is full each still frame weighs `1/window`: an exponential moving average |
| Devices.BlendTowards | device.js:133-135 | a blend lies `prevWeight` of the way from the new value back to the stored one |
| Devices.Blend | device.js:133-135 | definition, no contract; `Devices.BlendTowards` states where the blend lies between the stored and new values |
| Devices.RoundHalfEven | device.js:115-118 | the rounded integer is within one half of the value |
| Devices.ClampByte | device.js:115-118 | a store clamps to `[0, 255]` and then rounds to within one half |
| Devices.ClampByteExact | device.js:115-118 | a whole number in range is stored as it is |
| Devices.ClampByteBetween | device.js:115-118 | a value between a number and its rounded byte rounds to the same byte |
| Devices.FrameWeights | device.js:151-155 | a counted frame's new weight lies in `(0, 1]` and the old one in `[0, 1)` |
| Devices.StillFrameSteady | device.js:151-155 | a still frame inside the window keeps the accumulator steady and counts one more |
| Devices.StillFrame | device.js:122-155 | definition, no contract (one still frame of one channel); `Devices.MeanFrame` states what it stores |
| Devices.Accumulate | device.js:122-155 | definition, no contract (successive still frames); `Devices.RunningMean`, `Devices.RunningMeanQuotient` and `Devices.ConstantStays` state what it stores |
| Devices.MeanFrame | device.js:122-140 | one more frame keeps `k` times the stored byte within the rounding slack of 255 times the sum of the frames |
| Devices.RunningMean | device.js:122-155 | after a reset and `k <= window` still frames, `k` times the stored byte is 255 times the frames' sum, up to `k (k + 1) / 4` of accumulated rounding |
| Devices.RunningMeanQuotient | device.js:122-155 | the stored byte is within `(k + 1) / 4` of 255 times the mean frame value |
| Devices.ConstantFrame | device.js:122-140 | a frame of value `c` stores the byte `255 c` rounds to, after a reset or once that byte is stored |
| Devices.ConstantStays | device.js:122-155 | a constant image stays constant through any number of still frames, beyond the window too |
| Devices.PixelAt | device.js:108 | a row-major pixel number read back as (column, row), the column below the width |
| Devices.PixelIndexInBuffer | device.js:108 | an in-image pixel's four channels lie inside the `4 width height` buffer, at a multiple of 4 |
| Devices.PixelRoundTrip | device.js:108 | numbering a pixel row by row and reading the number back gives the pixel |
| Devices.PixelIndexInjective | device.js:108 | distinct in-row pixels have distinct offsets |
| Devices.Store | device.js:115-118 | a typed-array store changes exactly the one channel, to the clamped and rounded byte; an offset outside the buffer is ignored |
| Devices.LinearToGamma | device.js:142-144 | with an exact root, the corrected value is non-negative and squares back to the linear one |
| Devices.GammaCorrect | device.js:110-114 | with correction off the colour is untouched |
| Devices.GammaSquares | device.js:110-114 | with exact roots the corrected colour times itself is the linear colour |
| Devices.Store4 | device.js:115-118 | four consecutive channels take the four bytes; nothing else changes |
| Devices.WritePixel | device.js:107-119 | the pixel's channels hold the (corrected) colour scaled to bytes, alpha 255, and no other channel changes |
| Devices.WritePixelProgressive | device.js:122-140 | each colour channel stores the byte of the blend of its old byte with the new value, alpha 255, and no other channel changes |
| Devices.FirstFrameWritesRaw | device.js:122-140 | the first still frame after a reset writes exactly what `writePixel` writes |
| Devices.ProgressiveIsStillFrame | device.js:122-155 | each channel the progressive write stores is what the per-channel accumulator stores, so the running-mean lemmas speak about the back buffer |
| Devices.ViewportCells | device.js:159-168 | the viewport around the point `focalLength` along `lookdir` is cut into `width x height` cells, with pixel (0, 0)'s centre half a cell in from the upper-left corner |
| Devices.PixelCentreAt | device.js:159-168 | pixel (i, j)'s centre lies `i + 1/2 - width/2` cells across and `j + 1/2 - height/2` down from the view centre |
| Devices.ViewportOf | device.js:159-168 | definition, no contract; `Devices.ViewportCells` states the geometry it builds |
| Devices.PixelCentre | device.js:168-177 | definition, no contract; `Devices.PixelCentreAt` and `Devices.PixelCentreInViewport` state where it lies |
| Devices.PixelCentreInViewport | device.js:159-178 | the intended aim: every pixel's own centre lies strictly inside the viewport, symmetric about its centre |
| Devices.RowAimsAsWritten | device.js:173-178 | the row loop as written steps before it traces, so pixel `i` aims at the centre of pixel `i + 1` |
| Devices.StepAcross | device.js:177 | one `plusEquals` of `du` moves from one pixel's centre to the next one's |
| Devices.AsWrittenAimLeavesViewport | device.js:173-178 | as written, the last pixel of each row aims half a cell beyond the viewport's right edge |
| Devices.PixelOffset | device.js:145-149 | along orthogonal steps the jitter's component along each step is `(draw - 1/2)` steps |
| Devices.JitterStaysInCell | device.js:145-149 | a pixel centre moved by the jitter stays inside that pixel's cell |
| Devices.RayCount | device.js:172-184 | one ray always, and `numSamples` rays when that is at least 1 |
| Devices.PixelRays | device.js:172-184 | all rays leave the eye; the first aims at the pixel centre, each later one at the centre moved by its jitter |
| Devices.SumSamplesOk | device.js:172-184 | the sum of a pixel's samples exists exactly when every sample does |
| Devices.Average | device.js:185-188 | the average fails exactly when `numSamples` is 0; otherwise it times `numSamples` is the sum |
| Devices.SumOfEqual | device.js:172-184 | `n` samples of the same colour sum to `n` times it |
| Devices.AverageOfEqual | device.js:172-188 | averaging equal samples gives the sample back |
| Devices.ChangeProgressRenderingWindowSize | device.js:78-80 | on the device only the accumulator's window changes |
| Devices.ZeroSamplesFail | device.js:185-188 | with `numSamples = 0` every pixel's colour fails |
| Devices.PixelColor | device.js:172-188 | the pixel's colour exists exactly when `numSamples` is not 0 and every sample's colour exists, and then `numSamples` times it is the samples' sum |
| Devices.Shading | device.js:172-188 | every pixel gets the mean of its samples: `numSamples` times its colour is the samples' sum, and with `numSamples = 0` no pixel gets a colour |
| Devices.Writer | device.js:107-188 | the frame's write, `writePixel` while moving and `writePixelProgressive` while still, keeps the length, leaves every other pixel's channels alone and depends only on its own block |
| Devices.WriterKeepsToBlock | device.js:107-140 | any write that acts as `PixelWrite` keeps the length, leaves every other pixel's channels alone, and depends only on its own block |
| Devices.PaintRowShows | device.js:175-189 | painting a row leaves its pixels shown and every later pixel as it was |
| Devices.PaintRowsShows | device.js:173-190 | after `j` rows, rows `0 .. j - 1` are shown and the rest hold their old channels |
| Devices.FramePixels | device.js:173-190 | in a painted frame every pixel's channels are what writing its colour into the old buffer gives |
| Devices.FrameFails | device.js:173-190 | one pixel whose colour fails makes the whole frame fail |
| Devices.FrameOk | device.js:173-190 | the frame paints exactly when every pixel has a colour |
| Devices.PaintRowLoop | device.js:175-189 | the inner loop paints the row, or fails exactly when the row fails |
| Devices.PaintFrameLoop | device.js:173-190 | the outer loop paints the frame, or fails exactly when the frame fails |
| Devices.RenderedFrameOk | device.js:173-190 | the rendered frame paints exactly when every pixel's colour exists |
| Devices.RenderedPixel | device.js:173-190 | in the rendered frame, each pixel's channels are what its write puts there from the old buffer |
| Devices.Render | device.js:150-192 | one frame: it succeeds exactly when counting the frame and every pixel's colour succeed; the accumulator is counted, `cameraMoving` cleared, the buffer is the frame painted row by row, and nothing else changes |

## Left out

- Devices.Render: traces pixel (i, j) through its own centre; the source traces it through the centre of (i + 1, j). `Devices.RowAimsAsWritten` models the source's row loop, and "## Findings" records the difference. A failing pixel colour makes the model return an error, dropping the advanced accumulator and the rows painted so far, which the source keeps when the exception escapes `render`; no scene the device builds uses a texture or material that throws.
- Devices.PixelColor: traces with `Cameras.RayColor`, whose attenuation is a fresh value. The source's placeholder is the shared `Color3.BLACK`, which persists across bounces, pixels and frames. `Cameras.RayColorAsWritten` models that for one ray; the device does not thread `BLACK`'s value from one pixel to the next.
- Scenes.NewQuad: caches the two-diagonal `Quads.Box`. The source caches the one-diagonal `Quads.BoxAsWritten` (js/quad.js:12), so the model's BVH over quads is the corrected one. `QuadExamples.DiamondTreeAsWritten` shows what the source's box loses.
- Quads.BoundingBox: returns the two-diagonal `Quads.Box`, which holds the whole parallelogram. The source's `boundingBox()` returns the box its constructor cached, `fromPoints(Q, Q + u + v).pad()` over one diagonal (js/quad.js:12), modelled as `Quads.BoxAsWritten`; "## Findings" records the difference.
- Perlin.NewTables: shuffles with `Perlin.GeneratePermutationFisherYates`, the corrected half of the Sattolo finding. The source calls `generatePermutation` (src/perlin.ts:23-25), modelled as `Perlin.GeneratePermutation`. Both leave tables that satisfy `Perlin.Valid`, and nothing downstream depends on which permutation it is.
- Bvh.BvhAgreesWithList: assumes every leaf's hits lie strictly inside its box (`Bvh.Boxed`), which `Boxes.HitComplete` needs. `Bvh.BvhAgreesOnClearScenes` discharges this for constructed spheres hit off the axes through their centre, and for constructed quads hit with both coordinates strictly inside (0, 1). A hit on a box face is not covered. The slab test returns false only when the window closes, `ray_t.max <= ray_t.min` (src/aabb.ts:58-79). A ray that crosses a face keeps its window open, and a ray lying in a face's plane gets `0 * Infinity = NaN`, which narrows nothing. So the source can lose such a hit only when the window closes to a point, the ray entering and leaving the box at the same `t`, as at a box corner that a quad's corner sets. The model does not prove agreement there.
- Devices.BeginFrame: a count of 0 (window 0) gives `Error`. The source computes `1 / 0 = Infinity` and goes on writing (device.js:153).
- Devices.Average: `numSamples = 0` gives `Error`. The source scales the one traced sample by `Infinity` (device.js:186-188).
- Scenes.Hit: a sphere of radius 0 is a miss. The source divides by the radius and records a NaN normal (src/sphere.ts:43).
- Spheres.Hit: a zero direction (`a = 0`) gives no hit. The source's root is `0 / 0 = NaN`, which no comparison rejects, so it reports a hit at NaN.
- Vectors.Normalized: a zero vector is returned as it is. The source divides by length 0 and gets NaN components.
- Materials.ValidMaterial: requires a positive refractive index for a dielectric (and well-formed textures). The source accepts any index; with index 0 it takes `1 / 0 = Infinity` as the refraction ratio at front faces (js/material.js:102), so oblique rays there always reflect. Every dielectric the scenes build uses 1.5 (device.js:198, 309, 323).
- Quads.NewQuad: requires non-parallel edges. The source accepts parallel `u` and `v`; then the normal and `w` are NaN, every rejection test in `hit` and `isInterior` is false, and every ray reports a hit at `t = NaN`.
- Textures.NewCheckerXYZ: requires a non-zero scale. The source stores `1 / 0` and every cell index becomes infinite or NaN.
- Vectors.NormalizedIsUnit and Cameras.LookAtOrthonormal: assume an exact square root, because floating-point rounding is not modelled.
- Floating point in general: rounding, `-0`, overflow, and NaN and infinities beyond the cases named above are not modelled.
- The canvas: context creation, `clear`, `present` and the `getImageData` buffer's origin (device.js:13-18, 96-105) are I/O. The buffer is an input of the right length.
- The scene builders and `changeScene` (device.js:34-60, 194-336): they only assemble objects with `Math.random`. A scene is an input, given as a search function together with the requirement that its materials are evaluable.
- `changeHeight`, `changeFOV`, `changeNumSamples`, `changeMaxDepth` and `toggleGammaCorrection` (device.js:61-83): one-field setters. The camera updates they call are modelled in `Cameras`.
- `moveCamera` and `rotateCamera` (device.js:84-95): input handlers that move the camera and set `cameraMoving`. `lookAt`, which they call, is modelled.
- `ImageTexture.load` (src/texture.ts:47-65): asynchronous image decoding. The decoded width, height and bytes are inputs.
- `randomInUnitSphere` and `randomUnitVector` (demo/js/vector.js:23-35): the rejection loop has no termination bound, and `randomUnitVector` is `randomInUnitSphere().normalized()`. Their results are inputs: `Materials.Sample` carries the unit vector each scatter uses, for the Lambertian and the Uniform diffuse alike.
- The UI (demo/js/main.js, src/main.ts) and the superseded `src/*.ts` snapshots of the JavaScript files.

## Findings

| source | as written | input that shows it | evidently intended | confidence | as-written member | corrected member |
|---|---|---|---|---|---|---|
| src/perlin.ts:101-107 | position `i` is swapped with `randomInt(i)`, which lies in `[0, i)` and never picks `i` itself (Sattolo's shuffle) | any run with `n >= 2`: the result never has a fixed point, so the identity table is unreachable | Fisher–Yates, `randomInt(i + 1)`, which can return every permutation | not executed | Perlin.GeneratePermutation | Perlin.GeneratePermutationFisherYates |
| demo/js/camera.js:47 | the attenuation out-parameter is the shared `Color3.BLACK`; `scatter` overwrites it, and `mul` reads it after the recursive call | a glass quad hit at depth 0: the recursion below returns `BLACK`, which the glass has just made white, so the pixel is white | a fresh attenuation per bounce, so that depth exhaustion contributes black | not executed | Cameras.GlassSquareDiverges | Cameras.DarkSceneIsBlack |
| js/quad.js:12 | the box is `fromPoints(Q, Q + u + v).pad()`, which spans one diagonal only | `Q = 0`, `u = (1, 1, 0)`, `v = (-1, 1, 0)` and the ray down from `(0.9, 1, 1)`: the quad is hit at `(0.9, 1, 0)`, but the box is `2e-4` wide in x, so a BVH node prunes the hit | the hull of both diagonals, which contains the whole parallelogram | not executed | QuadExamples.DiamondTreeAsWritten | QuadExamples.DiamondTreeCorrected |
| src/bvh.ts:18-35 | a span with `end = start` reaches the sort branch and recurses on the same empty span | `BVHNode.fromHittableList` of an empty list: the constructor never returns | an empty span builds an empty node that no ray hits | not executed | Bvh.EmptySpanNeverReturns | Bvh.BuildSpanTotal |
| device.js:174-178 | `pixel_ij.plusEquals(pixeldeltaU)` runs before the ray is aimed | pixel `(width - 1, j)` aims half a cell beyond the viewport's right edge, and no ray aims at column 0's centre | aim at `pixel_00 + i du + j dv`, then step | not executed | Devices.AsWrittenAimLeavesViewport | Devices.PixelCentreInViewport |
