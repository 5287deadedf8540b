# Perlin noise, verified model

A Dafny model of the noise pipeline of `index.js` in perlin-noise-js: the
integer hash that picks a gradient for each lattice point (`randomGradient`),
the linear blend `interpolate`, the gradient dot product `dotGridGradient`,
Perlin noise `noise`, fractal Brownian motion `noiseFBM` and the terrain
colouring `mapColors`.

- `JsBigInt` (bigint.dfy) gives JavaScript BigInt semantics on unbounded
  integers: `%` truncates toward zero, `^` and `|` act on the infinite
  two's-complement expansion, `<<` multiplies by a power of two and `>>`
  floors.
- `GradientHash` (hash.dfy) is the straight-line hash of lines 28-38 over
  those operations, for all integer inputs (negative coordinates included,
  because panning produces them), and the angle of line 41.
- `Interpolation` (interpolate.dfy) is the unclamped blend. It also holds the
  sign facts about products used throughout.
- `NoiseField` (noise.dfy) is `dotGridGradient` and `noise` over `real`, with
  `Math.floor` as `.Floor`. The map from angle to gradient vector
  (`Math.cos`, `Math.sin`) is a parameter `dir`, and `RandomGradient` is
  `randomGradient` built on it. The noise takes its lattice of gradients as a
  parameter `grad`; `HashedGradients(dir)` is the lattice that
  `randomGradient` produces. The bounds assume only that the gradient
  components lie in `[-1, 1]`, which `UnitDirectionsAreBounded` derives from
  unit length and `HashedGradientsBounded` carries over to the hashed lattice.
- `Fbm` (fbm.dfy) is the `noiseFBM` loop as a method, proved against the
  recursive octave sum `OctaveSum`. The loop only samples the noise, so the
  module is written for any sampling function. `PerlinFbm` instantiates it
  with `NoiseField.Noise`.
- `ColorMap` (colors.dfy) is `mapColors`, with a reference definition by
  counting the thresholds reached.

The code reduces coordinates with JavaScript's truncating `%`, so a negative
coordinate can yield a negative hash and a negative angle, as `(0, -1)` does
(`HashNegativeCoordinate`); a negative multiple of `2^32 - 1` still reduces to
0 and hashes like 0 (`HashPeriodic`). A description of the
program as reducing with a non-negative modulo would disagree. The model
follows the code: `HashNegativeCoordinate` exhibits `HashInt(0, -1) ==
-1004830855`. The angle then lies in `(-2π, 2π)` rather than the
`[0, 2π]` of the comment on line 41. Because cosine and sine are periodic,
this gives a different but still valid direction, so it is not reported as a
defect.

## Model

| member | source | states |
|---|---|---|
| JsBigInt.TruncRem | index.js:32-38 | BigInt `%`: `n == d * TruncQuot(n, d) + r`, with `r` of the sign of `n` and magnitude below `d` |
| JsBigInt.TruncQuot | index.js:32-38 | the truncating quotient behind BigInt `%` has the sign of the dividend |
| JsBigInt.Pow2Add | index.js:30 | `2^(m+n) == 2^m * 2^n`, the basis of the shift widths |
| JsBigInt.Pow2Of16 | index.js:29 | helper: `2^16 == 0x10000`, the shift width |
| JsBigInt.Pow2Of32 | index.js:30 | helper: `2^32 == 0x100000000`, one more than the modulus |
| JsBigInt.Pow2Of48 | index.js:35 | helper: `2^48`, the bound on a shifted 32-bit value |
| JsBigInt.Pow2Of64 | index.js:34 | helper: `2^64`, the bound on a product of two 32-bit values |
| JsBigInt.ShiftLeft | index.js:35-37 | `a << k` has its low `k` bits zero and shifting it back right by `k` gives `a` |
| JsBigInt.MultipleDivides | index.js:35-37 | helper for `ShiftLeft`: a multiple of `p` divides by `p` exactly |
| JsBigInt.ShiftRight | index.js:35-37 | `a >> k` is the floor of `a / 2^k`: `r * 2^k <= a < (r + 1) * 2^k`, so negative values round down |
| JsBigInt.Xor | index.js:35-37 | `^`: the lowest bit is set exactly when the operands' lowest bits differ, and the result is negative exactly when one operand is; every bit is stated in `XorBits`; further properties in `XorBound` and `XorZero` |
| JsBigInt.Or | index.js:35-37 | the OR operator: the lowest bit is set exactly when either operand's is, and the result is negative exactly when either operand is; every bit is stated in `OrBits`; further properties in `OrBound`, `OrZeroOrAllOnes` and `OrShiftedLow` |
| JsBigInt.HalfKeepsSign | index.js:35-37 | helper for `Xor` and `Or`: halving keeps the sign |
| JsBigInt.AppendBit | index.js:35-37 | helper for `Xor` and `Or`: appending a low bit sets the lowest bit and keeps the sign |
| JsBigInt.XorBound | index.js:35-37 | XOR of two `n`-bit non-negative values has at most `n` bits |
| JsBigInt.OrBound | index.js:35-37 | OR of two `n`-bit non-negative values has at most `n` bits |
| JsBigInt.XorBits | index.js:35 | bit `i` of `a ^ b` is set exactly when bit `i` of `a` and bit `i` of `b` differ, for every `i` and all integers, negative ones included |
| JsBigInt.OrBits | index.js:35-37 | bit `i` of the OR of `a` and `b` is set exactly when bit `i` of `a` or bit `i` of `b` is set, for every `i` and all integers |
| JsBigInt.QuotientUnique | index.js:35-37 | helper for `HalveQuotient`: the Euclidean quotient is the unique `q` with remainder in `[0, d)` |
| JsBigInt.HalveQuotient | index.js:35-37 | helper for `BitOfHalf`: `(a / 2) / p == a / (2p)` |
| JsBigInt.BitOfHalf | index.js:35-37 | helper for `XorBits` and `OrBits`: bit `i` of `a` is bit `i - 1` of `a >> 1` |
| JsBigInt.XorHalf | index.js:35 | helper for `XorBits`: `(a ^ b) >> 1 == (a >> 1) ^ (b >> 1)` |
| JsBigInt.OrHalf | index.js:35-37 | helper for `OrBits`: shifting right by one commutes with OR |
| JsBigInt.XorZero | index.js:35-37 | `0 ^ b == b` for every two's-complement `b` |
| JsBigInt.OrZeroOrAllOnes | index.js:35-37 | OR with 0 gives `a` and OR with -1 gives -1 |
| JsBigInt.OrShiftedLow | index.js:35-37 | OR of `x << n` with an `n`-bit signed `y` fills the low bits (non-negative `y`) or is `y` (negative `y`) |
| GradientHash.ModulusIsMersenne | index.js:28-30 | `m == 2^32 - 1` and the shifts `s` and `w - s` are both 16 |
| GradientHash.Reduce | index.js:32-33 | `BigInt(v) % m` lies in `(-m, m)` and is non-negative for non-negative `v` |
| GradientHash.Scramble | index.js:34-38 | each multiplicative step lands in `(-m, m)` |
| GradientHash.Fold | index.js:35-37 | each XOR/OR mixing step lands in `(-m, m)` |
| GradientHash.HashInt | index.js:28-38 | the hashed integer lies in `(-m, m)` for every lattice point |
| GradientHash.Angle | index.js:39-41 | for a hash in `[0, m)` the angle is in `[0, 2π)`; for any hash it is in `(-2π, 2π)` |
| GradientHash.ScrambleFits | index.js:34-38 | on reduced non-negative values the product is below `2^64` and the step's result is in `[0, m)` |
| GradientHash.MulAtMost | index.js:34-38 | helper for `ScrambleFits`: a non-negative factor keeps an upper bound on a product |
| GradientHash.ShiftsFit | index.js:35-37 | helper for `FoldFits`: a reduced non-negative value shifted left by 16 is below `2^48` and shifted right by 16 is below `2^16` |
| GradientHash.FoldFits | index.js:35-37 | on reduced non-negative values the shifted operand, the XOR and the OR are below `2^48` and the result is in `[0, m)` |
| GradientHash.HashNonNegativeRange | index.js:30-41 | for non-negative coordinates the hash is in `[0, 2^32 - 1)` and the angle in `[0, 2π)` |
| GradientHash.HashOfResidues | index.js:32-33 | the hash depends on the coordinates only through `ix % m` and `iy % m` |
| GradientHash.HashPeriodic | index.js:30-33 | shifting a coordinate by `2^32 - 1` away from zero leaves the hash unchanged |
| GradientHash.ReducePeriodic | index.js:32-33 | `BigInt(v) % m` does not change when `v` moves by `2^32 - 1` away from zero |
| GradientHash.HashOrigin | index.js:32-38 | the origin hashes to 0 |
| GradientHash.NeighbourFolds | index.js:35-37 | the two mixing steps taken by the point `(0, 1)`, computed exactly |
| GradientHash.MulBShifts | index.js:35-37 | helper for `NeighbourFolds` and `NegativeFolds`: the two shifts of `±1911520717`, computed exactly, with the right shift flooring |
| GradientHash.HashNeighbour | index.js:28-41 | `(0, 1)` hashes to 4096844905, so it gets a different angle from its neighbour `(0, 0)` |
| GradientHash.NegativeFolds | index.js:35-37 | the two mixing steps taken by `(0, -1)` stay negative: arithmetic right shift and infinite leading ones |
| GradientHash.HashNegativeCoordinate | index.js:32-41 | `(0, -1)` hashes to -1004830855, a negative angle: truncating `%` keeps the sign |
| Interpolation.Interpolate | index.js:4-16 | weight 0 gives `a0`, weight 1 gives `a1`, and a weight in `[0, 1]` gives a value between `min(a0, a1)` and `max(a0, a1)` |
| Interpolation.InterpolateExtrapolates | index.js:5-9 | nothing clamps: a weight above 1 lands beyond `a1`, below 0 beyond `a0` |
| Interpolation.InterpolateAbsBound | index.js:9 | magnitude bounds on the ends give the blended magnitude bound on the result |
| Interpolation.InterpolateIsAffine | index.js:9 | the blend is `(1 - w) * a0 + w * a1` |
| NoiseField.UnitDirectionsAreBounded | index.js:42 | unit-length gradient vectors, such as `(cos t, sin t)`, have components in `[-1, 1]` |
| NoiseField.RandomGradient | index.js:39-42 | the gradient is the direction at the hashed angle, with components in `[-1, 1]` for bounded directions |
| NoiseField.HashedGradientsBounded | index.js:28-42 | with bounded directions every lattice point's hashed gradient has components in `[-1, 1]` |
| NoiseField.GradientOfResidues | index.js:32-42 | lattice points with the same residues modulo `2^32 - 1` get the same gradient |
| NoiseField.DotGridGradient | index.js:46-56 | the dot product vanishes at the lattice point itself |
| NoiseField.ZeroOffsetDot | index.js:55 | helper for `DotGridGradient`: a zero offset has a zero dot product |
| NoiseField.DotGridGradientBound | index.js:46-56 | with gradient components in `[-1, 1]` the dot product is at most the offset's Manhattan length |
| NoiseField.ScaledComponentBound | index.js:55 | a gradient component in `[-1, 1]` does not enlarge the offset it scales |
| NoiseField.CellWeights | index.js:61-69 | the weights `sx` and `sy` lie in `[0, 1)` |
| NoiseField.CellBlend | index.js:61-82 | the blend of one cell, four corner dot products along x then y; it is 0 at the cell's lower corner |
| NoiseField.Noise | index.js:59-84 | the noise is 0 at every integer point |
| NoiseField.NoiseInCell | index.js:59-84 | on the cell `[i, i+1) x [j, j+1)` the noise is the blend of that cell's four corners |
| NoiseField.CellBlendsAgreeOnEdges | index.js:59-84 | neighbouring cells' blends agree on their shared edge |
| NoiseField.NoiseContinuousAcrossLines | index.js:59-84 | the noise on a lattice line equals the limit of the neighbouring cell's blend, so it has no jump there |
| NoiseField.BilinearWeights | index.js:68-82 | the four bilinear weights lie in `[0, 1]` and sum to 1 |
| NoiseField.NestedInterpolationIsBilinear | index.js:74-82 | two x-blends followed by a y-blend equal the bilinear form |
| NoiseField.CellBlendIsBilinear | index.js:74-82 | the noise of a cell is the bilinear combination of its four corner dot products |
| NoiseField.SpreadAtMostHalf | index.js:68-83 | the blended distance `2s(1 - s)` along one side is at most 1/2 |
| NoiseField.RowBound | index.js:74-80 | one row blend is bounded by `2s(1 - s)` plus the row's offset |
| NoiseField.CellBound | index.js:68-83 | the cell blend is bounded by `2sx(1 - sx) + 2sy(1 - sy)` |
| NoiseField.BlendOfBoundedCorners | index.js:68-83 | corners bounded by their Manhattan distances blend to a value in `[-1, 1]` |
| NoiseField.CornerBounds | index.js:46-56 | inside a cell each corner's dot product is at most the point's Manhattan distance to that corner |
| NoiseField.CellBlendBounded | index.js:61-83 | a cell whose corner dot products are so bounded blends to a value in `[-1, 1]` |
| NoiseField.NoiseBounded | index.js:83 | with gradient components in `[-1, 1]` the noise lies in `[-1, 1]`, as the comment on line 83 says |
| Fbm.SameSample | index.js:92 | helper for `OctaveSample` and `OneOctave`: equal sample points give equal noise samples |
| Fbm.OctaveSample | index.js:92 | the sample taken at the running amplitude and frequency of octave `i` is `amplitude·gain^i · noise(frequency·lacunarity^i · (x, y))` |
| Fbm.OctaveAmplitude | index.js:87-94 | the amplitude of octave `i`, the loop's running amplitude, has magnitude `abs(amplitude)·abs(gain)^i` |
| Fbm.OctaveFrequency | index.js:88-93 | the frequency of octave `i`, the loop's running frequency, has magnitude `abs(frequency)·abs(lacunarity)^i` |
| Fbm.NoiseFbm | index.js:86-98 | the loop returns the sum over `i < octaves` of `amplitude·gain^i · noise(frequency·lacunarity^i · x, frequency·lacunarity^i · y)`, and 0 when `octaves <= 0` |
| Fbm.OneOctave | index.js:91-92 | with one octave the result is `amplitude · noise(frequency · x, frequency · y)` |
| Fbm.AbsGeometric | index.js:93-94 | the magnitude of `c·r^i` is `abs(c)·abs(r)^i`, which is non-negative |
| Fbm.AbsProduct | index.js:94 | helper for `AbsGeometric`: the magnitude of a product is the product of the magnitudes |
| Fbm.OctaveBounded | index.js:92 | with noise in `[-1, 1]` an octave is at most its amplitude in magnitude |
| Fbm.FbmBounded | index.js:91-95 | the sum is at most the sum of the octave amplitudes' magnitudes |
| Fbm.AmplitudeSumClosedForm | index.js:94 | `(1 - abs(g))·Σ_{i<k} abs(a)·abs(g)^i == abs(a) - abs(a)·abs(g)^k` |
| Fbm.AmplitudeSumStep | index.js:91-94 | each partial sum of amplitude magnitudes adds `abs(a)·abs(g)^(k-1)` |
| Fbm.ClosedFormStep | index.js:94 | helper for `AmplitudeSumClosedForm`: adding the term `a·g^(k-1)` turns `a - a·g^(k-1)` into `a - a·g^k` |
| Fbm.FbmBoundedByGeometricSeries | index.js:86-98 | for `abs(gain) < 1` the result stays within `abs(amplitude) / (1 - abs(gain))` for any number of octaves |
| Fbm.FbmAtOrigin | index.js:86-98 | noise vanishing at the origin makes the sum vanish at the origin |
| Fbm.PerlinNoiseBounded | index.js:83 | Perlin noise with bounded directions is a sampling function in `[-1, 1]` that is 0 at the origin |
| Fbm.PerlinFbm | index.js:86-98 | `noiseFBM` on Perlin noise: the octave sum; within `abs(amplitude) / (1 - abs(gain))` for bounded directions and `abs(gain) < 1`; 0 at the origin |
| ColorMap.MapColors | index.js:100-110 | blue exactly when `value < 0.25`, green exactly on `[0.25, 0.5)`, brown exactly on `[0.5, 0.75)`, white exactly when `value >= 0.75` |
| ColorMap.CountAtMost | index.js:100-110 | the count of thresholds reached is at most the number of thresholds |
| ColorMap.Band | index.js:100-110 | the band index of a value selects one of the four palette entries |
| ColorMap.MapColorsIsPaletteBand | index.js:100-110 | the colour is the palette entry of the number of thresholds the value has reached |
| ColorMap.CountAtMostMonotone | index.js:101-105 | a larger value reaches at least as many thresholds |
| ColorMap.BandMonotone | index.js:100-110 | the bands are monotone in the value: white stays white and blue stays blue in their directions |
| ColorMap.PaletteDistinct | index.js:102-108 | the four colours are pairwise distinct |

## Left out

- `Math.cos` and `Math.sin` (index.js:42) are not modelled. The gradient is `dir(angle)` for a parameter `dir`, and the bounds assume only that its components lie in `[-1, 1]`.
- NoiseField.Noise: the lattice of gradients is a parameter `grad`. `Fbm.PerlinNoise` instantiates it with `HashedGradients(dir)`, the lattice index.js computes.
- IEEE-754 doubles: `noise`, `interpolate`, `noiseFBM` and the angle are modelled over exact reals. Rounding, NaN and Infinity are not modelled.
- The hash is modelled on unbounded integers with BigInt semantics. A `bv64` version is not part of the model. Instead, `ScrambleFits` and `FoldFits` prove that every intermediate of a non-negative input fits in 64 unsigned bits.
- `GradientHash.HashNeighbour` is stated for `(0, 1)` only. The point `(1, 0)` needs a concrete XOR of two 32-bit values, which is costly to evaluate bit by bit.
- Fbm.NoiseFbm: `options.octaves` is a JavaScript number; it is modelled as an integer. A fractional octave count, which would run `ceil(octaves)` iterations, is not modelled.
- Fbm.NoiseFbm: the sampling function is a parameter. `Fbm.PerlinFbm` instantiates it with `NoiseField.Noise`, the function index.js calls.
- The configuration globals, the slider panel, mouse panning and `drawNoise`'s canvas writes (index.js:112-278) are browser I/O and UI state. They are not part of this model. The core receives its settings as explicit arguments.
