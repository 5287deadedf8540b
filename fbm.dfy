/** `noiseFBM` (index.js:86-98): fractal Brownian motion, a sum of noise
    octaves. Octave `i` samples the noise at `frequency * lacunarity^i` and
    weighs it by `amplitude * gain^i`. The loop is the method `NoiseFbm`; the
    sum it computes is the function `OctaveSum`. The loop only ever samples
    the noise, so this module is written for any sampling function `noise`;
    `PerlinFbm` instantiates it with `NoiseField.Noise`. */
module Fbm {
  import opened Interpolation
  import opened NoiseField

  datatype FbmOptions = FbmOptions(
    amplitude: real, frequency: real, octaves: int, lacunarity: real, gain: real)

  /** Every sample lies in `[-1, 1]`. */
  ghost predicate BoundedNoise(noise: (real, real) -> real) {
    forall u, v :: -1.0 <= noise(u, v) <= 1.0
  }

  /** `c * r^i`, built the way the loop builds it: by `i` multiplications. */
  function Geometric(c: real, r: real, i: nat): real {
    if i == 0 then c else Geometric(c, r, i - 1) * r
  }

  /** The amplitude of octave `i`: in magnitude `|amplitude| * |gain|^i`. */
  function OctaveAmplitude(o: FbmOptions, i: nat): (r: real)
    ensures Abs(r) == Geometric(Abs(o.amplitude), Abs(o.gain), i)
  {
    AbsGeometric(o.amplitude, o.gain, i);
    Geometric(o.amplitude, o.gain, i)
  }

  /** The frequency of octave `i`: in magnitude `|frequency| * |lacunarity|^i`. */
  function OctaveFrequency(o: FbmOptions, i: nat): (r: real)
    ensures Abs(r) == Geometric(Abs(o.frequency), Abs(o.lacunarity), i)
  {
    AbsGeometric(o.frequency, o.lacunarity, i);
    Geometric(o.frequency, o.lacunarity, i)
  }

  /** The contribution of octave `i` at `(x, y)`: the octave's amplitude
      times the noise at the point scaled by the octave's frequency. */
  ghost function Octave(noise: (real, real) -> real, x: real, y: real, o: FbmOptions, i: nat): real {
    Product(OctaveAmplitude(o, i),
      noise(Product(OctaveFrequency(o, i), x), Product(OctaveFrequency(o, i), y)))
  }

  /** The sum of the first `k` octaves; no octaves for `k <= 0`. */
  ghost function OctaveSum(noise: (real, real) -> real, x: real, y: real, o: FbmOptions, k: int): real
    decreases k
  {
    if k <= 0 then 0.0 else OctaveSum(noise, x, y, o, k - 1) + Octave(noise, x, y, o, k - 1)
  }

  /** Equal coordinates give equal samples. */
  lemma SameSample(noise: (real, real) -> real, x: real, y: real, x': real, y': real)
    requires x == x' && y == y'
    ensures noise(x, y) == noise(x', y')
  {
  }

  /** A sample taken at the running amplitude and frequency of octave `i` is
      that octave's contribution. */
  lemma OctaveSample(noise: (real, real) -> real, x: real, y: real, o: FbmOptions, i: nat,
                     amplitude: real, frequency: real)
    requires amplitude == OctaveAmplitude(o, i) && frequency == OctaveFrequency(o, i)
    ensures amplitude * noise(frequency * x, frequency * y) == Octave(noise, x, y, o, i)
  {
    var fx := Product(OctaveFrequency(o, i), x);
    var fy := Product(OctaveFrequency(o, i), y);
    SameSample(noise, frequency * x, frequency * y, fx, fy);
    assert Product(amplitude, noise(frequency * x, frequency * y))
      == Product(OctaveAmplitude(o, i), noise(fx, fy));
  }

  /** `noiseFBM(x, y, options)`: one noise sample per octave, the frequency
      multiplied by the lacunarity and the amplitude by the gain after each. */
  method NoiseFbm(noise: (real, real) -> real, x: real, y: real, options: FbmOptions)
    returns (value: real)
    ensures value == OctaveSum(noise, x, y, options, options.octaves)
    ensures options.octaves <= 0 ==> value == 0.0
  {
    var amplitude := options.amplitude;
    var frequency := options.frequency;
    value := 0.0;
    var i := 0;
    while i < options.octaves
      invariant 0 <= i
      invariant options.octaves >= 0 ==> i <= options.octaves
      invariant options.octaves < 0 ==> i == 0
      invariant amplitude == Geometric(options.amplitude, options.gain, i)
      invariant frequency == Geometric(options.frequency, options.lacunarity, i)
      invariant value == OctaveSum(noise, x, y, options, i)
    {
      OctaveSample(noise, x, y, options, i, amplitude, frequency);
      value := value + amplitude * noise(frequency * x, frequency * y);
      frequency := frequency * options.lacunarity;
      amplitude := amplitude * options.gain;
      i := i + 1;
    }
  }

  /** A single octave is the noise at `frequency` times the amplitude. */
  lemma OneOctave(noise: (real, real) -> real, x: real, y: real, o: FbmOptions)
    ensures OctaveSum(noise, x, y, o, 1) == o.amplitude * noise(o.frequency * x, o.frequency * y)
  {
    SameSample(noise, Product(OctaveFrequency(o, 0), x), Product(OctaveFrequency(o, 0), y),
      o.frequency * x, o.frequency * y);
    assert OctaveSum(noise, x, y, o, 1)
      == Product(o.amplitude, noise(o.frequency * x, o.frequency * y));
  }

  /** The magnitude of a geometric term is the geometric term of the
      magnitudes. */
  lemma {:induction false} AbsGeometric(c: real, r: real, i: nat)
    ensures Abs(Geometric(c, r, i)) == Geometric(Abs(c), Abs(r), i)
    ensures Geometric(Abs(c), Abs(r), i) >= 0.0
  {
    if i > 0 {
      AbsGeometric(c, r, i - 1);
      AbsProduct(Geometric(c, r, i - 1), r);
      ProductSigns();
      assert Product(Geometric(Abs(c), Abs(r), i - 1), Abs(r)) >= 0.0;
    }
  }

  /** The magnitude of a product is the product of the magnitudes. */
  lemma AbsProduct(p: real, r: real)
    ensures Abs(p * r) == Product(Abs(p), Abs(r))
  {
    ProductSigns();
    if p < 0.0 && r < 0.0 {
      assert Product(-p, -r) >= 0.0;
    } else if p < 0.0 {
      assert Product(-p, r) >= 0.0;
    } else if r < 0.0 {
      assert Product(p, -r) >= 0.0;
    } else {
      assert Product(p, r) >= 0.0;
    }
  }

  /** The sum of the octave amplitudes' magnitudes. */
  function AmplitudeSum(o: FbmOptions, k: int): real
    decreases k
  {
    if k <= 0 then 0.0 else AmplitudeSum(o, k - 1) + Abs(OctaveAmplitude(o, k - 1))
  }

  /** With bounded samples an octave is at most its amplitude in magnitude. */
  lemma OctaveBounded(noise: (real, real) -> real, x: real, y: real, o: FbmOptions, i: nat)
    requires BoundedNoise(noise)
    ensures Abs(Octave(noise, x, y, o, i)) <= Abs(OctaveAmplitude(o, i))
  {
    var fx := Product(OctaveFrequency(o, i), x);
    var fy := Product(OctaveFrequency(o, i), y);
    ScaledComponentBound(OctaveAmplitude(o, i), noise(fx, fy));
  }

  /** Hence the sum is at most the sum of the amplitudes. */
  lemma {:induction false} FbmBounded(noise: (real, real) -> real, x: real, y: real, o: FbmOptions, k: int)
    requires BoundedNoise(noise)
    ensures Abs(OctaveSum(noise, x, y, o, k)) <= AmplitudeSum(o, k)
    decreases k
  {
    if k > 0 {
      FbmBounded(noise, x, y, o, k - 1);
      OctaveBounded(noise, x, y, o, k - 1);
    }
  }

  /** The geometric series of the amplitudes in closed form:
      `(1 - |g|) * sum_{i<k} |a| |g|^i == |a| - |a| |g|^k`. */
  lemma {:induction false} AmplitudeSumClosedForm(o: FbmOptions, k: nat)
    ensures Product(AmplitudeSum(o, k), 1.0 - Abs(o.gain))
      == Abs(o.amplitude) - Geometric(Abs(o.amplitude), Abs(o.gain), k)
  {
    if k > 0 {
      AmplitudeSumClosedForm(o, k - 1);
      AmplitudeSumStep(o, k);
      ClosedFormStep(AmplitudeSum(o, k - 1), AmplitudeSum(o, k), Abs(o.amplitude), Abs(o.gain), k);
    }
  }

  /** The `k`-th partial sum adds the magnitude `|a| |g|^(k-1)`. */
  lemma AmplitudeSumStep(o: FbmOptions, k: nat)
    requires k > 0
    ensures AmplitudeSum(o, k) == AmplitudeSum(o, k - 1) + Geometric(Abs(o.amplitude), Abs(o.gain), k - 1)
  {
    AbsGeometric(o.amplitude, o.gain, k - 1);
  }

  /** One step of the closed form: adding the term `a g^(k-1)` to the partial
      sum turns `a - a g^(k-1)` into `a - a g^k`. */
  lemma ClosedFormStep(s0: real, s1: real, a: real, g: real, k: nat)
    requires k > 0
    requires s1 == s0 + Geometric(a, g, k - 1)
    requires Product(s0, 1.0 - g) == a - Geometric(a, g, k - 1)
    ensures Product(s1, 1.0 - g) == a - Geometric(a, g, k)
  {
    ProductDistributes(s1, s0, Geometric(a, g, k - 1), 1.0 - g);
  }

  /** For a gain below 1 in magnitude the whole sum stays within
      `|amplitude| / (1 - |gain|)`, however many octaves are added; for the
      page's settings (amplitude 1, gain 0.5) that is `[-2, 2]`. */
  lemma FbmBoundedByGeometricSeries(noise: (real, real) -> real, x: real, y: real, o: FbmOptions, k: int)
    requires BoundedNoise(noise)
    requires Abs(o.gain) < 1.0
    ensures Abs(OctaveSum(noise, x, y, o, k)) <= Abs(o.amplitude) / (1.0 - Abs(o.gain))
  {
    FbmBounded(noise, x, y, o, k);
    var n: nat := if k < 0 then 0 else k;
    assert AmplitudeSum(o, k) == AmplitudeSum(o, n);
    AmplitudeSumClosedForm(o, n);
    AbsGeometric(o.amplitude, o.gain, n);
    BelowQuotient(AmplitudeSum(o, n), Abs(o.amplitude), 1.0 - Abs(o.gain));
  }

  /** If the noise vanishes at the origin, every octave at the origin samples
      the origin, so the sum there is 0 for any options. */
  lemma {:induction false} FbmAtOrigin(noise: (real, real) -> real, o: FbmOptions, k: int)
    requires noise(0.0, 0.0) == 0.0
    ensures OctaveSum(noise, 0.0, 0.0, o, k) == 0.0
    decreases k
  {
    if k > 0 {
      FbmAtOrigin(noise, o, k - 1);
      var f := OctaveFrequency(o, k - 1);
      assert Product(f, 0.0) == 0.0;
      assert Product(OctaveAmplitude(o, k - 1), noise(Product(f, 0.0), Product(f, 0.0))) == 0.0;
    }
  }

  /** Perlin noise on the gradients `randomGradient` gives for the
      directions `dir`, as a sampling function. */
  function PerlinNoise(dir: real -> Vector2): (real, real) -> real {
    (u: real, v: real) => Noise(HashedGradients(dir), u, v)
  }

  /** Perlin noise is a bounded sampling function that vanishes at the
      origin. */
  lemma PerlinNoiseBounded(dir: real -> Vector2)
    requires BoundedDirections(dir)
    ensures BoundedNoise(PerlinNoise(dir))
    ensures PerlinNoise(dir)(0.0, 0.0) == 0.0
  {
    HashedGradientsBounded(dir);
    forall u: real, v: real ensures -1.0 <= PerlinNoise(dir)(u, v) <= 1.0 {
      NoiseBounded(HashedGradients(dir), u, v);
    }
  }

  /** `noiseFBM` as the page calls it, on Perlin noise: with unit gradients
      and a gain below 1 in magnitude the result is within
      `|amplitude| / (1 - |gain|)`, and it is 0 at the origin. */
  method PerlinFbm(dir: real -> Vector2, x: real, y: real, options: FbmOptions)
    returns (value: real)
    ensures value == OctaveSum(PerlinNoise(dir), x, y, options, options.octaves)
    ensures BoundedDirections(dir) && Abs(options.gain) < 1.0 ==>
      Abs(value) <= Abs(options.amplitude) / (1.0 - Abs(options.gain))
    ensures x == 0.0 && y == 0.0 ==> value == 0.0
  {
    value := NoiseFbm(PerlinNoise(dir), x, y, options);
    if BoundedDirections(dir) && Abs(options.gain) < 1.0 {
      PerlinNoiseBounded(dir);
      FbmBoundedByGeometricSeries(PerlinNoise(dir), x, y, options, options.octaves);
    }
    if x == 0.0 && y == 0.0 {
      assert PerlinNoise(dir)(0.0, 0.0) == 0.0;
      FbmAtOrigin(PerlinNoise(dir), options, options.octaves);
    }
  }
}
