/** `interpolate` (index.js:4-16): the unclamped linear blend between two
    values. The clamping branch is commented out in index.js, so weights
    outside `[0, 1]` extrapolate. The module also holds the sign facts about
    products of reals that the noise proofs build on. */
module Interpolation {

  function Abs(v: real): real { if v < 0.0 then -v else v }
  function Min(a: real, b: real): real { if a <= b then a else b }
  function Max(a: real, b: real): real { if a <= b then b else a }

  /** `a * b`, named so that the sign facts below can be instantiated on the
      exact factors a proof mentions. */
  ghost function Product(a: real, b: real): real { a * b }

  lemma ProductSigns()
    ensures forall a, b {:trigger Product(a, b)} ::
      (a >= 0.0 && b >= 0.0 ==> Product(a, b) >= 0.0) &&
      (a > 0.0 && b > 0.0 ==> Product(a, b) > 0.0)
    ensures forall a {:trigger Product(a, a)} :: Product(a, a) >= 0.0
  {
    forall a: real ensures Product(a, a) >= 0.0 {
      if a < 0.0 {
        assert (-a) * (-a) > 0.0;
      }
    }
    forall a: real, b: real
      ensures (a >= 0.0 && b >= 0.0 ==> Product(a, b) >= 0.0) &&
              (a > 0.0 && b > 0.0 ==> Product(a, b) > 0.0)
    {
      if a >= 0.0 && b >= 0.0 {
        assert a * b >= 0.0;
      }
    }
  }

  /** Multiplication distributes over a sum that `s` is known to equal. */
  lemma ProductDistributes(s: real, a: real, b: real, c: real)
    requires s == a + b
    ensures Product(s, c) == Product(a, c) + Product(b, c)
  {
  }

  /** A value whose product with a positive `d` is at most `a` is at most
      `a / d`. */
  lemma BelowQuotient(s: real, a: real, d: real)
    requires d > 0.0 && Product(s, d) <= a
    ensures s <= a / d
  {
  }

  function Interpolate(a0: real, a1: real, w: real): (r: real)
    ensures w == 0.0 ==> r == a0
    ensures w == 1.0 ==> r == a1
    ensures 0.0 <= w <= 1.0 ==> Min(a0, a1) <= r <= Max(a0, a1)
  {
    assert 0.0 <= w <= 1.0 ==> Min(a0, a1) <= (a1 - a0) * w + a0 <= Max(a0, a1) by {
      ProductSigns();
      if 0.0 <= w <= 1.0 && a0 <= a1 {
        assert Product(w, a1 - a0) >= 0.0 && Product(1.0 - w, a1 - a0) >= 0.0;
      } else if 0.0 <= w <= 1.0 {
        assert Product(w, a0 - a1) >= 0.0 && Product(1.0 - w, a0 - a1) >= 0.0;
      }
    }
    (a1 - a0) * w + a0
  }

  /** The blend is the convex combination `(1 - w) * a0 + w * a1`. */
  lemma InterpolateIsAffine(a0: real, a1: real, w: real)
    ensures Interpolate(a0, a1, w) == (1.0 - w) * a0 + w * a1
  {
  }

  /** Nothing clamps: past either end the blend leaves the segment
      `[a0, a1]`, on the side of the end it passed. */
  lemma InterpolateExtrapolates(a0: real, a1: real, w: real)
    requires a0 < a1
    ensures w > 1.0 ==> Interpolate(a0, a1, w) > a1
    ensures w < 0.0 ==> Interpolate(a0, a1, w) < a0
  {
    ProductSigns();
    if w > 1.0 {
      assert Product(w - 1.0, a1 - a0) > 0.0;
    } else if w < 0.0 {
      assert Product(-w, a1 - a0) > 0.0;
    }
  }

  /** For a weight in `[0, 1]`, bounds on the magnitudes of the two ends give
      the blended bound on the magnitude of the result. */
  lemma InterpolateAbsBound(a0: real, a1: real, w: real, b0: real, b1: real)
    requires 0.0 <= w <= 1.0
    requires Abs(a0) <= b0 && Abs(a1) <= b1
    ensures Abs(Interpolate(a0, a1, w)) <= (1.0 - w) * b0 + w * b1
  {
    ProductSigns();
    assert Product(1.0 - w, b0 - a0) >= 0.0 && Product(1.0 - w, b0 + a0) >= 0.0;
    assert Product(w, b1 - a1) >= 0.0 && Product(w, b1 + a1) >= 0.0;
  }
}
