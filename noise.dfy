/** `dotGridGradient` and `noise` (index.js:46-84): gradient noise on the unit
    lattice. The gradient at a lattice point is the unit vector at the angle
    the hash gives it (index.js:41-42); `Math.cos` and `Math.sin` are outside
    the model, so the map from angle to vector is the parameter `dir`, and the
    facts that need it to be a direction assume only that its components lie
    in `[-1, 1]`. The noise itself reads the gradients only through the
    lattice field `grad`, so it is written for any field; `HashedGradients`
    is the field `randomGradient` produces. */
module NoiseField {
  import opened GradientHash
  import opened Interpolation

  datatype Vector2 = Vector2(x: real, y: real)

  /** Every vector `dir` produces has both components in `[-1, 1]`, as
      `(cos t, sin t)` does. */
  ghost predicate BoundedDirections(dir: real -> Vector2) {
    forall t :: -1.0 <= dir(t).x <= 1.0 && -1.0 <= dir(t).y <= 1.0
  }

  /** A map to unit vectors, such as `t -> (cos t, sin t)`, has bounded
      components. */
  lemma UnitDirectionsAreBounded(dir: real -> Vector2)
    requires forall t :: dir(t).x * dir(t).x + dir(t).y * dir(t).y == 1.0
    ensures BoundedDirections(dir)
  {
    forall t ensures -1.0 <= dir(t).x <= 1.0 && -1.0 <= dir(t).y <= 1.0 {
      var v := dir(t);
      assert v.x * v.x + v.y * v.y == 1.0;
      ProductSigns();
      assert Product(v.x, v.x) >= 0.0 && Product(v.y, v.y) >= 0.0;
    }
  }

  /** `randomGradient(ix, iy)`: the direction at the hashed angle. */
  function RandomGradient(dir: real -> Vector2, ix: int, iy: int): (g: Vector2)
    ensures BoundedDirections(dir) ==> -1.0 <= g.x <= 1.0 && -1.0 <= g.y <= 1.0
  {
    dir(Angle(HashInt(ix, iy)))
  }

  /** Two lattice points whose coordinates agree modulo `2^32 - 1` (as
      residues) get the same gradient, whatever `dir` is. */
  lemma GradientOfResidues(dir: real -> Vector2, ix: int, iy: int)
    ensures RandomGradient(dir, ix, iy) == RandomGradient(dir, Reduce(ix), Reduce(iy))
  {
    HashOfResidues(ix, iy);
  }

  /** The gradient field `randomGradient` puts on the lattice. The noise below
      is written for any gradient field `grad`; this is the one index.js
      uses. */
  function HashedGradients(dir: real -> Vector2): (int, int) -> Vector2 {
    (ix: int, iy: int) => RandomGradient(dir, ix, iy)
  }

  /** Every gradient of the field has both components in `[-1, 1]`. */
  ghost predicate BoundedGradients(grad: (int, int) -> Vector2) {
    forall ix, iy :: -1.0 <= grad(ix, iy).x <= 1.0 && -1.0 <= grad(ix, iy).y <= 1.0
  }

  /** Bounded directions give a bounded hashed gradient field. */
  lemma HashedGradientsBounded(dir: real -> Vector2)
    requires BoundedDirections(dir)
    ensures BoundedGradients(HashedGradients(dir))
  {
    forall ix: int, iy: int
      ensures -1.0 <= HashedGradients(dir)(ix, iy).x <= 1.0 && -1.0 <= HashedGradients(dir)(ix, iy).y <= 1.0
    {
      var g := RandomGradient(dir, ix, iy);
    }
  }

  /** `dotGridGradient(ix, iy, x, y)`: the offset from the lattice point
      `(ix, iy)` to `(x, y)`, dotted with that point's gradient. */
  function DotGridGradient(grad: (int, int) -> Vector2, ix: int, iy: int, x: real, y: real): (r: real)
    ensures x == ix as real && y == iy as real ==> r == 0.0
  {
    var g := grad(ix, iy);
    ZeroOffsetDot(x - ix as real, y - iy as real, g.x, g.y);
    (x - ix as real) * g.x + (y - iy as real) * g.y
  }

  /** A zero offset has a zero dot product with any vector. */
  lemma ZeroOffsetDot(dx: real, dy: real, gx: real, gy: real)
    ensures dx == 0.0 && dy == 0.0 ==> dx * gx + dy * gy == 0.0
  {
  }

  /** With bounded directions the dot product is at most the offset's
      Manhattan length. */
  lemma DotGridGradientBound(grad: (int, int) -> Vector2, ix: int, iy: int, x: real, y: real)
    requires BoundedGradients(grad)
    ensures Abs(DotGridGradient(grad, ix, iy, x, y)) <= Abs(x - ix as real) + Abs(y - iy as real)
  {
    var g := grad(ix, iy);
    assert -1.0 <= g.x <= 1.0 && -1.0 <= g.y <= 1.0;
    var dx := x - ix as real;
    var dy := y - iy as real;
    DotIsSum(grad, ix, iy, x, y);
    ScaledComponentBound(dx, g.x);
    ScaledComponentBound(dy, g.y);
  }

  /** The dot product as two named products. */
  lemma DotIsSum(grad: (int, int) -> Vector2, ix: int, iy: int, x: real, y: real)
    ensures DotGridGradient(grad, ix, iy, x, y)
      == Product(x - ix as real, grad(ix, iy).x) + Product(y - iy as real, grad(ix, iy).y)
  {
  }
  /** One term of the dot product: a component in `[-1, 1]` does not enlarge
      the offset it scales. */
  lemma ScaledComponentBound(d: real, c: real)
    requires -1.0 <= c <= 1.0
    ensures -Abs(d) <= Product(d, c) <= Abs(d)
  {
    ProductSigns();
    if d >= 0.0 {
      assert Product(d, 1.0 - c) >= 0.0 && Product(d, 1.0 + c) >= 0.0;
    } else {
      assert Product(-d, 1.0 - c) >= 0.0 && Product(-d, 1.0 + c) >= 0.0;
    }
  }

  /** The body of `noise` once the cell `(x0, y0)` is fixed (index.js:61-82):
      blend the four corner dot products along x, then along y. At the cell's
      lower corner both weights are 0 and the blend is that corner's dot
      product, which is 0. */
  function CellBlend(grad: (int, int) -> Vector2, x0: int, y0: int, x: real, y: real): (r: real)
    ensures x == x0 as real && y == y0 as real ==> r == 0.0
  {
    var x1 := x0 + 1;
    var y1 := y0 + 1;
    var sx := x - x0 as real;
    var sy := y - y0 as real;
    var ix0 := Interpolate(DotGridGradient(grad, x0, y0, x, y), DotGridGradient(grad, x1, y0, x, y), sx);
    var ix1 := Interpolate(DotGridGradient(grad, x0, y1, x, y), DotGridGradient(grad, x1, y1, x, y), sx);
    Interpolate(ix0, ix1, sy)
  }

  /** `noise(x, y)`: the blend in the cell whose lower corner is
      `(floor x, floor y)`. It vanishes at every lattice point. */
  function Noise(grad: (int, int) -> Vector2, x: real, y: real): (r: real)
    ensures x == x.Floor as real && y == y.Floor as real ==> r == 0.0
  {
    CellBlend(grad, x.Floor, y.Floor, x, y)
  }

  /** The weights `sx = x - floor x` and `sy = y - floor y` lie in `[0, 1)`. */
  lemma CellWeights(x: real, y: real)
    ensures 0.0 <= x - x.Floor as real < 1.0
    ensures 0.0 <= y - y.Floor as real < 1.0
  {
  }

  /** On the cell `[i, i + 1) x [j, j + 1)` the noise is that cell's blend. */
  lemma NoiseInCell(grad: (int, int) -> Vector2, i: int, j: int, x: real, y: real)
    requires i as real <= x < (i + 1) as real && j as real <= y < (j + 1) as real
    ensures Noise(grad, x, y) == CellBlend(grad, i, j, x, y)
  {
    assert x.Floor == i && y.Floor == j;
  }

  /** Neighbouring cells agree on the edge they share, so the noise, which
      switches cells at integer coordinates, has no jump there. */
  lemma CellBlendsAgreeOnEdges(grad: (int, int) -> Vector2, i: int, j: int, x: real, y: real)
    ensures CellBlend(grad, i, j, (i + 1) as real, y) == CellBlend(grad, i + 1, j, (i + 1) as real, y)
    ensures CellBlend(grad, i, j, x, (j + 1) as real) == CellBlend(grad, i, j + 1, x, (j + 1) as real)
  {
  }

  /** Approaching a vertical lattice line from the left gives the value on it:
      the blend of the cell to the left, taken at its right edge, equals the
      noise there. */
  lemma NoiseContinuousAcrossLines(grad: (int, int) -> Vector2, i: int, j: int, x: real, y: real)
    ensures Noise(grad, i as real, y) == CellBlend(grad, i - 1, y.Floor, i as real, y)
    ensures Noise(grad, x, j as real) == CellBlend(grad, x.Floor, j - 1, x, j as real)
  {
    CellBlendsAgreeOnEdges(grad, i - 1, y.Floor, x, y);
    CellBlendsAgreeOnEdges(grad, x.Floor, j - 1, x, y);
  }

  /** The bilinear reference form: each corner's dot product weighted by the
      area of the opposite sub-rectangle. */
  function Bilinear(n00: real, n10: real, n01: real, n11: real, sx: real, sy: real): real {
    (1.0 - sx) * (1.0 - sy) * n00 + sx * (1.0 - sy) * n10
      + (1.0 - sx) * sy * n01 + sx * sy * n11
  }

  /** Inside a cell the weights are in `[0, 1]` and sum to 1. */
  lemma BilinearWeights(sx: real, sy: real)
    requires 0.0 <= sx <= 1.0 && 0.0 <= sy <= 1.0
    ensures Bilinear(1.0, 1.0, 1.0, 1.0, sx, sy) == 1.0
    ensures 0.0 <= Product(1.0 - sx, 1.0 - sy) <= 1.0 && 0.0 <= Product(sx, 1.0 - sy) <= 1.0
    ensures 0.0 <= Product(1.0 - sx, sy) <= 1.0 && 0.0 <= Product(sx, sy) <= 1.0
  {
    ProductSigns();
    assert Product(1.0 - sx, 1.0 - sy) >= 0.0 && Product(sx, 1.0 - sy) >= 0.0;
    assert Product(1.0 - sx, sy) >= 0.0 && Product(sx, sy) >= 0.0;
  }

  /** The nested interpolations of `noise` compute the bilinear form. */
  lemma CellBlendIsBilinear(grad: (int, int) -> Vector2, x0: int, y0: int, x: real, y: real)
    ensures CellBlend(grad, x0, y0, x, y) == Bilinear(
      DotGridGradient(grad, x0, y0, x, y), DotGridGradient(grad, x0 + 1, y0, x, y),
      DotGridGradient(grad, x0, y0 + 1, x, y), DotGridGradient(grad, x0 + 1, y0 + 1, x, y),
      x - x0 as real, y - y0 as real)
  {
    NestedInterpolationIsBilinear(
      DotGridGradient(grad, x0, y0, x, y), DotGridGradient(grad, x0 + 1, y0, x, y),
      DotGridGradient(grad, x0, y0 + 1, x, y), DotGridGradient(grad, x0 + 1, y0 + 1, x, y),
      x - x0 as real, y - y0 as real);
  }

  lemma NestedInterpolationIsBilinear(n00: real, n10: real, n01: real, n11: real, sx: real, sy: real)
    ensures Interpolate(Interpolate(n00, n10, sx), Interpolate(n01, n11, sx), sy)
      == Bilinear(n00, n10, n01, n11, sx, sy)
  {
  }

  /** `2 s (1 - s)`: the blended Manhattan distance from a point at offset `s`
      in `[0, 1]` to the two ends of one cell side. */
  ghost function Spread(s: real): real { 2.0 * s - 2.0 * Product(s, s) }

  lemma SpreadAtMostHalf(s: real)
    ensures Spread(s) <= 0.5
  {
    ProductSigns();
    assert Product(s - 0.5, s - 0.5) >= 0.0;
  }

  /** One row of the blend: ends bounded by their distances `s + c` and
      `1 - s + c` give a blend bounded by `Spread(s) + c`. */
  lemma RowBound(n0: real, n1: real, s: real, c: real)
    requires 0.0 <= s <= 1.0
    requires Abs(n0) <= s + c && Abs(n1) <= 1.0 - s + c
    ensures Abs(Interpolate(n0, n1, s)) <= Spread(s) + c
  {
    ProductSigns();
    assert Product(1.0 - s, s + c - n0) >= 0.0 && Product(1.0 - s, s + c + n0) >= 0.0;
    assert Product(s, 1.0 - s + c - n1) >= 0.0 && Product(s, 1.0 - s + c + n1) >= 0.0;
  }

  /** A whole cell: corners bounded by their Manhattan distances give a blend
      bounded by `Spread(sx) + Spread(sy)`. */
  lemma CellBound(n00: real, n10: real, n01: real, n11: real, sx: real, sy: real)
    requires 0.0 <= sx <= 1.0 && 0.0 <= sy <= 1.0
    requires Abs(n00) <= sx + sy && Abs(n10) <= 1.0 - sx + sy
    requires Abs(n01) <= sx + 1.0 - sy && Abs(n11) <= 2.0 - sx - sy
    ensures Abs(Interpolate(Interpolate(n00, n10, sx), Interpolate(n01, n11, sx), sy))
      <= Spread(sx) + Spread(sy)
  {
    RowBound(n00, n10, sx, sy);
    RowBound(n01, n11, sx, 1.0 - sy);
    RowBound(Interpolate(n00, n10, sx), Interpolate(n01, n11, sx), sy, Spread(sx));
  }

  /** Inside the cell of `(x0, y0)` each corner's dot product is at most the
      Manhattan distance from the point to that corner. */
  lemma CornerBounds(grad: (int, int) -> Vector2, x0: int, y0: int, x: real, y: real)
    requires BoundedGradients(grad)
    requires x0 as real <= x <= (x0 + 1) as real && y0 as real <= y <= (y0 + 1) as real
    ensures Abs(DotGridGradient(grad, x0, y0, x, y)) <= (x - x0 as real) + (y - y0 as real)
    ensures Abs(DotGridGradient(grad, x0 + 1, y0, x, y)) <= 1.0 - (x - x0 as real) + (y - y0 as real)
    ensures Abs(DotGridGradient(grad, x0, y0 + 1, x, y)) <= (x - x0 as real) + 1.0 - (y - y0 as real)
    ensures Abs(DotGridGradient(grad, x0 + 1, y0 + 1, x, y)) <= 2.0 - (x - x0 as real) - (y - y0 as real)
  {
    DotGridGradientBound(grad, x0, y0, x, y);
    DotGridGradientBound(grad, x0 + 1, y0, x, y);
    DotGridGradientBound(grad, x0, y0 + 1, x, y);
    DotGridGradientBound(grad, x0 + 1, y0 + 1, x, y);
  }

  /** The promise after `return value`: with unit-length gradients the noise
      lies in `[-1, 1]`. */
  lemma NoiseBounded(grad: (int, int) -> Vector2, x: real, y: real)
    requires BoundedGradients(grad)
    ensures -1.0 <= Noise(grad, x, y) <= 1.0
  {
    var x0 := x.Floor;
    var y0 := y.Floor;
    CornerBounds(grad, x0, y0, x, y);
    CellBlendBounded(grad, x0, y0, x, y);
  }

  /** A cell whose corners' dot products are bounded by their Manhattan
      distances blends to a value in `[-1, 1]`. */
  lemma CellBlendBounded(grad: (int, int) -> Vector2, x0: int, y0: int, x: real, y: real)
    requires x0 as real <= x <= (x0 + 1) as real && y0 as real <= y <= (y0 + 1) as real
    requires Abs(DotGridGradient(grad, x0, y0, x, y)) <= (x - x0 as real) + (y - y0 as real)
    requires Abs(DotGridGradient(grad, x0 + 1, y0, x, y)) <= 1.0 - (x - x0 as real) + (y - y0 as real)
    requires Abs(DotGridGradient(grad, x0, y0 + 1, x, y)) <= (x - x0 as real) + 1.0 - (y - y0 as real)
    requires Abs(DotGridGradient(grad, x0 + 1, y0 + 1, x, y)) <= 2.0 - (x - x0 as real) - (y - y0 as real)
    ensures -1.0 <= CellBlend(grad, x0, y0, x, y) <= 1.0
  {
    BlendOfBoundedCorners(
      DotGridGradient(grad, x0, y0, x, y), DotGridGradient(grad, x0 + 1, y0, x, y),
      DotGridGradient(grad, x0, y0 + 1, x, y), DotGridGradient(grad, x0 + 1, y0 + 1, x, y),
      x - x0 as real, y - y0 as real);
  }

  /** Corners bounded by their Manhattan distances blend to a value in
      `[-1, 1]`. */
  lemma BlendOfBoundedCorners(n00: real, n10: real, n01: real, n11: real, sx: real, sy: real)
    requires 0.0 <= sx <= 1.0 && 0.0 <= sy <= 1.0
    requires Abs(n00) <= sx + sy && Abs(n10) <= 1.0 - sx + sy
    requires Abs(n01) <= sx + 1.0 - sy && Abs(n11) <= 2.0 - sx - sy
    ensures -1.0 <= Interpolate(Interpolate(n00, n10, sx), Interpolate(n01, n11, sx), sy) <= 1.0
  {
    CellBound(n00, n10, n01, n11, sx, sy);
    SpreadAtMostHalf(sx);
    SpreadAtMostHalf(sy);
  }
}
