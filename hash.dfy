/** The integer part of `randomGradient` (index.js:26-41): a table-free hash of
    a lattice point to an angle. Every step is BigInt arithmetic modulo
    `M = 2^32 - 1` with the truncating `%` of JavaScript, so negative
    coordinates, which panning produces, are modelled as the code treats them. */
module GradientHash {
  import opened JsBigInt

  /** Hash width `w` and rotation width `s = w / 2`. */
  const W: nat := 32
  const S: nat := W / 2
  /** The modulus `(1n << w) - 1n`. */
  const M: int := 0x1_0000_0000 - 1

  const MulA1: int := 3284157443
  const MulB: int := 1911520717
  const MulA2: int := 2048419325

  /** The approximation of pi in index.js and the divisor `~(~0u >> 1)`, i.e. 2^31. */
  const Pi: real := 3.14159265
  const AngleDivisor: real := 2147483648.0

  lemma ModulusIsMersenne()
    ensures M == Pow2(W) - 1 && W - S == S == 16
  {
    Pow2Of32();
  }

  /** `BigInt(v) % m`. */
  function Reduce(v: int): (r: int)
    ensures -M < r < M
    ensures v >= 0 ==> r >= 0
  {
    TruncRem(v, M)
  }

  /** `(v * k) % m`: the multiplicative steps. */
  function Scramble(v: int, k: int): (r: int)
    ensures -M < r < M
  {
    TruncRem(v * k, M)
  }

  /** `(v ^ (u << s) | (u >> w - s)) % m`: the mixing steps. By precedence this
      is `((v ^ (u << s)) | (u >> (w - s))) % m`, not `v ^ rotate(u)`. */
  function Fold(v: int, u: int): (r: int)
    ensures -M < r < M
  {
    TruncRem(Or(Xor(v, ShiftLeft(u, S)), ShiftRight(u, W - S)), M)
  }

  /** The integer `a` that `randomGradient(ix, iy)` converts to a number. */
  function HashInt(ix: int, iy: int): (a: int)
    ensures -M < a < M
  {
    var a0 := Reduce(ix);
    var b0 := Reduce(iy);
    var a1 := Scramble(a0, MulA1);
    var b1 := Fold(b0, a1);
    var b2 := Scramble(b1, MulB);
    var a2 := Fold(a1, b2);
    Scramble(a2, MulA2)
  }

  /** `a * (3.14159265 / 2147483648)`: the angle handed to `cos` and `sin`.
      `Number(a)` is exact because `|a| < 2^32 < 2^53`. */
  function Angle(a: int): (t: real)
    ensures 0 <= a < M ==> 0.0 <= t < 2.0 * Pi
    ensures -M < a < M ==> -2.0 * Pi < t < 2.0 * Pi
  {
    (a as real) * (Pi / AngleDivisor)
  }

  /** A multiplicative step on a reduced non-negative value: the product fits
      in 64 unsigned bits and the result is reduced again. */
  lemma ScrambleFits(v: int, k: int)
    requires 0 <= v < M && 0 <= k < Pow2(W)
    ensures 0 <= v * k < Pow2(64)
    ensures 0 <= Scramble(v, k) < M
  {
    Pow2Of32();
    Pow2Of64();
    MulAtMost(v, k, 0xFFFF_FFFF);
    assert v * 0xFFFF_FFFF < 0x1_0000_0000 * 0xFFFF_FFFF;
  }

  /** Multiplying by a non-negative factor keeps an upper bound. */
  lemma MulAtMost(v: int, k: int, c: int)
    requires 0 <= v && 0 <= k <= c
    ensures 0 <= v * k <= v * c
  {
    assert v * c == v * k + v * (c - k);
  }

  /** A mixing step on reduced non-negative values: the shifted operand fits
      in 48 bits, the XOR and the OR stay below 2^48, and the result is
      reduced again. */
  lemma FoldFits(v: int, u: int)
    requires 0 <= v < M && 0 <= u < M
    ensures 0 <= ShiftLeft(u, S) < Pow2(48)
    ensures 0 <= Xor(v, ShiftLeft(u, S)) < Pow2(48)
    ensures 0 <= ShiftRight(u, W - S) < Pow2(16)
    ensures 0 <= Or(Xor(v, ShiftLeft(u, S)), ShiftRight(u, W - S)) < Pow2(48)
    ensures 0 <= Fold(v, u) < M
  {
    ShiftsFit(u);
    var x := Xor(v, ShiftLeft(u, S));
    XorBound(v, ShiftLeft(u, S), 48);
    OrBound(x, ShiftRight(u, W - S), 48);
  }

  /** The two shifted copies of a reduced non-negative value fit in 48 and 16
      bits, and `m` fits in 48 bits. */
  lemma ShiftsFit(u: int)
    requires 0 <= u < M
    ensures 0 <= ShiftLeft(u, S) < Pow2(48)
    ensures 0 <= ShiftRight(u, W - S) < Pow2(16) <= Pow2(48)
    ensures M < Pow2(48)
  {
    Pow2Of16();
    Pow2Of48();
  }

  /** For non-negative coordinates the hash lies in `[0, 2^32 - 1)`, so the
      angle lies in `[0, 2 * pi)`; every intermediate fits in 64 bits
      (ScrambleFits, FoldFits). */
  lemma HashNonNegativeRange(ix: int, iy: int)
    requires ix >= 0 && iy >= 0
    ensures 0 <= HashInt(ix, iy) < M
    ensures 0.0 <= Angle(HashInt(ix, iy)) < 2.0 * Pi
  {
    Pow2Of32();
    var a0 := Reduce(ix);
    var b0 := Reduce(iy);
    ScrambleFits(a0, MulA1);
    var a1 := Scramble(a0, MulA1);
    FoldFits(b0, a1);
    var b1 := Fold(b0, a1);
    ScrambleFits(b1, MulB);
    var b2 := Scramble(b1, MulB);
    FoldFits(a1, b2);
    var a2 := Fold(a1, b2);
    ScrambleFits(a2, MulA2);
  }

  /** The hash sees its inputs only through `ix % m` and `iy % m`. */
  lemma HashOfResidues(ix: int, iy: int)
    ensures HashInt(ix, iy) == HashInt(Reduce(ix), Reduce(iy))
  {
    assert Reduce(Reduce(ix)) == Reduce(ix);
    assert Reduce(Reduce(iy)) == Reduce(iy);
  }

  /** The aliasing period of the modulus: on each side of zero, shifting a
      coordinate by `2^32 - 1` away from zero gives the same hash. */
  lemma HashPeriodic(ix: int, iy: int)
    ensures ix >= 0 ==> HashInt(ix + M, iy) == HashInt(ix, iy)
    ensures iy >= 0 ==> HashInt(ix, iy + M) == HashInt(ix, iy)
    ensures ix <= 0 ==> HashInt(ix - M, iy) == HashInt(ix, iy)
    ensures iy <= 0 ==> HashInt(ix, iy - M) == HashInt(ix, iy)
  {
    ReducePeriodic(ix);
    ReducePeriodic(iy);
  }

  /** `BigInt(v) % m` does not change when `v` moves by `m` away from zero. */
  lemma ReducePeriodic(v: int)
    ensures v >= 0 ==> Reduce(v + M) == Reduce(v)
    ensures v <= 0 ==> Reduce(v - M) == Reduce(v)
  {
  }

  /** The origin hashes to 0, i.e. angle 0. */
  lemma HashOrigin()
    ensures HashInt(0, 0) == 0
  {
    assert Reduce(0) == 0 && Scramble(0, MulA1) == 0;
    assert Fold(0, 0) == 0;
  }

  /** The two mixing steps that `(0, 1)` takes. */
  lemma NeighbourFolds()
    ensures Fold(1, 0) == 1
    ensures Fold(0, 1911520717) == 2110645214
  {
    MulBShifts();
    assert Xor(1, 0) == 1 && Or(1, 0) == 1;
    var x := ShiftLeft(1911520717, S);
    XorZero(x);
    OrShiftedLow(1911520717, 29167, 16);
    assert Or(Xor(0, x), 29167) == 125273421738479;
  }

  /** The shifts of `(0, 1)` and `(0, -1)` after their first scramble. */
  lemma MulBShifts()
    ensures Pow2(16) == 0x1_0000
    ensures ShiftLeft(1911520717, S) == 125273421709312
    ensures ShiftRight(1911520717, W - S) == 29167
    ensures ShiftLeft(-1911520717, S) == -125273421709312
    ensures ShiftRight(-1911520717, W - S) == -29168
  {
    Pow2Of16();
  }

  /** The neighbour `(0, 1)` of the origin gets a non-zero hash, so these two
      adjacent lattice points get different angles. */
  lemma HashNeighbour()
    ensures HashInt(0, 1) == 4096844905
    ensures Angle(HashInt(0, 0)) != Angle(HashInt(0, 1))
  {
    HashOrigin();
    NeighbourFolds();
    assert Reduce(0) == 0 && Reduce(1) == 1;
    assert Scramble(0, MulA1) == 0;
    assert Scramble(1, MulB) == 1911520717;
    assert Scramble(2110645214, MulA2) == 4096844905;
  }

  /** The two mixing steps that `(0, -1)` takes: the arithmetic right shift
      and the infinite leading ones of a negative BigInt keep them negative. */
  lemma NegativeFolds()
    ensures Fold(-1, 0) == -1
    ensures Fold(0, -1911520717) == -29168
  {
    MulBShifts();
    assert Xor(-1, 0) == -1 && Or(-1, 0) == -1;
    var x := ShiftLeft(-1911520717, S);
    XorZero(x);
    OrShiftedLow(-1911520717, -29168, 16);
  }

  /** A negative coordinate gives a negative hash: truncating `%` keeps the
      sign, so the angle comment "in [0, 2*Pi]" holds only for non-negative
      coordinates. */
  lemma HashNegativeCoordinate()
    ensures HashInt(0, -1) == -1004830855
    ensures Angle(HashInt(0, -1)) < 0.0
  {
    NegativeFolds();
    assert Reduce(0) == 0 && Reduce(-1) == -1;
    assert Scramble(0, MulA1) == 0;
    assert Scramble(-1, MulB) == -1911520717;
    assert Scramble(-29168, MulA2) == -1004830855;
  }
}
