/** JavaScript BigInt arithmetic on unbounded integers.
    BigInt `%` truncates toward zero (the remainder takes the sign of the
    dividend), and `^`, `|` act on the infinite two's-complement expansion, so a
    negative BigInt behaves as if it had infinitely many leading one bits.
    `a << k` is `a * 2^k` and `a >> k` is `floor(a / 2^k)`, which for a positive
    divisor is Dafny's `/`. */
module JsBigInt {

  function Abs(n: int): nat { if n < 0 then -n else n }

  function Pow2(n: nat): (r: nat)
    ensures r >= 1
  {
    if n == 0 then 1 else 2 * Pow2(n - 1)
  }

  lemma {:induction false} Pow2Add(m: nat, n: nat)
    ensures Pow2(m + n) == Pow2(m) * Pow2(n)
  {
    if m > 0 {
      Pow2Add(m - 1, n);
    }
  }

  /** 2^16, built from 2^4 by doubling the exponent twice. */
  lemma Pow2Of16()
    ensures Pow2(16) == 0x1_0000
  {
    assert Pow2(4) == 16 by {
      assert Pow2(1) == 2;
      assert Pow2(2) == 4;
      assert Pow2(3) == 8;
    }
    Pow2Add(4, 4);
    Pow2Add(8, 8);
  }

  lemma Pow2Of32()
    ensures Pow2(32) == 0x1_0000_0000
  {
    Pow2Of16();
    Pow2Add(16, 16);
  }

  lemma Pow2Of48()
    ensures Pow2(48) == 0x1_0000_0000_0000
  {
    Pow2Of16();
    Pow2Of32();
    Pow2Add(32, 16);
  }

  lemma Pow2Of64()
    ensures Pow2(64) == 0x1_0000_0000_0000_0000
  {
    Pow2Of32();
    Pow2Add(32, 32);
  }

  /** `a << k`: multiplication by `2^k`. The low `k` bits of the result are
      zero, and shifting back right recovers `a`. */
  function ShiftLeft(a: int, k: nat): (r: int)
    ensures r % Pow2(k) == 0 && r / Pow2(k) == a
  {
    MultipleDivides(a, Pow2(k));
    a * Pow2(k)
  }

  /** A multiple of `p` leaves remainder 0 and quotient `a`. */
  lemma MultipleDivides(a: int, p: int)
    requires p > 0
    ensures (a * p) % p == 0 && (a * p) / p == a
  {
    var q := (a * p) / p;
    var r := (a * p) % p;
    assert (a - q) * p == r;
    if a - q >= 1 {
      assert false;
    } else if a - q <= -1 {
      assert false;
    }
  }

  /** `a >> k`: arithmetic shift, so negative values round toward minus
      infinity: `r` is the largest integer with `r * 2^k <= a`. */
  function ShiftRight(a: int, k: nat): (r: int)
    ensures r * Pow2(k) <= a < (r + 1) * Pow2(k)
  {
    a / Pow2(k)
  }

  /** The quotient of BigInt `/`, which truncates toward zero. */
  function TruncQuot(n: int, d: int): (q: int)
    requires d > 0
    ensures n >= 0 ==> q >= 0
    ensures n <= 0 ==> q <= 0
  {
    if n >= 0 then n / d else -((-n) / d)
  }

  /** `n % d` for BigInts: the remainder of the truncating division, so it
      has the sign of `n` and magnitude below `d`. */
  function TruncRem(n: int, d: int): (r: int)
    requires d > 0
    ensures n == d * TruncQuot(n, d) + r
    ensures -d < r < d
    ensures n >= 0 ==> 0 <= r
    ensures n <= 0 ==> r <= 0
  {
    assert n < 0 ==> -n == d * ((-n) / d) + (-n) % d;
    if n >= 0 then n % d else -((-n) % d)
  }

  /** Halving rounds toward minus infinity, so it keeps the sign. */
  lemma HalfKeepsSign(a: int)
    ensures (a / 2 < 0) <==> (a < 0)
  {
  }

  /** Appending a low bit to `h`: the new lowest bit is `bit` and the sign is
      the sign of `h`. */
  lemma AppendBit(h: int, bit: int)
    requires bit == 0 || bit == 1
    ensures (2 * h + bit) % 2 == bit
    ensures (2 * h + bit < 0) <==> (h < 0)
  {
  }

  /** `a ^ b` on two's-complement integers, one bit at a time: the lowest
      bit is set exactly when the operands' lowest bits differ, and the result
      is negative exactly when one operand is. */
  function Xor(a: int, b: int): (r: int)
    ensures (r % 2 == 1) <==> (a % 2 != b % 2)
    ensures r < 0 <==> (a < 0) != (b < 0)
    decreases Abs(a) + Abs(b)
  {
    if (a == 0 || a == -1) && (b == 0 || b == -1) then
      (if a == b then 0 else -1)
    else
      var h := Xor(a / 2, b / 2);
      var bit := if a % 2 == b % 2 then 0 else 1;
      HalfKeepsSign(a);
      HalfKeepsSign(b);
      AppendBit(h, bit);
      2 * h + bit
  }

  /** `a | b` on two's-complement integers, one bit at a time: the lowest
      bit is set exactly when either operand's is, and the result is negative
      exactly when either operand is. */
  function Or(a: int, b: int): (r: int)
    ensures (r % 2 == 1) <==> (a % 2 == 1 || b % 2 == 1)
    ensures r < 0 <==> a < 0 || b < 0
    decreases Abs(a) + Abs(b)
  {
    if (a == 0 || a == -1) && (b == 0 || b == -1) then
      (if a == -1 || b == -1 then -1 else 0)
    else
      var h := Or(a / 2, b / 2);
      var bit := if a % 2 == 1 || b % 2 == 1 then 1 else 0;
      HalfKeepsSign(a);
      HalfKeepsSign(b);
      AppendBit(h, bit);
      2 * h + bit
  }

  /** Bit `i` of the two's-complement expansion of `a` is set. */
  predicate Bit(a: int, i: nat) {
    (a / Pow2(i)) % 2 == 1
  }

  /** The Euclidean quotient is the unique `q` with a remainder in `[0, d)`. */
  lemma QuotientUnique(a: int, d: int, q: int, r: int)
    requires d > 0 && a == d * q + r && 0 <= r < d
    ensures a / d == q
  {
    var q' := a / d;
    var r' := a % d;
    assert (q - q') * d == r' - r;
    if q - q' >= 1 {
      assert false;
    } else if q - q' <= -1 {
      assert false;
    }
  }

  /** Halving and then dividing by `p` is dividing by `2 * p`. */
  lemma HalveQuotient(a: int, p: int)
    requires p > 0
    ensures (a / 2) / p == a / (2 * p)
  {
    var q := (a / 2) / p;
    assert a == 2 * (p * q + (a / 2) % p) + a % 2;
    QuotientUnique(a, 2 * p, q, 2 * ((a / 2) % p) + a % 2);
  }

  /** Bit `i` of `a`, for `i > 0`, is bit `i - 1` of `a >> 1`. */
  lemma BitOfHalf(a: int, i: nat)
    requires i > 0
    ensures Bit(a, i) <==> Bit(a / 2, i - 1)
  {
    HalveQuotient(a, Pow2(i - 1));
  }

  /** Shifting right by one commutes with XOR. */
  lemma XorHalf(a: int, b: int)
    ensures Xor(a, b) / 2 == Xor(a / 2, b / 2)
  {
  }

  /** Shifting right by one commutes with OR. */
  lemma OrHalf(a: int, b: int)
    ensures Or(a, b) / 2 == Or(a / 2, b / 2)
  {
  }

  /** Every bit of `a ^ b` is set exactly when the operands' bits differ. */
  lemma {:induction false} XorBits(a: int, b: int, i: nat)
    ensures Bit(Xor(a, b), i) <==> Bit(a, i) != Bit(b, i)
    decreases i
  {
    if i > 0 {
      XorHalf(a, b);
      BitOfHalf(a, i);
      BitOfHalf(b, i);
      BitOfHalf(Xor(a, b), i);
      XorBits(a / 2, b / 2, i - 1);
    }
  }

  /** Every bit of `a | b` is set exactly when either operand's bit is. */
  lemma {:induction false} OrBits(a: int, b: int, i: nat)
    ensures Bit(Or(a, b), i) <==> Bit(a, i) || Bit(b, i)
    decreases i
  {
    if i > 0 {
      OrHalf(a, b);
      BitOfHalf(a, i);
      BitOfHalf(b, i);
      BitOfHalf(Or(a, b), i);
      OrBits(a / 2, b / 2, i - 1);
    }
  }

  /** XOR of two values of at most `n` bits has at most `n` bits. */
  lemma {:induction false} XorBound(a: int, b: int, n: nat)
    requires 0 <= a < Pow2(n) && 0 <= b < Pow2(n)
    ensures 0 <= Xor(a, b) < Pow2(n)
  {
    if n > 0 && !(a == 0 && b == 0) {
      XorBound(a / 2, b / 2, n - 1);
    }
  }

  /** OR of two values of at most `n` bits has at most `n` bits. */
  lemma {:induction false} OrBound(a: int, b: int, n: nat)
    requires 0 <= a < Pow2(n) && 0 <= b < Pow2(n)
    ensures 0 <= Or(a, b) < Pow2(n)
  {
    if n > 0 && !(a == 0 && b == 0) {
      OrBound(a / 2, b / 2, n - 1);
    }
  }

  /** `0 ^ b == b`. */
  lemma {:induction false} XorZero(b: int)
    ensures Xor(0, b) == b
    decreases Abs(b)
  {
    if b != 0 && b != -1 {
      XorZero(b / 2);
    }
  }

  /** `a | 0 == a` and `a | -1 == -1`. */
  lemma {:induction false} OrZeroOrAllOnes(a: int)
    ensures Or(a, 0) == a
    ensures Or(a, -1) == -1
    decreases Abs(a)
  {
    if a != 0 && a != -1 {
      OrZeroOrAllOnes(a / 2);
    }
  }

  /** OR-ing a value shifted left by `n` with a value that fits in `n` signed
      bits: a non-negative `y` fills the zero low bits, a negative `y` already
      has every high bit set. */
  lemma {:induction false} OrShiftedLow(x: int, y: int, n: nat)
    requires -(Pow2(n) as int) <= y < Pow2(n)
    ensures Or(x * Pow2(n), y) == if y >= 0 then x * Pow2(n) + y else y
    decreases n
  {
    if n == 0 {
      OrZeroOrAllOnes(x);
    } else {
      var h := x * Pow2(n - 1);
      assert x * Pow2(n) == 2 * h;
      assert (2 * h) / 2 == h && (2 * h) % 2 == 0;
      OrShiftedLow(x, y / 2, n - 1);
      if h == 0 && (y == 0 || y == -1) {
        OrZeroOrAllOnes(0);
      }
    }
  }
}
