/**
 Python's integer bit operations, on unbounded `int`.

 Python treats an `int` as an infinite two's-complement bit string: a
 non-negative number has infinitely many leading 0 bits, a negative one
 infinitely many leading 1 bits. Shifts are multiplication and floor division
 by a power of two, and `|`, `&`, `^` combine the bit strings position by
 position. The functions below follow that definition literally (one bit at a
 time, lowest bit first, until both operands are all-0 or all-1), and the
 lemmas say what these operations compute in the situations where the
 snowflake code uses them.
 */
module Bits {

  /** 2^k. */
  function Pow2(k: nat): (p: nat)
    ensures p >= 1
  {
    if k == 0 then 1 else 2 * Pow2(k - 1)
  }

  /** Python's `x << k`. */
  function ShiftLeft(x: int, k: nat): int
  {
    x * Pow2(k)
  }

  /** Python's `x >> k`: division rounding toward minus infinity, which is
      what Dafny's `/` does for a positive divisor. */
  function ShiftRight(x: int, k: nat): int
  {
    x / Pow2(k)
  }

  /** How many halvings it takes before `x` is all-0 (0) or all-1 (-1) bits. */
  function Size(x: int): nat
  {
    if x >= 0 then x else -x - 1
  }

  /** A number whose bits are all equal: 0 or -1. */
  predicate IsSignOnly(x: int)
  {
    Size(x) == 0
  }

  lemma HalveShrinks(x: int)
    ensures Size(x / 2) <= Size(x)
    ensures !IsSignOnly(x) ==> Size(x / 2) < Size(x)
  {
  }

  /** Python's `a | b`. */
  function Or(a: int, b: int): int
    decreases Size(a) + Size(b)
  {
    if IsSignOnly(a) && IsSignOnly(b) then
      (if a == -1 || b == -1 then -1 else 0)
    else
      HalveShrinks(a); HalveShrinks(b);
      2 * Or(a / 2, b / 2) + (if a % 2 == 1 || b % 2 == 1 then 1 else 0)
  }

  /** Python's `a & b`. */
  function And(a: int, b: int): int
    decreases Size(a) + Size(b)
  {
    if IsSignOnly(a) && IsSignOnly(b) then
      (if a == -1 && b == -1 then -1 else 0)
    else
      HalveShrinks(a); HalveShrinks(b);
      2 * And(a / 2, b / 2) + (if a % 2 == 1 && b % 2 == 1 then 1 else 0)
  }

  /** Python's `a ^ b`. */
  function Xor(a: int, b: int): int
    decreases Size(a) + Size(b)
  {
    if IsSignOnly(a) && IsSignOnly(b) then
      (if (a == -1) != (b == -1) then -1 else 0)
    else
      HalveShrinks(a); HalveShrinks(b);
      2 * Xor(a / 2, b / 2) + (if a % 2 != b % 2 then 1 else 0)
  }

  /** A non-zero multiple of d is at least d away from zero. */
  lemma {:induction false} MultipleAwayFromZero(d: int, e: int)
    requires d > 0 && e != 0
    ensures d * e >= d || d * e <= -d
    decreases if e > 0 then e else -e
  {
    if e > 1 {
      MultipleAwayFromZero(d, e - 1);
      assert d * e == d * (e - 1) + d;
    } else if e < -1 {
      MultipleAwayFromZero(d, e + 1);
      assert d * e == d * (e + 1) - d;
    }
  }

  /** Euclidean division has exactly one quotient and remainder. */
  lemma DivModUnique(x: int, d: int, q: int, r: int)
    requires d > 0 && 0 <= r < d && x == d * q + r
    ensures x / d == q && x % d == r
  {
    var q', r' := x / d, x % d;
    assert d * q' + r' == d * q + r;
    assert d * (q - q') == r' - r;
    if q != q' {
      MultipleAwayFromZero(d, q - q');
    }
  }

  lemma {:induction false} OrZero(x: int)
    ensures Or(x, 0) == x
    decreases Size(x)
  {
    if !IsSignOnly(x) {
      HalveShrinks(x);
      OrZero(x / 2);
    }
  }

  /** OR-ing a value into bits that are known to be zero is addition: the
      form `(hi << k) | lo` with `0 <= lo < 2^k` equals `hi * 2^k + lo`,
      whatever the sign of `hi`. */
  lemma {:induction false} OrIntoZeroBits(x: int, k: nat, y: int)
    requires 0 <= y < Pow2(k)
    ensures Or(ShiftLeft(x, k), y) == ShiftLeft(x, k) + y
  {
    if k == 0 {
      assert y == 0;
      OrZero(x);
    } else {
      var half := x * Pow2(k - 1);
      var a := x * Pow2(k);
      assert a == 2 * half;
      assert a / 2 == half && a % 2 == 0;
      if IsSignOnly(a) && IsSignOnly(y) {
        assert a == 0 && y == 0;
      } else {
        assert y / 2 < Pow2(k - 1);
        OrIntoZeroBits(x, k - 1, y / 2);
        assert Or(a, y) == 2 * Or(half, y / 2) + y % 2;
      }
    }
  }

  /** Doubling both operands of `|` doubles the result. */
  lemma OrOfDoubled(a: int, b: int)
    ensures Or(2 * a, 2 * b) == 2 * Or(a, b)
  {
    if IsSignOnly(2 * a) && IsSignOnly(2 * b) {
      assert a == 0 && b == 0;
    } else {
      assert (2 * a) / 2 == a && (2 * a) % 2 == 0;
      assert (2 * b) / 2 == b && (2 * b) % 2 == 0;
    }
  }

  /** One more position of shift doubles the result. */
  lemma ShiftLeftStep(x: int, k: nat)
    requires k > 0
    ensures ShiftLeft(x, k) == 2 * ShiftLeft(x, k - 1)
  {
    var p := Pow2(k - 1);
    assert x * (2 * p) == 2 * (x * p);
  }

  /** Left-shifting both operands of `|` by the same amount commutes with it. */
  lemma {:induction false} OrOfShifted(a: int, b: int, k: nat)
    ensures Or(ShiftLeft(a, k), ShiftLeft(b, k)) == ShiftLeft(Or(a, b), k)
  {
    if k > 0 {
      OrOfShifted(a, b, k - 1);
      ShiftLeftStep(a, k);
      ShiftLeftStep(b, k);
      ShiftLeftStep(Or(a, b), k);
      OrOfDoubled(ShiftLeft(a, k - 1), ShiftLeft(b, k - 1));
    }
  }

  lemma {:induction false} AndZero(x: int)
    ensures And(x, 0) == 0
    decreases Size(x)
  {
    if !IsSignOnly(x) {
      HalveShrinks(x);
      AndZero(x / 2);
    }
  }

  /** x mod 2p from x/2 mod p and the lowest bit of x. */
  lemma ModOfDouble(x: int, p: int)
    requires p > 0
    ensures x % (2 * p) == 2 * ((x / 2) % p) + x % 2
  {
    var q, r := (x / 2) / p, (x / 2) % p;
    assert x / 2 == p * q + r;
    assert x == 2 * (x / 2) + x % 2;
    assert x == (2 * p) * q + (2 * r + x % 2);
    DivModUnique(x, 2 * p, q, 2 * r + x % 2);
  }

  /** AND with the mask of the k lowest bits, `2^k - 1`, keeps exactly those
      bits: it is `x mod 2^k`, also for negative `x`. */
  lemma {:induction false} AndLowMask(x: int, k: nat)
    ensures And(x, Pow2(k) - 1) == x % Pow2(k)
    decreases k
  {
    if k == 0 {
      AndZero(x);
    } else {
      var m := Pow2(k) - 1;
      assert m == 2 * (Pow2(k - 1) - 1) + 1;
      assert m / 2 == Pow2(k - 1) - 1 && m % 2 == 1;
      assert !IsSignOnly(m);
      AndLowMask(x / 2, k - 1);
      assert And(x, m) == 2 * And(x / 2, m / 2) + x % 2;
      ModOfDouble(x, Pow2(k - 1));
    }
  }

  /** XOR with -1 (all bits set) flips every bit: it is Python's `~y`, which
      equals `-1 - y`. */
  lemma {:induction false} XorMinusOne(y: int)
    ensures Xor(-1, y) == -1 - y
    decreases Size(y)
  {
    if !IsSignOnly(y) {
      HalveShrinks(y);
      XorMinusOne(y / 2);
      assert y == 2 * (y / 2) + y % 2;
    }
  }

  /** `-1 ^ (-1 << k)` is the mask of the k lowest bits, 2^k - 1. */
  lemma LowMaskOfWidth(k: nat)
    ensures Xor(-1, ShiftLeft(-1, k)) == Pow2(k) - 1
  {
    XorMinusOne(ShiftLeft(-1, k));
  }
}
