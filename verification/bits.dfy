/**
 * Go's shift and bitwise operators on signed integers, over Dafny's
 * unbounded `int`.
 *
 * The bitwise operators read an integer in two's complement: an infinite
 * string of bits whose tail repeats forever, zeros for x >= 0 and ones for
 * x < 0. Dafny's `x / 2` and `x % 2` are floor division and a non-negative
 * remainder, which is exactly "drop the lowest bit" and "the lowest bit" in
 * that reading, so each operator is defined by recursion on the halves until
 * both operands are a repeated single bit (0 or -1).
 *
 * Overflow of Go's 64-bit registers is not part of these definitions; the
 * callers keep their values in range by their own preconditions.
 */
module Bits {

  function Pow2(n: nat): (r: nat)
    ensures r >= 1
  {
    if n == 0 then 1 else 2 * Pow2(n - 1)
  }

  lemma {:induction false} Pow2Sum(a: nat, b: nat)
    ensures Pow2(a + b) == Pow2(a) * Pow2(b)
    decreases b
  {
    if b > 0 {
      Pow2Sum(a, b - 1);
      assert Pow2(a + b) == 2 * (Pow2(a) * Pow2(b - 1));
    }
  }

  function Abs(x: int): nat {
    if x < 0 then -x else x
  }

  /** x is one bit repeated forever: all zeros (0) or all ones (-1). */
  predicate Uniform(x: int) {
    x == 0 || x == -1
  }

  /** Go's `x << n`, for an untyped constant or a value that does not overflow. */
  function Shl(x: int, n: nat): int {
    x * Pow2(n)
  }

  /** Go's `x >> n` on a signed integer: an arithmetic shift, rounding down. */
  function Shr(x: int, n: nat): int {
    x / Pow2(n)
  }

  /** Go's `a & b`. */
  function And(a: int, b: int): int
    decreases Abs(a) + Abs(b)
  {
    if Uniform(a) && Uniform(b) then
      (if a == -1 && b == -1 then -1 else 0)
    else
      2 * And(a / 2, b / 2) + (if a % 2 == 1 && b % 2 == 1 then 1 else 0)
  }

  /** Go's `a | b`. */
  function Or(a: int, b: int): int
    decreases Abs(a) + Abs(b)
  {
    if Uniform(a) && Uniform(b) then
      (if a == -1 || b == -1 then -1 else 0)
    else
      2 * Or(a / 2, b / 2) + (if a % 2 == 1 || b % 2 == 1 then 1 else 0)
  }

  /** Go's binary `a ^ b`. */
  function Xor(a: int, b: int): int
    decreases Abs(a) + Abs(b)
  {
    if Uniform(a) && Uniform(b) then
      (if a == b then 0 else -1)
    else
      2 * Xor(a / 2, b / 2) + (if a % 2 != b % 2 then 1 else 0)
  }

  /** A positive multiple of a positive number is at least that number. */
  lemma {:induction false} MulAtLeast(d: int, t: int)
    requires d > 0 && t >= 1
    ensures d * t >= d
    decreases t
  {
    if t > 1 {
      MulAtLeast(d, t - 1);
      assert d * t == d * (t - 1) + d;
    }
  }

  /** Euclidean division has exactly one quotient and remainder. */
  lemma DivModUnique(x: int, d: int, q: int, r: int)
    requires d > 0 && 0 <= r < d && x == d * q + r
    ensures x / d == q && x % d == r
  {
    var q0, r0 := x / d, x % d;
    assert x == d * q0 + r0;
    if q0 < q {
      assert d * q - d * q0 == d * (q - q0);
      MulAtLeast(d, q - q0);
    } else if q0 > q {
      assert d * q0 - d * q == d * (q0 - q);
      MulAtLeast(d, q0 - q);
    }
  }

  /** Exclusive or with all ones flips every bit: `-1 ^ x == -1 - x`. */
  lemma {:induction false} XorAllOnes(x: int)
    ensures Xor(-1, x) == -1 - x
    decreases Abs(x)
  {
    if !Uniform(x) {
      XorAllOnes(x / 2);
    }
  }

  /**
   * The mask idiom `-1 ^ (-1 << n)` is the number whose lowest n bits are
   * ones and all others zeros.
   */
  lemma {:induction false} LowMask(n: nat)
    ensures Xor(-1, Shl(-1, n)) == Pow2(n) - 1
  {
    XorAllOnes(Shl(-1, n));
  }

  lemma {:induction false} AndZero(x: int)
    requires x >= 0
    ensures And(x, 0) == 0
    decreases x
  {
    if x != 0 {
      AndZero(x / 2);
    }
  }

  /** The remainder modulo 2p is built from the remainder of the half modulo p and the low bit. */
  lemma ModDouble(x: int, p: int)
    requires x >= 0 && p > 0
    ensures x % (2 * p) == 2 * ((x / 2) % p) + x % 2
  {
    var q, b := x / 2, x % 2;
    assert x == 2 * q + b;
    assert q == p * (q / p) + q % p;
    assert x == (2 * p) * (q / p) + (2 * (q % p) + b) by {
      assert (2 * p) * (q / p) == 2 * (p * (q / p));
    }
    DivModUnique(x, 2 * p, q / p, 2 * (q % p) + b);
  }

  /** Masking a non-negative value with n low ones keeps its remainder modulo 2^n. */
  lemma {:induction false} AndLowMask(x: int, n: nat)
    requires x >= 0
    ensures And(x, Pow2(n) - 1) == x % Pow2(n)
  {
    if n == 0 {
      AndZero(x);
    } else {
      var p := Pow2(n - 1);
      var mask := Pow2(n) - 1;
      assert mask == 2 * p - 1;
      assert !Uniform(mask) && mask / 2 == p - 1 && mask % 2 == 1;
      assert And(x, mask) == 2 * And(x / 2, p - 1) + x % 2;
      AndLowMask(x / 2, n - 1);
      ModDouble(x, p);
    }
  }

  lemma {:induction false} OrZero(x: int)
    requires x >= 0
    ensures Or(x, 0) == x
    decreases x
  {
    if x != 0 {
      OrZero(x / 2);
    }
  }

  /**
   * When y fits below bit k, or-ing it into a multiple of 2^k is addition:
   * the two operands have no bit in common.
   */
  lemma {:induction false} OrDisjoint(c: nat, y: int, k: nat)
    requires 0 <= y < Pow2(k)
    ensures Or(c * Pow2(k), y) == c * Pow2(k) + y
  {
    if k == 0 {
      OrZero(c);
    } else {
      var p := Pow2(k - 1);
      var x := c * Pow2(k);
      assert x == 2 * (c * p);
      if !(Uniform(x) && Uniform(y)) {
        OrDisjoint(c, y / 2, k - 1);
        assert x / 2 == c * p && x % 2 == 0;
      }
    }
  }
}
