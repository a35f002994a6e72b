/**
 * Bitwise exclusive or on non-negative integers, computed the way Python's
 * `^` operator computes it on them: bit by bit from the lowest bit up.
 */
module Bitwise {

  /**
   * The lowest bit of a ^ b is set exactly when the operands' lowest bits
   * differ, and a ^ b is zero exactly when a and b are equal.
   */
  function Xor(a: nat, b: nat): (r: nat)
    ensures r % 2 == LowBit(a, b)
    ensures r == 0 <==> a == b
    decreases a + b
  {
    if a == 0 then b
    else if b == 0 then a
    else 2 * Xor(a / 2, b / 2) + LowBit(a, b)
  }

  /** The lowest bit of `a ^ b`. */
  function LowBit(a: nat, b: nat): nat
  {
    if a % 2 == b % 2 then 0 else 1
  }

  function Pow2(n: nat): (r: nat)
    ensures r >= 1
  {
    if n == 0 then 1 else 2 * Pow2(n - 1)
  }

  /** Every step of Xor splits off the lowest bit, also once an operand has reached zero. */
  lemma XorLowBit(a: nat, b: nat)
    ensures Xor(a, b) == 2 * Xor(a / 2, b / 2) + LowBit(a, b)
    ensures Xor(a, b) / 2 == Xor(a / 2, b / 2)
    ensures Xor(a, b) % 2 == LowBit(a, b)
  {
  }

  /** Zero is the identity of exclusive or. */
  lemma XorZero(a: nat)
    ensures Xor(a, 0) == a && Xor(0, a) == a
  {
  }

  lemma {:induction false} XorCommutes(a: nat, b: nat)
    ensures Xor(a, b) == Xor(b, a)
    decreases a + b
  {
    if a != 0 && b != 0 {
      XorCommutes(a / 2, b / 2);
    }
  }

  /** Exclusive or with the same key twice gives back the original value. */
  lemma {:induction false} XorSelfInverse(a: nat, k: nat)
    ensures Xor(Xor(a, k), k) == a
    decreases a + k
  {
    if a + k != 0 {
      var c := Xor(a, k);
      XorLowBit(a, k);
      XorLowBit(c, k);
      XorSelfInverse(a / 2, k / 2);
    }
  }

  /** The key can be recovered from a value and its masked form. */
  lemma XorRecoversKey(a: nat, k: nat)
    ensures Xor(Xor(a, k), a) == k
  {
    XorCommutes(a, k);
    XorSelfInverse(k, a);
  }

  /** Masking one value with two different keys gives two different results. */
  lemma XorInjectiveInKey(a: nat, k1: nat, k2: nat)
    ensures Xor(a, k1) == Xor(a, k2) <==> k1 == k2
  {
    XorRecoversKey(a, k1);
    XorRecoversKey(a, k2);
  }

  /** Exclusive or never sets a bit above the highest bit of its operands. */
  lemma {:induction false} XorBelowPow2(a: nat, b: nat, n: nat)
    requires a < Pow2(n) && b < Pow2(n)
    ensures Xor(a, b) < Pow2(n)
  {
    if n > 0 {
      XorLowBit(a, b);
      XorBelowPow2(a / 2, b / 2, n - 1);
    }
  }

  /** Two 8-bit values give an 8-bit value. */
  lemma XorByte(a: nat, b: nat)
    requires a < 256 && b < 256
    ensures Xor(a, b) < 256
  {
    assert Pow2(4) == 16;
    assert Pow2(8) == 256;
    XorBelowPow2(a, b, 8);
  }
}
