/** Python's `^` and `&` on non-negative integers, bit by bit, and what
    they do with the single-bit mask 0x20. */
module Bits {

  /** `a ^ b`: the lowest bit of the result is set when exactly one of the
      lowest bits of a and b is. */
  function Xor(a: nat, b: nat): (r: nat)
    decreases a + b
    ensures r <= a + b
  {
    if a == 0 && b == 0 then 0
    else 2 * Xor(a / 2, b / 2) + (if a % 2 != b % 2 then 1 else 0)
  }

  /** `a & b`: the lowest bit of the result is set when both are. */
  function And(a: nat, b: nat): (r: nat)
    decreases a
    ensures r <= a && r <= b
  {
    if a == 0 || b == 0 then 0
    else 2 * And(a / 2, b / 2) + (if a % 2 == 1 && b % 2 == 1 then 1 else 0)
  }

  /** Bit 5 of x, the bit that the mask 0x20 selects. */
  predicate Bit5(x: nat) {
    (x / 32) % 2 == 1
  }

  lemma {:induction false} XorZero(a: nat)
    ensures Xor(a, 0) == a
  {
    if a != 0 {
      XorZero(a / 2);
    }
  }

  lemma XorShift(a: nat, b: nat)
    requires b > 0
    ensures Xor(a, 2 * b) == 2 * Xor(a / 2, b) + a % 2
  {
    assert (2 * b) / 2 == b && (2 * b) % 2 == 0;
  }

  lemma XorOne(a: nat)
    ensures Xor(a, 1) == if a % 2 == 1 then a - 1 else a + 1
  {
    XorZero(a / 2);
  }

  lemma AndShift(a: nat, b: nat)
    requires b > 0
    ensures And(a, 2 * b) == 2 * And(a / 2, b)
  {
    assert (2 * b) / 2 == b && (2 * b) % 2 == 0;
  }

  /** `x ^ 0x20` flips bit 5 of x and keeps all other bits. */
  lemma XorFlag(x: nat)
    ensures Bit5(Xor(x, 0x20)) != Bit5(x)
    ensures Xor(x, 0x20) % 32 == x % 32 && Xor(x, 0x20) / 64 == x / 64
  {
    XorFlagValue(x);
    FlipBit5(x, Xor(x, 0x20));
  }

  /** Adding or removing 32 according to bit 5 flips that bit and no other. */
  lemma FlipBit5(x: nat, y: int)
    requires y == if Bit5(x) then x - 32 else x + 32
    ensures y >= 0 && Bit5(y) != Bit5(x) && y % 32 == x % 32 && y / 64 == x / 64
  {
    Split(x);
  }

  /** `x ^ 0x20` subtracts 32 when bit 5 of x is set and adds 32 otherwise. */
  lemma XorFlagValue(x: nat)
    ensures Xor(x, 0x20) == if Bit5(x) then x - 32 else x + 32
  {
    var q1, q2, q3, q4, q5 := x / 2, x / 4, x / 8, x / 16, x / 32;
    assert q1 / 2 == q2 && q2 / 2 == q3 && q3 / 2 == q4 && q4 / 2 == q5;
    XorShift(x, 16);
    XorShift(q1, 8);
    XorShift(q2, 4);
    XorShift(q3, 2);
    XorShift(q4, 1);
    XorOne(q5);
  }

  /** `x & 0x20` is 0x20 when bit 5 of x is set and 0 otherwise. */
  lemma AndFlag(x: nat)
    ensures And(x, 0x20) == if Bit5(x) then 0x20 else 0
  {
    var q1, q2, q3, q4, q5 := x / 2, x / 4, x / 8, x / 16, x / 32;
    assert q1 / 2 == q2 && q2 / 2 == q3 && q3 / 2 == q4 && q4 / 2 == q5;
    AndShift(x, 16);
    AndShift(q1, 8);
    AndShift(q2, 4);
    AndShift(q3, 2);
    AndShift(q4, 1);
    assert And(q5, 1) == q5 % 2;
  }

  /** Two numbers that agree below bit 5, in bit 5 and above it are equal. */
  lemma SameBits(x: nat, y: nat)
    requires x % 32 == y % 32 && Bit5(x) == Bit5(y) && x / 64 == y / 64
    ensures x == y
  {
    Split(x);
    Split(y);
  }

  /** x is made of its bits above bit 5, bit 5 and its bits below bit 5. */
  lemma Split(x: nat)
    ensures x == 64 * (x / 64) + 32 * ((x / 32) % 2) + x % 32
  {
    var q := x / 32;
    assert x == 32 * q + x % 32;
    assert q == 2 * (q / 2) + q % 2;
    assert x == 64 * (q / 2) + (32 * (q % 2) + x % 32);
    assert q / 2 == x / 64;
  }
}
