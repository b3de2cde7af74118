/**
 * Bit-level arithmetic on non-negative integers, as the decoder uses it:
 * Python's `&` on ints (modelled by And), single-bit masks `1 << k`
 * (modelled by Pow2) and the bit-index view (Bit) against which the
 * masks are specified.
 */
module Bits {

  /** 2^k, the value of the Python expression `1 << k`: a mask with bit k set. */
  function Pow2(k: nat): (r: nat)
    ensures r >= 1 && Bit(r, k)
  {
    if k == 0 then 1 else 2 * Pow2(k - 1)
  }

  /** The mask constants the decoder spells as `1 << k`. */
  lemma Pow2Table()
    ensures Pow2(4) == 0x10 && Pow2(5) == 0x20 && Pow2(6) == 0x40 && Pow2(7) == 0x80
    ensures Pow2(9) == 0x200 && Pow2(10) == 0x400 && Pow2(11) == 0x800 && Pow2(12) == 0x1000
    ensures Pow2(13) == 0x2000 && Pow2(14) == 0x4000 && Pow2(15) == 0x8000
    ensures Pow2(23) == 0x80_0000
  {
  }

  /** Bit k of v (bit 0 is the least significant). */
  predicate Bit(v: nat, k: nat)
  {
    if k == 0 then v % 2 == 1 else Bit(v / 2, k - 1)
  }

  /**
   * Python's bitwise `a & b` on non-negative integers, digit by digit; masking
   * never yields more than either operand.
   */
  function And(a: nat, b: nat): (r: nat)
    ensures r <= a && r <= b
    decreases a
  {
    if a == 0 || b == 0 then 0
    else 2 * And(a / 2, b / 2) + (if a % 2 == 1 && b % 2 == 1 then 1 else 0)
  }

  /** Masking with `1 << k` keeps exactly bit k: `v & (1 << k)` is non-zero iff bit k is set. */
  lemma {:induction false} AndPow2(v: nat, k: nat)
    ensures And(v, Pow2(k)) == if Bit(v, k) then Pow2(k) else 0
  {
    if k > 0 {
      AndPow2(v / 2, k - 1);
    }
  }

  /** Masking with two adjacent bits `3 << k` keeps exactly bits k and k + 1. */
  lemma {:induction false} AndTwoBits(v: nat, k: nat)
    ensures And(v, 3 * Pow2(k)) ==
            (if Bit(v, k) then Pow2(k) else 0) + (if Bit(v, k + 1) then 2 * Pow2(k) else 0)
  {
    if k == 0 {
      AndPow2(v / 2, 0);
    } else {
      AndTwoBits(v / 2, k - 1);
    }
  }

  /** Below 2^(k+1), bit k is set exactly when the value reaches 2^k. */
  lemma {:induction false} TopBit(v: nat, k: nat)
    requires v < 2 * Pow2(k)
    ensures Bit(v, k) <==> v >= Pow2(k)
  {
    if k > 0 {
      TopBit(v / 2, k - 1);
    }
  }

  /** Setting a clear bit k changes bit k and no other bit. */
  lemma {:induction false} SetClearBit(v: nat, k: nat, j: nat)
    requires !Bit(v, k)
    ensures Bit(v + Pow2(k), j) <==> (j == k || Bit(v, j))
  {
    if j > 0 && k > 0 {
      assert (v + Pow2(k)) / 2 == v / 2 + Pow2(k - 1);
      SetClearBit(v / 2, k - 1, j - 1);
    } else if j > 0 {
      assert (v + 1) / 2 == v / 2;
    }
  }
}
