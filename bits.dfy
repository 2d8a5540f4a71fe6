/**
 * Unsigned shifts and bitwise OR on unbounded naturals, the two bit
 * operations the varint codec is written with. `Shl(g, s)` is `g << s`
 * before any truncation; keeping it recursive keeps every proof about it
 * in linear arithmetic.
 */
module Bits {

  /** `g << s` on an unbounded integer. */
  function Shl(g: nat, s: nat): nat
  {
    if s == 0 then g else 2 * Shl(g, s - 1)
  }

  /** 2^n. */
  function Pow2(n: nat): nat
  {
    Shl(1, n)
  }

  lemma {:induction false} ShlAdd(a: nat, b: nat, s: nat)
    ensures Shl(a + b, s) == Shl(a, s) + Shl(b, s)
  {
    if s > 0 {
      ShlAdd(a, b, s - 1);
    }
  }

  lemma {:induction false} ShlShl(g: nat, s: nat, t: nat)
    ensures Shl(Shl(g, s), t) == Shl(g, s + t)
  {
    if t > 0 {
      ShlShl(g, s, t - 1);
    }
  }

  lemma {:induction false} ShlZero(s: nat)
    ensures Shl(0, s) == 0
  {
    if s > 0 {
      ShlZero(s - 1);
    }
  }

  lemma Shl7(g: nat)
    ensures Shl(g, 7) == 128 * g
  {
    assert Shl(g, 1) == 2 * g;
    assert Shl(g, 3) == 2 * Shl(g, 2);
    assert Shl(g, 5) == 2 * Shl(g, 4);
    assert Shl(g, 7) == 2 * Shl(g, 6);
  }

  lemma Shl8(g: nat)
    ensures Shl(g, 8) == 256 * g
  {
    Shl7(g);
  }

  /** Multiplying by a constant before or after the shift is the same. */
  lemma {:induction false} ShlScale(g: nat, c: nat, s: nat)
    ensures Shl(c * g, s) == c * Shl(g, s)
  {
    if s > 0 {
      ShlScale(g, c, s - 1);
    }
  }

  lemma {:induction false} ShlMonotone(a: nat, b: nat, s: nat)
    requires a <= b
    ensures Shl(a, s) <= Shl(b, s)
    ensures a < b ==> Shl(a, s) < Shl(b, s)
  {
    if s > 0 {
      ShlMonotone(a, b, s - 1);
    }
  }

  lemma {:induction false} ShlMonotoneShift(g: nat, s: nat, t: nat)
    requires s <= t
    ensures Shl(g, s) <= Shl(g, t)
  {
    if s < t {
      ShlMonotoneShift(g, s, t - 1);
    }
  }

  /** The powers of two the codec's bounds are stated with. */
  lemma Pow2Values()
    ensures Pow2(7) == 128 && Pow2(31) == 0x8000_0000
    ensures Pow2(32) == 0x1_0000_0000 && Pow2(64) == 0x1_0000_0000_0000_0000
  {
    Shl8(1);
    Shl8(256);
    ShlShl(1, 8, 8);
    Shl8(0x1_0000);
    ShlShl(1, 16, 8);
    Shl7(0x100_0000);
    ShlShl(1, 24, 7);
    ShlShl(1, 31, 1);
    ShlScale(1, 0x1_0000_0000, 32);
    ShlShl(0x1_0000_0000, 0, 32);
    ShlShl(1, 32, 32);
  }

  /** Bitwise OR of two naturals, as `|` on unsigned integers. */
  function BitOr(a: nat, b: nat): nat
    decreases a + b
  {
    if a == 0 then b
    else if b == 0 then a
    else 2 * BitOr(a / 2, b / 2) + (if a % 2 == 1 || b % 2 == 1 then 1 else 0)
  }

  /** OR never sets a bit above the width of its operands. */
  lemma {:induction false} BitOrBound(a: nat, b: nat, k: nat)
    requires a < Pow2(k) && b < Pow2(k)
    ensures BitOr(a, b) < Pow2(k)
    decreases a + b
  {
    if a != 0 && b != 0 {
      BitOrBound(a / 2, b / 2, k - 1);
    }
  }

  /** OR of a value below 2^k with a multiple of 2^k is their sum: no bit
      is set in both. */
  lemma {:induction false} BitOrDisjoint(a: nat, m: nat, k: nat)
    requires a < Pow2(k)
    ensures BitOr(a, Shl(m, k)) == a + Shl(m, k)
  {
    if k == 0 {
      assert a == 0;
    } else if a != 0 && Shl(m, k) != 0 {
      BitOrDisjoint(a / 2, m, k - 1);
    }
  }

  /** `b | 0x80` on a 7-bit group sets bit 7. */
  lemma BitOrHighBit(b: nat)
    requires b < 128
    ensures BitOr(b, 0x80) == b + 128
  {
    Shl7(1);
    BitOrDisjoint(b, 1, 7);
  }
}
