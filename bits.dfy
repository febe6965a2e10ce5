/** Bit operations on non-negative integers, in place of the JavaScript
    operators `^`, `>>`, `>>>` and `& 1` that js/qr.js applies to bytes and
    small words. */
module Bits {

  /** A value of a `Uint8Array` cell. */
  type Byte = x: int | 0 <= x < 256

  function Pow2(k: nat): (r: nat)
    ensures r >= 1
  {
    if k == 0 then 1 else 2 * Pow2(k - 1)
  }

  /** `(v >> k) & 1`: bit k of v. */
  function Bit(v: nat, k: nat): (r: nat)
    ensures r < 2
  {
    (v / Pow2(k)) % 2
  }

  /** `a ^ b` on non-negative integers, bit by bit from the lowest. */
  function Xor(a: nat, b: nat): nat
    decreases a + b
  {
    if a == 0 then b
    else if b == 0 then a
    else 2 * Xor(a / 2, b / 2) + (if a % 2 == b % 2 then 0 else 1)
  }

  /** The lowest bit of `a ^ b` is the parity of the two lowest bits. */
  lemma XorParity(a: nat, b: nat)
    ensures Xor(a, b) % 2 == (a + b) % 2
  {
  }

  /** The halves of `a ^ b` and its lowest bit, for any operands. */
  lemma XorSplit(a: nat, b: nat)
    ensures Xor(a, b) == 2 * Xor(a / 2, b / 2) + (if a % 2 == b % 2 then 0 else 1)
  {
    if a == 0 {
      XorZeroLeft(b / 2);
    } else if b == 0 {
      XorZeroRight(a / 2);
    }
  }

  lemma XorZeroLeft(b: nat)
    ensures Xor(0, b) == b
  {
  }

  lemma XorZeroRight(a: nat)
    ensures Xor(a, 0) == a
  {
  }

  lemma {:induction false} XorCommutes(a: nat, b: nat)
    ensures Xor(a, b) == Xor(b, a)
    decreases a + b
  {
    if a != 0 && b != 0 {
      XorCommutes(a / 2, b / 2);
    }
  }

  lemma {:induction false} XorSelf(a: nat)
    ensures Xor(a, a) == 0
    decreases a
  {
    if a != 0 {
      XorSelf(a / 2);
    }
  }

  lemma {:induction false} XorAssoc(a: nat, b: nat, c: nat)
    ensures Xor(Xor(a, b), c) == Xor(a, Xor(b, c))
    decreases a + b + c
  {
    if a + b + c > 0 {
      var ab, bc := Xor(a, b), Xor(b, c);
      var r1 := if a % 2 == b % 2 then 0 else 1;
      var r2 := if b % 2 == c % 2 then 0 else 1;
      assert ab / 2 == Xor(a / 2, b / 2) && ab % 2 == r1 by {
        XorSplit(a, b);
        Halves(Xor(a / 2, b / 2), r1);
      }
      assert bc / 2 == Xor(b / 2, c / 2) && bc % 2 == r2 by {
        XorSplit(b, c);
        Halves(Xor(b / 2, c / 2), r2);
      }
      var t := if r1 == c % 2 then 0 else 1;
      assert t == (if a % 2 == r2 then 0 else 1);
      assert Xor(ab, c) == 2 * Xor(Xor(a / 2, b / 2), c / 2) + t by { XorSplit(ab, c); }
      assert Xor(a, bc) == 2 * Xor(a / 2, Xor(b / 2, c / 2)) + t by { XorSplit(a, bc); }
      XorAssoc(a / 2, b / 2, c / 2);
    }
  }

  lemma Halves(y: nat, r: nat)
    requires r < 2
    ensures (2 * y + r) / 2 == y && (2 * y + r) % 2 == r
  {
  }

  /** Xoring the same value twice undoes it. */
  lemma XorCancel(a: nat, b: nat)
    ensures Xor(Xor(a, b), b) == a
  {
    XorAssoc(a, b, b);
    XorSelf(b);
    XorZeroRight(a);
  }

  /** Xor keeps values below a power of two below it. */
  lemma {:induction false} XorBelow(a: nat, b: nat, k: nat)
    requires a < Pow2(k) && b < Pow2(k)
    ensures Xor(a, b) < Pow2(k)
    decreases k
  {
    if a != 0 && b != 0 {
      XorBelow(a / 2, b / 2, k - 1);
    }
  }

  /** Bytes are closed under xor. */
  lemma XorByte(a: Byte, b: Byte)
    ensures Xor(a, b) < 256
  {
    assert Pow2(8) == 256;
    XorBelow(a, b, 8);
  }

  /** `a ^ b` on two bytes. */
  function Xor8(a: Byte, b: Byte): (r: Byte)
    ensures r == Xor(a, b)
  {
    XorByte(a, b);
    Xor(a, b)
  }

  /** The `length` low bits of `v`, most significant first, as
      `pushBits(v, length)` emits them. */
  function BitsOf(v: nat, length: nat): (r: seq<nat>)
    ensures |r| == length
    decreases length
  {
    if length == 0 then [] else [Bit(v, length - 1)] + BitsOf(v, length - 1)
  }
}
