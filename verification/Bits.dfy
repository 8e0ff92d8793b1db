/** Bytes, words, and the exclusive or of unsigned integers of any width. */
module Bits {

  type byte = x: int | 0 <= x < 256
  type word = x: int | 0 <= x < 65536

  function Xor(a: nat, b: nat): nat {
    if a == 0 then b
    else if b == 0 then a
    else 2 * Xor(a / 2, b / 2) + if a % 2 != b % 2 then 1 else 0
  }

  function Power2(n: nat): int { if n == 0 then 1 else 2 * Power2(n - 1) }

  /** Exclusive or works bit by bit. */
  lemma XorHalves(a: nat, b: nat)
    ensures Xor(a, b) / 2 == Xor(a / 2, b / 2)
    ensures Xor(a, b) % 2 == (if a % 2 != b % 2 then 1 else 0)
  {}

  lemma {:induction false} XorSelf(a: nat)
    ensures Xor(a, a) == 0
  {
    if a > 0 { XorSelf(a / 2); }
  }

  lemma {:induction false} XorCommutes(a: nat, b: nat)
    ensures Xor(a, b) == Xor(b, a)
  {
    if a > 0 && b > 0 { XorCommutes(a / 2, b / 2); }
  }

  lemma {:induction false} XorAssociates(a: nat, b: nat, c: nat)
    ensures Xor(Xor(a, b), c) == Xor(a, Xor(b, c))
  {
    if a > 0 && b > 0 && c > 0 {
      XorAssociates(a / 2, b / 2, c / 2);
      XorHalves(a, b);
      XorHalves(b, c);
      XorHalves(Xor(a, b), c);
      XorHalves(a, Xor(b, c));
    }
  }

  lemma XorTwice(a: nat, b: nat)
    ensures Xor(Xor(a, b), b) == a
  {
    XorAssociates(a, b, b);
    XorSelf(b);
  }

  lemma XorInjective(a: nat, b: nat, c: nat)
    requires Xor(a, b) == Xor(a, c)
    ensures b == c
  {
    XorCommutes(a, b);
    XorCommutes(a, c);
    XorTwice(b, a);
    XorTwice(c, a);
  }

  lemma {:induction false} XorRange(a: nat, b: nat, n: nat)
    requires a < Power2(n) && b < Power2(n)
    ensures Xor(a, b) < Power2(n)
  {
    if n > 0 { XorRange(a / 2, b / 2, n - 1); }
  }

  lemma EightBits()
    ensures Power2(8) == 256
  {
    assert Power2(4) == 16;
    assert Power2(8) == 2 * 2 * 2 * 2 * Power2(4);
  }

  /** Exclusive or of two bytes. */
  function XorBytes(a: byte, b: byte): (r: byte)
    ensures XorBytes(a, b) == Xor(a, b)
  {
    EightBits();
    XorRange(a, b, 8);
    Xor(a, b)
  }

  // ---------------------------------------------------------------- two bytes bit by bit

  lemma XorStep(a: nat, b: nat)
    ensures Xor(a, b) == 2 * Xor(a / 2, b / 2) + (if a % 2 != b % 2 then 1 else 0)
  {}

  type bit = x: int | 0 <= x < 2

  function Flip(x: bit, y: bit): bit { if x != y then 1 else 0 }

  function Byte(b7: bit, b6: bit, b5: bit, b4: bit, b3: bit, b2: bit, b1: bit, b0: bit): byte {
    128 * b7 + 64 * b6 + 32 * b5 + 16 * b4 + 8 * b3 + 4 * b2 + 2 * b1 + b0
  }

  lemma Doubled(a: nat, b: nat, c: nat, x: bit, y: bit)
    requires Xor(a, b) == c
    ensures Xor(2 * a + x, 2 * b + y) == 2 * c + Flip(x, y)
  {
    XorStep(2 * a + x, 2 * b + y);
    hide Xor;
  }

  lemma FourMoreBits(a: nat, b: nat, c: nat, a3: bit, a2: bit, a1: bit, a0: bit, b3: bit, b2: bit, b1: bit, b0: bit)
    requires Xor(a, b) == c
    ensures Xor(16 * a + 8 * a3 + 4 * a2 + 2 * a1 + a0, 16 * b + 8 * b3 + 4 * b2 + 2 * b1 + b0) ==
            16 * c + 8 * Flip(a3, b3) + 4 * Flip(a2, b2) + 2 * Flip(a1, b1) + Flip(a0, b0)
  {
    hide Xor, Flip;
    Doubled(a, b, c, a3, b3);
    Doubled(2 * a + a3, 2 * b + b3, 2 * c + Flip(a3, b3), a2, b2);
    Doubled(4 * a + 2 * a3 + a2, 4 * b + 2 * b3 + b2, 4 * c + 2 * Flip(a3, b3) + Flip(a2, b2), a1, b1);
    Doubled(8 * a + 4 * a3 + 2 * a2 + a1, 8 * b + 4 * b3 + 2 * b2 + b1,
            8 * c + 4 * Flip(a3, b3) + 2 * Flip(a2, b2) + Flip(a1, b1), a0, b0);
  }

  /** Two bytes from their bits, highest first. */
  lemma BinaryXor(a7: bit, a6: bit, a5: bit, a4: bit, a3: bit, a2: bit, a1: bit, a0: bit,
                  b7: bit, b6: bit, b5: bit, b4: bit, b3: bit, b2: bit, b1: bit, b0: bit)
    ensures XorBytes(Byte(a7, a6, a5, a4, a3, a2, a1, a0), Byte(b7, b6, b5, b4, b3, b2, b1, b0)) ==
            Byte(Flip(a7, b7), Flip(a6, b6), Flip(a5, b5), Flip(a4, b4), Flip(a3, b3), Flip(a2, b2), Flip(a1, b1), Flip(a0, b0))
  {
    assert Xor(0, 0) == 0;
    hide Xor, Flip;
    FourMoreBits(0, 0, 0, a7, a6, a5, a4, b7, b6, b5, b4);
    FourMoreBits(8 * a7 + 4 * a6 + 2 * a5 + a4, 8 * b7 + 4 * b6 + 2 * b5 + b4,
                 8 * Flip(a7, b7) + 4 * Flip(a6, b6) + 2 * Flip(a5, b5) + Flip(a4, b4), a3, a2, a1, a0, b3, b2, b1, b0);
  }
}
