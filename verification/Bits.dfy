/** Shifts, masks and `|` on integers of any size, bit by bit: a shift is a
    product or a quotient, masking with n ones is a remainder, and `|` of two numbers
    without a bit in common is their sum. */
module Bits {

  const P12 := 0x1000
  const P16 := 0x1_0000
  const P32 := 0x1_0000_0000
  const P48 := 0x1_0000_0000_0000
  const P50 := 0x4_0000_0000_0000
  const P62 := 0x4000_0000_0000_0000
  const P63 := 0x8000_0000_0000_0000

  function Pow2(n: nat): (p: nat)
    ensures p > 0
  {
    if n == 0 then 1 else 2 * Pow2(n - 1)
  }

  function And(a: nat, b: nat): nat {
    if a == 0 || b == 0 then 0 else 2 * And(a / 2, b / 2) + (if a % 2 == 1 && b % 2 == 1 then 1 else 0)
  }

  function Or(a: nat, b: nat): nat {
    if a == 0 then b else if b == 0 then a else 2 * Or(a / 2, b / 2) + (if a % 2 == 1 || b % 2 == 1 then 1 else 0)
  }

  predicate Bit(a: nat, i: nat) {
    if i == 0 then a % 2 == 1 else Bit(a / 2, i - 1)
  }

  /** `&` and `|` are what they are called: every bit of the result is the
      conjunction, or disjunction, of the two bits in its place. */
  lemma {:induction false} BitByBit(a: nat, b: nat, i: nat)
    ensures Bit(And(a, b), i) <==> Bit(a, i) && Bit(b, i)
    ensures Bit(Or(a, b), i) <==> Bit(a, i) || Bit(b, i)
    decreases i
  {
    if i > 0 {
      BitByBit(a / 2, b / 2, i - 1);
      ZeroBit(i);
      ZeroBit(i - 1);
    }
  }

  lemma {:induction false} ZeroBit(i: nat)
    ensures !Bit(0, i)
  {
    if i > 0 { ZeroBit(i - 1); }
  }

  function ShiftLeft(a: nat, n: nat): nat {
    if n == 0 then a else 2 * ShiftLeft(a, n - 1)
  }

  function ShiftRight(a: nat, n: nat): nat {
    if n == 0 then a else ShiftRight(a / 2, n - 1)
  }

  /** The i-th bit is what is left on the right after shifting by i. */
  lemma {:induction false} BitIs(a: nat, i: nat)
    ensures Bit(a, i) <==> ShiftRight(a, i) % 2 == 1
    decreases i
  {
    if i > 0 { BitIs(a / 2, i - 1); }
  }

  lemma {:induction false} ShiftIsProduct(a: nat, n: nat)
    ensures ShiftLeft(a, n) == Pow2(n) * a
  {
    if n > 0 { ShiftIsProduct(a, n - 1); }
  }

  /** Masking with n ones and shifting by n take a number apart. */
  lemma {:induction false} MaskAndShift(a: nat, n: nat)
    ensures a == ShiftLeft(ShiftRight(a, n), n) + And(a, Pow2(n) - 1)
    ensures And(a, Pow2(n) - 1) < Pow2(n)
    decreases n
  {
    if n > 0 {
      MaskAndShift(a / 2, n - 1);
      assert Pow2(n) - 1 == 2 * (Pow2(n - 1) - 1) + 1;
    }
  }

  /** Bits below the n-th do not meet a number shifted by n: `|` is a sum. */
  lemma {:induction false} OrIsSum(a: nat, b: nat, n: nat)
    requires b < Pow2(n)
    ensures Or(ShiftLeft(a, n), b) == ShiftLeft(a, n) + b
    decreases n
  {
    if n > 0 { OrIsSum(a, b / 2, n - 1); }
  }

  lemma Next(n: nat, p: nat)
    requires Pow2(n) == p
    ensures Pow2(n + 1) == 2 * p && Pow2(n + 2) == 4 * p && Pow2(n + 4) == 16 * p
  {
    assert Pow2(n + 1) == 2 * p;
    assert Pow2(n + 2) == 4 * p;
    assert Pow2(n + 3) == 8 * p;
  }

  lemma Next16(n: nat, p: nat)
    requires Pow2(n) == p
    ensures Pow2(n + 12) == 0x1000 * p && Pow2(n + 16) == 0x1_0000 * p
  {
    Next(n, p);
    Next(n + 4, 0x10 * p);
    Next(n + 8, 0x100 * p);
    Next(n + 12, 0x1000 * p);
  }

  /** The exponents the code uses, with their powers. */
  lemma Exponents() returns (n12: nat, n16: nat, n32: nat, n48: nat, n50: nat, n62: nat, n63: nat)
    ensures n12 == 12 && Pow2(n12) == P12
    ensures n16 == 16 && Pow2(n16) == P16
    ensures n32 == 32 && Pow2(n32) == P32
    ensures n48 == 48 && Pow2(n48) == P48
    ensures n50 == 50 && Pow2(n50) == P50
    ensures n62 == 62 && Pow2(n62) == P62
    ensures n63 == 63 && Pow2(n63) == P63
  {
    var n0: nat := 0;
    Next16(n0, 1);
    n12, n16 := n0 + 12, n0 + 16;
    Next16(n16, P16);
    n32 := n16 + 16;
    Next16(n32, P32);
    n48 := n32 + 16;
    Next(n48, P48);
    n50 := n48 + 2;
    Next16(n50, P50);
    n62 := n50 + 12;
    Next(n62, P62);
    n63 := n62 + 1;
  }

  /** Quotient and remainder, for a power of two given by its value. */
  lemma BitsOf(a: nat, n: nat, p: nat)
    requires p == Pow2(n)
    ensures a == p * ShiftRight(a, n) + And(a, p - 1) && And(a, p - 1) < p
  {
    MaskAndShift(a, n);
    ShiftIsProduct(ShiftRight(a, n), n);
  }

  lemma OrsOf(a: nat, b: nat, n: nat, p: nat)
    requires p == Pow2(n) && b < p
    ensures ShiftLeft(a, n) == p * a && Or(p * a, b) == p * a + b
  {
    ShiftIsProduct(a, n);
    OrIsSum(a, b, n);
  }

  lemma Remainder(a: nat, p: nat, q: nat, r: nat)
    requires a == p * q + r && r < p && (p == P16 || p == P48 || p == P62)
    ensures r == a % p
  {
  }

  lemma MaskOf(a: nat, n: nat, p: nat)
    requires p == Pow2(n) && (p == P16 || p == P48 || p == P62)
    ensures And(a, p - 1) == a % p
  {
    BitsOf(a, n, p);
    Remainder(a, p, ShiftRight(a, n), And(a, p - 1));
  }

  lemma Masks(a: nat)
    ensures And(a, 0xFFFF) == a % P16 && And(a, 0xFFFF_FFFF_FFFF) == a % P48
    ensures And(a, 0x3FFF_FFFF_FFFF_FFFF) == a % P62
  {
    var n12, n16, n32, n48, n50, n62, n63 := Exponents();
    MaskOf(a, n16, P16);
    MaskOf(a, n48, P48);
    MaskOf(a, n62, P62);
  }

  lemma Right(a: nat)
    ensures ShiftRight(a, 16) == a / P16 && ShiftRight(a, 32) == a / P32
    ensures ShiftRight(a, 48) == a / P48 && ShiftRight(a, 50) == a / P50
  {
    var n12, n16, n32, n48, n50, n62, n63 := Exponents();
    BitsOf(a, n16, P16);
    BitsOf(a, n32, P32);
    BitsOf(a, n48, P48);
    BitsOf(a, n50, P50);
  }
}
