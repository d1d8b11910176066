/** The byte patterns of `Utf8` are the encodings of the Unicode scalar values (section 3 of RFC 3629). */
module CodePoints {
  import opened Utf8

  predicate Scalar(c: nat) {
    c < 0xD800 || 0xE000 <= c < 0x11_0000
  }

  function Nat(b: bv8): (n: nat)
    ensures n < 256
  {
    b as nat
  }

  /** The bytes `e` encode the number c, in the shortest way. */
  predicate Encodes(e: Bytes, c: nat) {
    if c < 0x80 then |e| == 1 && Nat(e[0]) == c
    else if c < 0x800 then |e| == 2 && Nat(e[0]) == 0xC0 + c / 64 && Nat(e[1]) == 0x80 + c % 64
    else if c < 0x1_0000 then
      && |e| == 3 && Nat(e[0]) == 0xE0 + c / 64 / 64 && Nat(e[1]) == 0x80 + c / 64 % 64 && Nat(e[2]) == 0x80 + c % 64
    else
      && |e| == 4 && Nat(e[0]) == 0xF0 + c / 64 / 64 / 64 && Nat(e[1]) == 0x80 + c / 64 / 64 % 64
      && Nat(e[2]) == 0x80 + c / 64 % 64 && Nat(e[3]) == 0x80 + c % 64
  }

  lemma BoundsAre(b: bv8, lo: bv8)
    ensures b >= lo <==> Nat(b) >= Nat(lo)
  {
  }

  lemma ContinuationIs(b: bv8)
    ensures Continuation(b) <==> 0x80 <= Nat(b) < 0xC0
  {
    assert Continuation(b) <==> b >= 0x80 && !(b >= 0xC0);
    BoundsAre(b, 0x80);
    BoundsAre(b, 0xC0);
  }

  lemma WithinIs(b: bv8, lo: bv8, hi: bv8)
    ensures Within(b, lo, hi) <==> Nat(lo) <= Nat(b) <= Nat(hi)
  {
    BoundsAre(b, lo);
    BoundsAre(hi, b);
  }

  /** The patterns in numbers. */
  predicate Pattern(s: Bytes, n: nat) {
    && |s| >= n
    && (n == 1 ==> Nat(s[0]) < 0x80)
    && (n == 2 ==> 0xC2 <= Nat(s[0]) <= 0xDF && Tail(s[1]))
    && (n == 3 ==>
          && Tail(s[1]) && Tail(s[2]) && 0xE0 <= Nat(s[0]) <= 0xEF
          && (Nat(s[0]) == 0xE0 ==> Nat(s[1]) >= 0xA0) && (Nat(s[0]) == 0xED ==> Nat(s[1]) < 0xA0))
    && (n == 4 ==>
          && Tail(s[1]) && Tail(s[2]) && Tail(s[3]) && 0xF0 <= Nat(s[0]) <= 0xF4
          && (Nat(s[0]) == 0xF0 ==> Nat(s[1]) >= 0x90) && (Nat(s[0]) == 0xF4 ==> Nat(s[1]) < 0x90))
  }

  predicate Tail(b: bv8) {
    0x80 <= Nat(b) < 0xC0
  }

  lemma SameByte(a: bv8, b: bv8)
    ensures a == b <==> Nat(a) == Nat(b)
  {
    BoundsAre(a, b);
    BoundsAre(b, a);
  }

  lemma TwoIs(s: Bytes)
    ensures Two(s) <==> Pattern(s, 2)
  {
    if |s| >= 2 {
      WithinIs(s[0], 0xC2, 0xDF);
      ContinuationIs(s[1]);
    }
  }

  lemma ThreeIs(s: Bytes)
    ensures Three(s) <==> Pattern(s, 3)
  {
    if |s| >= 3 {
      ContinuationIs(s[1]);
      ContinuationIs(s[2]);
      SameByte(s[0], 0xE0);
      SameByte(s[0], 0xED);
      BoundsAre(s[1], 0xA0);
      BoundsAre(0x9F, s[1]);
      WithinIs(s[0], 0xE1, 0xEC);
      WithinIs(s[0], 0xEE, 0xEF);
    }
  }

  lemma FourIs(s: Bytes)
    ensures Four(s) <==> Pattern(s, 4)
  {
    if |s| >= 4 {
      ContinuationIs(s[1]);
      ContinuationIs(s[2]);
      ContinuationIs(s[3]);
      SameByte(s[0], 0xF0);
      SameByte(s[0], 0xF4);
      BoundsAre(s[1], 0x90);
      BoundsAre(0x8F, s[1]);
      WithinIs(s[0], 0xF1, 0xF3);
    }
  }

  lemma FirstIs(s: Bytes)
    ensures forall n :: 1 <= n <= 4 ==> (First(s) == n <==> Pattern(s, n))
    ensures First(s) <= 4
  {
    TwoIs(s);
    ThreeIs(s);
    FourIs(s);
    if s != [] { BoundsAre(0x7F, s[0]); }
  }

  lemma Digit64(a: nat, b: nat)
    requires b < 64
    ensures (a * 64 + b) / 64 == a && (a * 64 + b) % 64 == b
  {
  }

  lemma TwoNumbers(x: nat, y: nat) returns (c: nat)
    requires 0xC2 <= x <= 0xDF && 0x80 <= y < 0xC0
    ensures 0x80 <= c < 0x800 && x == 0xC0 + c / 64 && y == 0x80 + c % 64
  {
    c := (x - 0xC0) * 64 + (y - 0x80);
    Digit64(x - 0xC0, y - 0x80);
  }

  lemma ThreeNumbers(x: nat, y: nat, z: nat) returns (c: nat)
    requires 0xE0 <= x <= 0xEF && 0x80 <= y < 0xC0 && 0x80 <= z < 0xC0
    requires (x == 0xE0 ==> y >= 0xA0) && (x == 0xED ==> y < 0xA0)
    ensures 0x800 <= c < 0x1_0000 && Scalar(c)
    ensures x == 0xE0 + c / 64 / 64 && y == 0x80 + c / 64 % 64 && z == 0x80 + c % 64
  {
    var d := (x - 0xE0) * 64 + (y - 0x80);
    c := d * 64 + (z - 0x80);
    Digit64(x - 0xE0, y - 0x80);
    Digit64(d, z - 0x80);
  }

  lemma FourNumbers(x: nat, y: nat, z: nat, w: nat) returns (c: nat)
    requires 0xF0 <= x <= 0xF4 && 0x80 <= y < 0xC0 && 0x80 <= z < 0xC0 && 0x80 <= w < 0xC0
    requires (x == 0xF0 ==> y >= 0x90) && (x == 0xF4 ==> y < 0x90)
    ensures 0x1_0000 <= c < 0x11_0000
    ensures x == 0xF0 + c / 64 / 64 / 64 && y == 0x80 + c / 64 / 64 % 64
    ensures z == 0x80 + c / 64 % 64 && w == 0x80 + c % 64
  {
    var f := (x - 0xF0) * 64 + (y - 0x80);
    var d := f * 64 + (z - 0x80);
    c := d * 64 + (w - 0x80);
    Digit64(x - 0xF0, y - 0x80);
    Digit64(f, z - 0x80);
    Digit64(d, w - 0x80);
  }

  lemma PatternEncodes(s: Bytes, n: nat) returns (c: nat)
    requires 1 <= n <= 4 && Pattern(s, n)
    ensures Scalar(c) && Encodes(s[..n], c)
  {
    if n == 1 {
      c := Nat(s[0]);
    } else if n == 2 {
      c := TwoNumbers(Nat(s[0]), Nat(s[1]));
    } else if n == 3 {
      c := ThreeNumbers(Nat(s[0]), Nat(s[1]), Nat(s[2]));
    } else {
      c := FourNumbers(Nat(s[0]), Nat(s[1]), Nat(s[2]), Nat(s[3]));
    }
  }

  lemma EncodesPattern(e: Bytes, c: nat)
    requires Scalar(c) && Encodes(e, c)
    ensures 1 <= |e| <= 4 && Pattern(e, |e|)
  {
    var d := c / 64;
    assert c == d * 64 + c % 64;
    if 0x800 <= c {
      var f := d / 64;
      assert d == f * 64 + d % 64;
      if 0x1_0000 <= c {
        var g := f / 64;
        assert f == g * 64 + f % 64;
      }
    }
  }

  /** A character is at the front exactly when the encoding of some scalar value is, and it
      is as long: overlong forms, surrogates and numbers beyond U+10FFFF are none. */
  lemma FirstIff(s: Bytes, n: nat)
    requires n > 0
    ensures First(s) == n <==> n <= |s| && exists c: nat :: Scalar(c) && Encodes(s[..n], c)
  {
    FirstIs(s);
    if First(s) == n {
      var c := PatternEncodes(s, n);
    }
    if n <= |s| {
      if c: nat :| Scalar(c) && Encodes(s[..n], c) {
        EncodesPattern(s[..n], c);
        assert Pattern(s, n);
      }
    }
  }
}
