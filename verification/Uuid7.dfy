/** The simulator's UUIDv7 strings: layout, reading back, and order. */
module Uuid7 {
  import opened Bits

  // ---- the two halves ----

  function Hi(ms: nat, rand: nat): nat {
    Or(Or(ShiftLeft(And(ms, 0xFFFF_FFFF_FFFF), 16), 0x7000), ShiftRight(rand, 50))
  }

  function Lo(rand: nat): nat {
    Or(0x8000_0000_0000_0000, And(rand, 0x3FFF_FFFF_FFFF_FFFF))
  }

  lemma OrFields(m: nat, r: nat)
    requires r < P12
    ensures Or(Or(ShiftLeft(m, 16), 0x7000), r) == m * P16 + 0x7000 + r
  {
    var n12, n16, n32, n48, n50, n62, n63 := Exponents();
    OrsOf(m, 0x7000, n16, P16);
    OrsOf(m * 16 + 7, r, n12, P12);
    assert P16 * m + 0x7000 == P12 * (m * 16 + 7);
  }

  lemma OrVariant(r: nat)
    requires r < P62
    ensures Or(0x8000_0000_0000_0000, r) == P63 + r
  {
    var n12, n16, n32, n48, n50, n62, n63 := Exponents();
    OrsOf(1, r, n63, P63);
  }

  lemma HiOfFields(ms: nat, rand: nat, m: nat, r: nat)
    requires m == And(ms, 0xFFFF_FFFF_FFFF) && r == ShiftRight(rand, 50) && r < P12
    ensures Hi(ms, rand) == m * P16 + 0x7000 + r
  {
    OrFields(m, r);
  }

  lemma LoOfField(rand: nat, r: nat)
    requires r == And(rand, 0x3FFF_FFFF_FFFF_FFFF) && r < P62
    ensures Lo(rand) == P63 + r
  {
    OrVariant(r);
  }

  lemma SmallRand(rand: nat)
    requires rand < P62
    ensures rand % P62 == rand && rand / P50 < P12
  {
  }

  lemma FieldsRead(ms: nat, rand: nat)
    requires rand < P62
    ensures And(ms, 0xFFFF_FFFF_FFFF) == ms % P48 && ShiftRight(rand, 50) == rand / P50
    ensures And(rand, 0x3FFF_FFFF_FFFF_FFFF) == rand && rand / P50 < P12
  {
    SmallRand(rand);
    Masks(ms);
    Masks(rand);
    Right(rand);
  }

  /** The fields of the two halves do not overlap. */
  lemma HalvesAreSums(ms: nat, rand: nat)
    requires rand < P62
    ensures Hi(ms, rand) == ms % P48 * P16 + 0x7000 + rand / P50
    ensures Lo(rand) == P63 + rand
  {
    FieldsRead(ms, rand);
    HiOfFields(ms, rand, ms % P48, rand / P50);
    LoOfField(rand, rand);
  }

  // ---- hexadecimal ----

  function Digit(d: nat): char
    requires d < 16
  {
    if d < 10 then ('0' as int + d) as char else ('a' as int + d - 10) as char
  }

  /** The last n hexadecimal digits of x. */
  function Hex(x: nat, n: nat): (s: string)
    ensures |s| == n
  {
    if n == 0 then "" else Hex(x / 16, n - 1) + [Digit(x % 16)]
  }

  function DigitValue(c: char): int {
    if c <= '9' then c as int - '0' as int else c as int - 'a' as int + 10
  }

  function Value(s: string): int {
    if s == "" then 0 else 16 * Value(s[..|s| - 1]) + DigitValue(s[|s| - 1])
  }

  function Pow16(n: nat): nat {
    if n == 0 then 1 else 16 * Pow16(n - 1)
  }

  lemma {:induction false} HexValue(x: nat, n: nat)
    requires x < Pow16(n)
    ensures Value(Hex(x, n)) == x
  {
    if n > 0 {
      HexValue(x / 16, n - 1);
      assert Hex(x, n)[..n - 1] == Hex(x / 16, n - 1);
    }
  }

  // ---- lexicographic order ----

  predicate LexLess(s: string, t: string)
    requires |s| == |t|
  {
    s != "" && (s[0] < t[0] || (s[0] == t[0] && LexLess(s[1..], t[1..])))
  }

  lemma {:induction false} LexConcat(a: string, b: string, c: string, d: string)
    requires |a| == |c| && |b| == |d|
    ensures LexLess(a + b, c + d) <==> LexLess(a, c) || (a == c && LexLess(b, d))
  {
    if a == "" {
      assert a + b == b && c + d == d;
    } else {
      LexConcat(a[1..], b, c[1..], d);
      assert (a + b)[1..] == a[1..] + b && (c + d)[1..] == c[1..] + d;
      assert a == [a[0]] + a[1..] && c == [c[0]] + c[1..];
    }
  }

  lemma {:induction false} LexIrreflexive(s: string)
    ensures !LexLess(s, s)
  {
    if s != "" { LexIrreflexive(s[1..]); }
  }

  lemma DigitOrder(d: nat, e: nat)
    requires d < 16 && e < 16
    ensures LexLess([Digit(d)], [Digit(e)]) <==> d < e
  {
  }

  /** Fixed-width hexadecimal compares as the numbers do. */
  lemma {:induction false} HexOrder(x: nat, y: nat, n: nat)
    requires x < Pow16(n) && y < Pow16(n)
    ensures LexLess(Hex(x, n), Hex(y, n)) <==> x < y
    decreases n
  {
    if n > 0 {
      HexOrder(x / 16, y / 16, n - 1);
      HexOrder(y / 16, x / 16, n - 1);
      LexConcat(Hex(x / 16, n - 1), [Digit(x % 16)], Hex(y / 16, n - 1), [Digit(y % 16)]);
      DigitOrder(x % 16, y % 16);
      if Hex(x / 16, n - 1) == Hex(y / 16, n - 1) {
        LexIrreflexive(Hex(x / 16, n - 1));
      }
    }
  }

  // ---- the string ----

  /** The five groups as numbers. */
  datatype Groups = Groups(g0: nat, g1: nat, g2: nat, g3: nat, g4: nat)

  predicate Fits(g: Groups) {
    g.g0 < P32 && g.g1 < P16 && g.g2 < P16 && g.g3 < P16 && g.g4 < P48
  }

  function GroupsOf(hi: nat, lo: nat): Groups {
    Groups(ShiftRight(hi, 32), And(ShiftRight(hi, 16), 0xFFFF), And(hi, 0xFFFF),
           And(ShiftRight(lo, 48), 0xFFFF), And(lo, 0xFFFF_FFFF_FFFF))
  }

  lemma GroupsAreDigits(hi: nat, lo: nat)
    ensures GroupsOf(hi, lo) == Groups(hi / P32, hi / P16 % P16, hi % P16, lo / P48 % P16, lo % P48)
  {
    Right(hi);
    Right(lo);
    Masks(hi / P16);
    Masks(hi);
    Masks(lo / P48);
    Masks(lo);
  }

  function Print(g: Groups): (s: string)
    ensures |s| == 36
  {
    Hex(g.g0, 8) + ("-" + (Hex(g.g1, 4) + ("-" + (Hex(g.g2, 4) + ("-" + (Hex(g.g3, 4) + ("-" + Hex(g.g4, 12))))))))
  }

  function Uuid(ms: nat, rand: nat): string {
    Print(GroupsOf(Hi(ms, rand), Lo(rand)))
  }

  function ReadGroups(s: string): (int, int, int, int, int)
    requires |s| == 36
  {
    (Value(s[..8]), Value(s[9..13]), Value(s[14..18]), Value(s[19..23]), Value(s[24..]))
  }

  lemma Widths()
    ensures Pow16(4) == P16 && Pow16(8) == P32 && Pow16(12) == P48
  {
  }

  lemma ReadPrinted(g: Groups)
    requires Fits(g)
    ensures ReadGroups(Print(g)) == (g.g0, g.g1, g.g2, g.g3, g.g4)
  {
    var s := Print(g);
    Widths();
    assert s[..8] == Hex(g.g0, 8) && s[9..13] == Hex(g.g1, 4) && s[14..18] == Hex(g.g2, 4);
    assert s[19..23] == Hex(g.g3, 4) && s[24..] == Hex(g.g4, 12);
    HexValue(g.g0, 8);
    HexValue(g.g1, 4);
    HexValue(g.g2, 4);
    HexValue(g.g3, 4);
    HexValue(g.g4, 12);
  }

  /** The groups of a version 7 string. */
  predicate Fields(g: Groups, ms: nat, rand: nat) {
    && Fits(g)
    && g.g0 * P16 + g.g1 == ms % P48
    && g.g2 == 0x7000 + rand / P50
    && g.g3 == 0x8000 + rand / P48
    && g.g4 == rand % P48
  }

  lemma FieldsOfSums(ms: nat, rand: nat, hi: nat, lo: nat, g: Groups)
    requires rand < P62 && hi == ms % P48 * P16 + 0x7000 + rand / P50 && lo == P63 + rand
    requires g == Groups(hi / P32, hi / P16 % P16, hi % P16, lo / P48 % P16, lo % P48)
    ensures Fields(g, ms, rand)
  {
    var m, a := ms % P48, rand / P50;
    assert a < P12;
    assert hi / P16 == m && hi % P16 == 0x7000 + a;
    assert hi / P32 == m / P16;
    assert lo / P48 == 0x8000 + rand / P48;
  }

  lemma FieldsOf(ms: nat, rand: nat) returns (g: Groups)
    requires rand < P62
    ensures Uuid(ms, rand) == Print(g) && Fields(g, ms, rand)
  {
    var hi, lo := Hi(ms, rand), Lo(rand);
    g := GroupsOf(hi, lo);
    HalvesAreSums(ms, rand);
    GroupsAreDigits(hi, lo);
    FieldsOfSums(ms, rand, hi, lo, g);
  }

  /** Reading a string back gives the version, the variant, the timestamp and all 62
      random bits (section 5.7 of RFC 9562); the 12 bits behind the version repeat
      the top 12 of them. */
  lemma RoundTrip(ms: nat, rand: nat)
    requires rand < P62
    ensures var (v0, v1, v2, v3, v4) := ReadGroups(Uuid(ms, rand));
            && v0 * P16 + v1 == ms % P48
            && v2 / P12 == 7 && v3 / 0x4000 == 2
            && v3 % 0x4000 * P48 + v4 == rand
            && v2 % P12 == rand / P50
  {
    var g := FieldsOf(ms, rand);
    ReadPrinted(g);
    assert rand / P48 < 0x4000;
  }

  lemma Places(g: Groups)
    ensures var s := Print(g);
            && s[8] == s[13] == s[18] == s[23] == '-'
            && s[14] == Hex(g.g2, 4)[0] && s[19] == Hex(g.g3, 4)[0]
  {
  }

  lemma VariantDigit(d: nat)
    requires d == 8 || d == 9 || d == 10 || d == 11
    ensures Digit(7) == '7'
    ensures var c := Digit(d); c == '8' || c == '9' || c == 'a' || c == 'b'
  {
  }

  lemma VersionDigits(g: Groups, ms: nat, rand: nat)
    requires rand < P62 && Fields(g, ms, rand)
    ensures Hex(g.g2, 4)[0] == '7'
    ensures var c := Hex(g.g3, 4)[0]; c == '8' || c == '9' || c == 'a' || c == 'b'
  {
    FirstOfFour(g.g2);
    FirstOfFour(g.g3);
    assert rand / P48 < 0x4000;
    VariantDigit(g.g3 / P12);
  }

  lemma Layout(ms: nat, rand: nat)
    requires rand < P62
    ensures var s := Uuid(ms, rand);
            && s[8] == s[13] == s[18] == s[23] == '-'
            && s[14] == '7' && (s[19] == '8' || s[19] == '9' || s[19] == 'a' || s[19] == 'b')
  {
    var g := FieldsOf(ms, rand);
    Places(g);
    VersionDigits(g, ms, rand);
  }

  lemma FirstOfFour(x: nat)
    requires x < P16
    ensures Hex(x, 4)[0] == Digit(x / P12)
  {
    assert Hex(x / P12, 1) == [Digit(x / P12)] by { assert Hex(x / P12 / 16, 0) == ""; }
    assert Hex(x / 256, 2)[0] == Hex(x / P12, 1)[0] by { assert x / 256 / 16 == x / P12; }
    assert Hex(x / 16, 3)[0] == Hex(x / 256, 2)[0] by { assert x / 16 / 16 == x / 256; }
  }

  // ---- order ----

  predicate GroupsLess(g: Groups, h: Groups) {
    || g.g0 < h.g0
    || (g.g0 == h.g0
        && (|| g.g1 < h.g1
            || (g.g1 == h.g1
                && (|| g.g2 < h.g2
                    || (g.g2 == h.g2 && (g.g3 < h.g3 || (g.g3 == h.g3 && g.g4 < h.g4)))))))
  }

  /** One group, then a dash and the rest. */
  lemma GroupOrder(x: nat, y: nat, n: nat, s: string, t: string)
    requires x < Pow16(n) && y < Pow16(n) && |s| == |t|
    ensures LexLess(Hex(x, n) + ("-" + s), Hex(y, n) + ("-" + t)) <==> x < y || (x == y && LexLess(s, t))
  {
    LexConcat(Hex(x, n), "-" + s, Hex(y, n), "-" + t);
    LexConcat("-", s, "-", t);
    LexIrreflexive("-");
    HexOrder(x, y, n);
    HexValue(x, n);
    HexValue(y, n);
  }

  lemma PrintOrder(g: Groups, h: Groups)
    requires Fits(g) && Fits(h)
    ensures LexLess(Print(g), Print(h)) <==> GroupsLess(g, h)
  {
    Widths();
    var s4, t4 := Hex(g.g4, 12), Hex(h.g4, 12);
    var s3, t3 := Hex(g.g3, 4) + ("-" + s4), Hex(h.g3, 4) + ("-" + t4);
    var s2, t2 := Hex(g.g2, 4) + ("-" + s3), Hex(h.g2, 4) + ("-" + t3);
    var s1, t1 := Hex(g.g1, 4) + ("-" + s2), Hex(h.g1, 4) + ("-" + t2);
    HexOrder(g.g4, h.g4, 12);
    GroupOrder(g.g3, h.g3, 4, s4, t4);
    GroupOrder(g.g2, h.g2, 4, s3, t3);
    GroupOrder(g.g1, h.g1, 4, s2, t2);
    GroupOrder(g.g0, h.g0, 8, s1, t1);
  }

  lemma FieldsOrder(g: Groups, h: Groups, ms1: nat, rand1: nat, ms2: nat, rand2: nat)
    requires rand1 < P62 && rand2 < P62 && Fields(g, ms1, rand1) && Fields(h, ms2, rand2)
    ensures GroupsLess(g, h) <==> ms1 % P48 < ms2 % P48 || (ms1 % P48 == ms2 % P48 && rand1 < rand2)
  {
    assert rand1 / P50 == rand1 / P48 / 4 && rand2 / P50 == rand2 / P48 / 4;
  }

  /** The strings sort by timestamp, and within a millisecond by their random bits. */
  lemma StringsSortByTime(ms1: nat, rand1: nat, ms2: nat, rand2: nat)
    requires rand1 < P62 && rand2 < P62
    ensures LexLess(Uuid(ms1, rand1), Uuid(ms2, rand2)) <==>
            ms1 % P48 < ms2 % P48 || (ms1 % P48 == ms2 % P48 && rand1 < rand2)
  {
    var g := FieldsOf(ms1, rand1);
    var h := FieldsOf(ms2, rand2);
    PrintOrder(g, h);
    FieldsOrder(g, h, ms1, rand1, ms2, rand2);
  }
}
