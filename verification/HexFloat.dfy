/** Exact hexadecimal text for floating-point bit patterns. */
module HexFloat {
  /** A binary format: exponent bias, all-ones exponent, size of the fraction, hex digits printed, and the
      factor that makes the fraction a whole number of digits. */
  datatype Format = Double | Single {
    function Bias(): nat { if Double? then 1023 else 127 }
    function Top(): nat { if Double? then 2047 else 255 }
    function Size(): (n: nat) ensures n > 0 { if Double? then 0x10_0000_0000_0000 else 0x80_0000 }
    function Digits(): nat { if Double? then 13 else 6 }
    function Scale(): (n: nat) ensures n > 0 { if Double? then 1 else 2 }
    /** The number of bit patterns without the sign. */
    function Half(): (n: nat) ensures n > 0 { if Double? then 0x8000_0000_0000_0000 else 0x8000_0000 }
  }

  predicate Pattern(F: Format, u: nat) { u < 2 * F.Half() }

  predicate Negative(F: Format, u: nat) { u / F.Half() % 2 == 1 }
  function Exponent(F: Format, u: nat): (e: nat)
    ensures e <= F.Top()
  {
    u / F.Size() % (F.Top() + 1)
  }
  function Fraction(F: Format, u: nat): (m: nat)
    ensures m < F.Size()
  {
    u % F.Size()
  }

  /** The pattern with the given fields. */
  function Pack(F: Format, neg: bool, e: nat, m: nat): nat {
    (if neg then F.Half() else 0) + e * F.Size() + m
  }

  lemma PackFields(F: Format, u: nat)
    requires Pattern(F, u)
    ensures u == Pack(F, Negative(F, u), Exponent(F, u), Fraction(F, u))
  {
    if F.Double? { DoubleFields(u); } else { SingleFields(u); }
  }

  lemma DoubleFields(u: nat)
    requires u < 0x1_0000_0000_0000_0000
    ensures u == (if u / 0x8000_0000_0000_0000 % 2 == 1 then 0x8000_0000_0000_0000 else 0)
                 + u / 0x10_0000_0000_0000 % 2048 * 0x10_0000_0000_0000 + u % 0x10_0000_0000_0000
  {}

  lemma SingleFields(u: nat)
    requires u < 0x1_0000_0000
    ensures u == (if u / 0x8000_0000 % 2 == 1 then 0x8000_0000 else 0) + u / 0x80_0000 % 256 * 0x80_0000 + u % 0x80_0000
  {}

  /** NaNs are printed and read as the canonical one of their sign; every other pattern is its own. */
  function Canonical(F: Format, u: nat): nat {
    if Exponent(F, u) == F.Top() && Fraction(F, u) != 0 then Pack(F, Negative(F, u), F.Top(), F.Size() / 2) else u
  }

  // ---------- the text ----------

  function Digit(d: nat): (ch: char)
    requires d < 16
  {
    if d < 10 then (48 + d) as char else (87 + d) as char
  }

  function HexText(v: nat, n: nat): (s: string)
    ensures |s| == n
    decreases n
  {
    if n == 0 then [] else HexText(v / 16, n - 1) + [Digit(v % 16)]
  }

  function DecText(v: nat): (s: string)
    ensures |s| > 0
    ensures |s| <= if v < 10 then 1 else if v < 100 then 2 else if v < 1000 then 3 else if v < 10000 then 4 else v
  {
    if v < 10 then [Digit(v)] else DecText(v / 10) + [Digit(v % 10)]
  }

  /** The exponent printed: zeros have 0, subnormals the least normal exponent. */
  function Shown(F: Format, u: nat): int {
    if Exponent(F, u) == 0 then (if Fraction(F, u) == 0 then 0 else 1 - F.Bias()) else Exponent(F, u) - F.Bias()
  }

  function Abs(x: int): nat { if x < 0 then -x else x }

  function Special(neg: bool, nan: bool): string {
    if nan then (if neg then "-nan" else "+nan") else (if neg then "-inf" else "+inf")
  }

  function ExpText(e: int): string {
    "p" + [if e < 0 then '-' else '+'] + DecText(Abs(e))
  }

  function NumberText(F: Format, lead: nat, frac: nat, e: int): string
    requires lead < 2
  {
    "0x" + [Digit(lead)] + "." + HexText(frac, F.Digits()) + ExpText(e)
  }

  function Text(F: Format, u: nat): string {
    if Exponent(F, u) == F.Top() then Special(Negative(F, u), Fraction(F, u) != 0)
    else (if Negative(F, u) then "-" else "") +
         NumberText(F, if Exponent(F, u) == 0 then 0 else 1, Fraction(F, u) * F.Scale(), Shown(F, u))
  }

  /** With its final zero the text takes at most 25 characters for a double and 17 for a float; some take as many. */
  lemma TextFits(F: Format, u: nat)
    ensures |Text(F, u)| + 1 <= if F.Double? then 25 else 17
    ensures |Text(Double, 0x8010_0000_0000_0000)| + 1 == 25 && |Text(Single, 0x8080_0000)| + 1 == 17
  {
    hide DecText, HexText, Exponent, Fraction, Negative;
    assert Abs(Shown(F, u)) < (if F.Double? then 10000 else 1000);
    LongestText();
  }

  /** The least normal numbers, negative. */
  lemma LongestText()
    ensures |Text(Double, 0x8010_0000_0000_0000)| + 1 == 25 && |Text(Single, 0x8080_0000)| + 1 == 17
  {
    assert |DecText(1022)| == 4 by { assert |DecText(102)| == 3; }
    assert |DecText(126)| == 3 by { assert |DecText(12)| == 2; }
    hide HexText, DecText;
    assert Negative(Double, 0x8010_0000_0000_0000) && Exponent(Double, 0x8010_0000_0000_0000) == 1;
    assert Negative(Single, 0x8080_0000) && Exponent(Single, 0x8080_0000) == 1;
  }

  // ---------- reading ----------

  predicate IsDec(ch: char) { '0' <= ch <= '9' }
  predicate IsHex(ch: char) { IsDec(ch) || 'A' <= ch <= 'F' || 'a' <= ch <= 'f' }

  function HexDigit(ch: char): (d: nat)
    requires IsHex(ch)
    ensures d < 16
  {
    var c := ch as int;
    if c <= 57 then c - 48 else if c <= 70 then c - 55 else c - 87
  }

  predicate AllHex(s: string) { forall i :: 0 <= i < |s| ==> IsHex(s[i]) }
  predicate AllDec(s: string) { forall i :: 0 <= i < |s| ==> IsDec(s[i]) }

  function HexValue(s: string): (v: nat)
    requires AllHex(s)
  {
    if s == [] then 0 else HexValue(s[..|s| - 1]) * 16 + HexDigit(s[|s| - 1])
  }

  function DecValue(s: string): nat
    requires AllDec(s)
  {
    if s == [] then 0 else DecValue(s[..|s| - 1]) * 10 + (s[|s| - 1] as int - 48)
  }

  /** `s` without a sign in front, and whether it was a minus. */
  function Unsigned(s: string): (string, bool) {
    if s != [] && s[0] == '-' then (s[1..], true) else if s != [] && s[0] == '+' then (s[1..], false) else (s, false)
  }

  /** The shape of a number: 0x, one binary digit, a point, the hex digits, p, a sign, decimal digits. */
  predicate NumberShape(F: Format, t: string) {
    var n := F.Digits();
    && |t| >= n + 6 && t[0] == '0' && t[1] == 'x' && (t[2] == '0' || t[2] == '1') && t[3] == '.'
    && AllHex(t[4..n + 4]) && t[n + 4] == 'p' && (t[n + 5] == '+' || t[n + 5] == '-') && AllDec(t[n + 6..])
  }

  function Signed(sign: char, v: int): int { if sign == '-' then -v else v }

  function ReadNumber(F: Format, neg: bool, t: string): nat {
    if !NumberShape(F, t) then 2 * F.Half() - 1
    else
      var n := F.Digits();
      var v := Signed(t[n + 5], DecValue(t[n + 6..]));
      var e := if t[2] == '1' then v + F.Bias() else 0;
      if 0 <= e < F.Top() then Pack(F, neg, e, HexValue(t[4..n + 4]) / F.Scale()) else 2 * F.Half() - 1
  }

  /** The bit pattern of a text; all ones on error. */
  function Read(F: Format, s: string): nat {
    var (t, neg) := Unsigned(s);
    if t == "inf" then Pack(F, neg, F.Top(), 0)
    else if t == "nan" then Pack(F, neg, F.Top(), F.Size() / 2)
    else ReadNumber(F, neg, t)
  }

  /** The digits printed are 0 to 9 and a to f; those read are these and A to F. */
  lemma DigitsAre(d: nat, ch: char)
    requires d < 16
    ensures Digit(d) == "0123456789abcdef"[d]
    ensures IsHex(ch) <==> ch in "0123456789abcdefABCDEF"
    ensures IsDec(ch) <==> ch in "0123456789"
    ensures HexDigit("0123456789abcdef"[d]) == d && HexDigit("0123456789ABCDEF"[d]) == d
  {
    var s := "0123456789abcdefABCDEF";
    if IsHex(ch) {
      var c := ch as int;
      assert s[if c <= 57 then c - 48 else if c <= 70 then c - 49 else c - 87] == ch;
    }
    if IsDec(ch) { assert "0123456789"[ch as int - 48] == ch; }
  }

  // ---------- reading undoes printing ----------

  lemma DigitHex(d: nat)
    requires d < 16
    ensures IsHex(Digit(d)) && HexDigit(Digit(d)) == d
    ensures d < 10 ==> IsDec(Digit(d)) && Digit(d) as int - 48 == d
  {}

  function Pow16(n: nat): (p: nat)
    ensures p > 0
  {
    if n == 0 then 1 else 16 * Pow16(n - 1)
  }

  lemma {:induction false} HexReads(v: nat, n: nat)
    requires v < Pow16(n)
    ensures AllHex(HexText(v, n)) && HexValue(HexText(v, n)) == v
    decreases n
  {
    hide Digit, HexDigit, IsHex;
    if n > 0 {
      HexReads(v / 16, n - 1);
      DigitHex(v % 16);
      var s := HexText(v / 16, n - 1);
      assert HexText(v, n)[..n - 1] == s;
    }
  }

  lemma {:induction false} DecReads(v: nat)
    ensures AllDec(DecText(v)) && DecValue(DecText(v)) == v
  {
    hide Digit, IsDec;
    if v < 10 {
      DigitHex(v);
      assert DecText(v)[..0] == [];
      assert DecValue([]) == 0;
    } else {
      DecReads(v / 10);
      DigitHex(v % 10);
      var s := DecText(v / 10);
      assert DecText(v)[..|s|] == s;
    }
  }

  lemma SixteenPower(F: Format)
    ensures Pow16(F.Digits()) == F.Size() * F.Scale()
  {
    assert Pow16(2) == 0x100 && Pow16(4) == 0x1_0000 && Pow16(6) == 0x100_0000;
    assert Pow16(8) == 0x1_0000_0000 && Pow16(10) == 0x100_0000_0000 && Pow16(12) == 0x1_0000_0000_0000;
  }

  lemma SpecialReads(F: Format, neg: bool, nan: bool)
    ensures Read(F, Special(neg, nan)) == Pack(F, neg, F.Top(), if nan then F.Size() / 2 else 0)
  {
    hide Pack, ReadNumber;
    var s := Special(neg, nan);
    assert s[1..] == if nan then "nan" else "inf";
  }

  /** The pieces of a printed number are where the reader looks for them. */
  lemma NumberPieces(F: Format, lead: nat, frac: nat, e: int)
    requires lead < 2
    ensures var t, n := NumberText(F, lead, frac, e), F.Digits();
            && |t| >= n + 7 && t[0] == '0' && t[1] == 'x' && t[2] == Digit(lead) && t[3] == '.'
            && t[4..n + 4] == HexText(frac, n) && t[n + 4] == 'p' && t[n + 5] == (if e < 0 then '-' else '+')
            && t[n + 6..] == DecText(Abs(e))
  {
    hide HexText, DecText, Digit;
    var h, d, n := HexText(frac, F.Digits()), DecText(Abs(e)), F.Digits();
    var head := "0x" + [Digit(lead)] + ".";
    assert NumberText(F, lead, frac, e) == head + h + ExpText(e);
    assert ExpText(e)[2..] == d;
  }

  lemma NumberReads(F: Format, neg: bool, lead: nat, frac: nat, e: int)
    requires lead < 2 && frac < F.Size() * F.Scale()
    requires var x := if lead == 1 then e + F.Bias() else 0; 0 <= x < F.Top()
    ensures ReadNumber(F, neg, NumberText(F, lead, frac, e)) ==
            Pack(F, neg, if lead == 1 then e + F.Bias() else 0, frac / F.Scale())
  {
    hide HexText, DecText, HexValue, DecValue, IsHex, IsDec, Pack, NumberText, Pow16;
    NumberPieces(F, lead, frac, e);
    SixteenPower(F);
    HexReads(frac, F.Digits());
    DecReads(Abs(e));
  }

  lemma SignReads(F: Format, neg: bool, lead: nat, frac: nat, e: int)
    requires lead < 2
    ensures var t := NumberText(F, lead, frac, e);
            Read(F, (if neg then "-" else "") + t) == ReadNumber(F, neg, t)
  {
    hide ReadNumber, HexText, DecText;
    var t := NumberText(F, lead, frac, e);
    NumberPieces(F, lead, frac, e);
    hide NumberText;
    var s := (if neg then "-" else "") + t;
    if neg { assert s[1..] == t; } else { assert s == t; }
  }

  lemma ScaledBack(F: Format, m: nat)
    requires m < F.Size()
    ensures m * F.Scale() / F.Scale() == m && m * F.Scale() < F.Size() * F.Scale()
  {}

  /** Reading the printed text of any pattern gives the pattern back, or the canonical NaN of its sign. */
  lemma ReadsBack(F: Format, u: nat)
    requires Pattern(F, u)
    ensures Read(F, Text(F, u)) == Canonical(F, u)
  {
    hide Read, ReadNumber, NumberText, Pack, Special, Negative, Exponent, Fraction;
    PackFields(F, u);
    var neg, e, m := Negative(F, u), Exponent(F, u), Fraction(F, u);
    if e == F.Top() {
      SpecialReads(F, neg, m != 0);
    } else {
      var lead := if e == 0 then 0 else 1;
      ScaledBack(F, m);
      SignReads(F, neg, lead, m * F.Scale(), Shown(F, u));
      NumberReads(F, neg, lead, m * F.Scale(), Shown(F, u));
    }
  }

  // ---------- the text says the exact number ----------

  function Power2(e: int): real
    decreases Abs(e)
  {
    if e == 0 then 1.0 else if e > 0 then 2.0 * Power2(e - 1) else Power2(e + 1) / 2.0
  }

  /** Powers of two in both directions. */
  lemma PowersAre(e: int)
    ensures Power2(0) == 1.0 && Power2(e + 1) == 2.0 * Power2(e)
  {}

  /** A sign, a leading digit with a fraction, and an exponent. */
  function Scaled(neg: bool, lead: nat, x: real, e: int): real {
    (if neg then -1.0 else 1.0) * (lead as real + x) * Power2(e)
  }

  /** The number of a finite pattern with exponent field `e` and fraction `x`: normal or subnormal. */
  function FieldNumber(neg: bool, e: nat, x: real, bias: nat): real {
    (if neg then -1.0 else 1.0) * (if e == 0 then x * Power2(1 - bias) else (1.0 + x) * Power2(e - bias))
  }

  /** The number that a finite pattern stands for. */
  function NumberOf(F: Format, u: nat): real {
    FieldNumber(Negative(F, u), Exponent(F, u), Fraction(F, u) as real / F.Size() as real, F.Bias())
  }

  /** In numbers: a sign bit, 11 or 8 bits of exponent with bias 1023 or 127, 52 or 23 bits of fraction. */
  lemma NumberIs(u: nat)
    ensures Pattern(Double, u) <==> u < 0x1_0000_0000_0000_0000
    ensures Pattern(Single, u) <==> u < 0x1_0000_0000
    ensures NumberOf(Double, u) == FieldNumber(u / 0x8000_0000_0000_0000 % 2 == 1, u / 0x10_0000_0000_0000 % 2048,
                                               (u % 0x10_0000_0000_0000) as real / 4503599627370496.0, 1023)
    ensures NumberOf(Single, u) == FieldNumber(u / 0x8000_0000 % 2 == 1, u / 0x80_0000 % 256, (u % 0x80_0000) as real / 8388608.0, 127)
    ensures Double.Top() == 2047 && Single.Top() == 255
  {}

  /** The number that hexadecimal text stands for: the digits in base 16, times a power of two. */
  function TextNumber(F: Format, neg: bool, t: string): real
    requires NumberShape(F, t)
  {
    var n := F.Digits();
    Scaled(neg, t[2] as int - 48, HexValue(t[4..n + 4]) as real / Pow16(n) as real, Signed(t[n + 5], DecValue(t[n + 6..])))
  }

  lemma NumberShaped(F: Format, lead: nat, frac: nat, e: int)
    requires lead < 2 && frac < F.Size() * F.Scale()
    ensures var t, n := NumberText(F, lead, frac, e), F.Digits();
            && NumberShape(F, t) && t[2] as int - 48 == lead && HexValue(t[4..n + 4]) == frac
            && Signed(t[n + 5], DecValue(t[n + 6..])) == e
  {
    hide HexText, DecText, HexValue, DecValue, IsHex, IsDec, NumberText, Pow16;
    NumberPieces(F, lead, frac, e);
    SixteenPower(F);
    HexReads(frac, F.Digits());
    DecReads(Abs(e));
  }

  lemma SameRatio(F: Format, m: nat)
    ensures Pow16(F.Digits()) as real > 0.0
    ensures (m * F.Scale()) as real / Pow16(F.Digits()) as real == m as real / F.Size() as real
  {
    SixteenPower(F);
    hide Pow16;
  }

  /** The value of the fields, as printed. */
  lemma FieldsValue(neg: bool, e: nat, zero: bool, x: real, bias: nat)
    requires zero <==> x == 0.0
    ensures var shown := if e == 0 then (if zero then 0 else 1 - bias) else e - bias;
            Scaled(neg, if e == 0 then 0 else 1, x, shown) == FieldNumber(neg, e, x, bias)
  {
    hide Power2;
    var s := if neg then -1.0 else 1.0;
    if e == 0 {
      assert 0 as real + x == x;
      if zero { ZeroTimes(x, Power2(0), Power2(1 - bias), s); } else { Regroup(s, x, Power2(1 - bias)); }
    } else {
      Regroup(s, 1.0 + x, Power2(e - bias));
    }
  }

  lemma Regroup(s: real, x: real, p: real)
    ensures s * x * p == s * (x * p)
  {}

  lemma ZeroTimes(x: real, p: real, q: real, s: real)
    requires x == 0.0
    ensures s * x * p == 0.0 && s * (x * q) == 0.0
  {}

  lemma ZeroRatio(m: nat, n: nat)
    requires n > 0
    ensures m == 0 <==> m as real / n as real == 0.0
  {}

  /** The printed text of a finite number denotes exactly that number. */
  lemma TextIsExact(F: Format, u: nat)
    requires Pattern(F, u) && Exponent(F, u) != F.Top()
    ensures var t := NumberText(F, if Exponent(F, u) == 0 then 0 else 1, Fraction(F, u) * F.Scale(), Shown(F, u));
            && Text(F, u) == (if Negative(F, u) then "-" else "") + t
            && NumberShape(F, t) && TextNumber(F, Negative(F, u), t) == NumberOf(F, u)
  {
    hide NumberText, Negative, Exponent, Fraction, NumberShape, Pow16, HexValue, DecValue, Scaled, FieldNumber;
    var lead, m := if Exponent(F, u) == 0 then 0 else 1, Fraction(F, u);
    ScaledBack(F, m);
    NumberShaped(F, lead, m * F.Scale(), Shown(F, u));
    SameRatio(F, m);
    ZeroRatio(m, F.Size());
    FieldsValue(Negative(F, u), Exponent(F, u), m == 0, m as real / F.Size() as real, F.Bias());
  }

  // ---------- what other texts are read as ----------

  lemma PackedFields(F: Format, neg: bool, e: nat, m: nat)
    requires e <= F.Top() && m < F.Size()
    ensures var u := Pack(F, neg, e, m); Pattern(F, u) && Negative(F, u) == neg && Exponent(F, u) == e && Fraction(F, u) == m
  {
    var k := F.Top() + 1;
    var u, s := Pack(F, neg, e, m), if neg then 1 else 0;
    assert F.Half() == k * F.Size();
    assert u == (s * k + e) * F.Size() + m;
    Split(s * k + e, F.Size(), m);
    Split(s, k, e);
    assert u / F.Half() == s by { assert u == s * F.Half() + (e * F.Size() + m); Split(s, F.Half(), e * F.Size() + m); }
  }

  lemma Split(q: nat, b: nat, r: nat)
    requires r < b
    ensures (q * b + r) / b == q && (q * b + r) % b == r
  {
    var x := q * b + r;
    assert x == b * (x / b) + x % b;
    var d := x / b - q;
    assert b * d == r - x % b;
    Times(b, d);
  }

  lemma Times(b: nat, d: int)
    ensures (d >= 1 ==> b * d >= b) && (d <= -1 ==> b * d <= 0 - b)
  {}

  lemma {:induction false} PowerPositive(e: int)
    ensures Power2(e) > 0.0
    decreases Abs(e)
  {
    if e > 0 { PowerPositive(e - 1); } else if e < 0 { PowerPositive(e + 1); }
  }

  lemma {:induction false} PowerBelow(e: int, f: int)
    requires e < f
    ensures 2.0 * Power2(e) <= Power2(f)
    decreases f - e
  {
    PowersAre(f - 1);
    if e < f - 1 {
      PowerBelow(e, f - 1);
      PowerPositive(f - 1);
    }
    hide Power2;
  }

  /** The exponent that a text spells, and its fraction as a whole number. */
  function TextExponent(F: Format, t: string): int
    requires NumberShape(F, t)
  {
    Signed(t[F.Digits() + 5], DecValue(t[F.Digits() + 6..]))
  }

  function TextFraction(F: Format, t: string): nat
    requires NumberShape(F, t)
  {
    HexValue(t[4..F.Digits() + 4])
  }

  ghost predicate Spelled(F: Format, t: string, lead: char, h: string, sign: char, d: string) {
    && |h| == (if F.Double? then 13 else 6) && lead in "01" && sign in "+-" && AllHex(h) && AllDec(d)
    && t == "0x" + [lead] + "." + h + "p" + [sign] + d
  }

  /** The shape of a number, put together; there may be no exponent digits. */
  lemma ShapeIff(F: Format, t: string)
    ensures NumberShape(F, t) <==> exists lead, h, sign, d :: Spelled(F, t, lead, h, sign, d)
  {
    hide IsHex, IsDec;
    var n := F.Digits();
    if NumberShape(F, t) {
      var h, d := t[4..n + 4], t[n + 6..];
      assert t == "0x" + [t[2]] + "." + h + "p" + [t[n + 5]] + d;
      assert t[2] == "01"[if t[2] == '0' then 0 else 1] && t[n + 5] == "+-"[if t[n + 5] == '+' then 0 else 1];
      assert Spelled(F, t, t[2], h, t[n + 5], d);
    }
    if lead, h, sign, d :| Spelled(F, t, lead, h, sign, d) {
      assert t[4..n + 4] == h && t[n + 6..] == d;
    }
  }

  function AllOnes(F: Format): nat { if F.Double? then 0xFFFF_FFFF_FFFF_FFFF else 0xFFFF_FFFF }

  /** Refused is what has not the shape of a number, and what leads with 1 and has no exponent field below the top one. */
  lemma RefusedIff(F: Format, neg: bool, t: string)
    ensures ReadNumber(F, neg, t) == AllOnes(F) <==>
            !NumberShape(F, t) || (t[2] == '1' && !(0 <= TextExponent(F, t) + F.Bias() < F.Top()))
  {
    hide HexValue, DecValue, Signed, Pack, Pow16, Exponent;
    if NumberShape(F, t) && (t[2] == '1' ==> 0 <= TextExponent(F, t) + F.Bias() < F.Top()) {
      FractionFits(F, t);
      PackedFields(F, neg, if t[2] == '1' then TextExponent(F, t) + F.Bias() else 0, TextFraction(F, t) / F.Scale());
      TopExponent();
    }
  }

  lemma TopExponent()
    ensures Exponent(Double, 0xFFFF_FFFF_FFFF_FFFF) == 2047 && Exponent(Single, 0xFFFF_FFFF) == 255
  {}

  lemma FractionFits(F: Format, t: string)
    requires NumberShape(F, t)
    ensures TextFraction(F, t) < F.Size() * F.Scale() == Pow16(F.Digits()) && TextFraction(F, t) / F.Scale() < F.Size()
  {
    SixteenPower(F);
    HexBelow(t[4..F.Digits() + 4]);
    hide NumberShape;
  }

  lemma {:induction false} HexBelow(s: string)
    requires AllHex(s)
    ensures HexValue(s) < Pow16(|s|)
  {
    if s != [] { HexBelow(s[..|s| - 1]); }
  }

  /** Texts that a pattern can stand for as the reader takes them: no digit is lost, and the exponent is one that is read. */
  predicate Representable(F: Format, t: string)
    requires NumberShape(F, t)
  {
    && TextFraction(F, t) % F.Scale() == 0
    && if t[2] == '1' then TextExponent(F, t) + F.Bias() > 0
       else TextFraction(F, t) == 0 || TextExponent(F, t) == 1 - F.Bias()
  }

  /** Two products with powers of two, the factor of one rounded down to an even number. */
  lemma SubnormalsEqual(a: nat, b: nat, p: real, q: real)
    requires p > 0.0 && q > 0.0 && (p == q || 2.0 * p <= q || 2.0 * q <= p)
    requires b == a || (b == a - 1 && a % 2 == 1)
    ensures a as real * p == b as real * q <==> a == b && (a == 0 || p == q)
  {
    if a == b {
      SameFactor(a as real, p, q);
    } else if 2.0 * p <= q {
      LowApart(a, b, p, 2.0 * p, q);
    } else {
      HighApart(a, b, p, q);
    }
  }

  lemma SameFactor(a: real, p: real, q: real)
    ensures a * p == a * q <==> a == 0.0 || p == q
  {
    assert a * (p - q) == a * p - a * q;
  }

  lemma HighApart(a: nat, b: nat, p: real, q: real)
    requires b == a - 1 && p > 0.0 && q <= p
    ensures a as real * p != b as real * q
  {
    Larger(b as real, q, p);
    assert a as real * p == b as real * p + p;
  }

  lemma LowApart(a: nat, b: nat, p: real, r: real, q: real)
    requires b == a - 1 && a % 2 == 1 && p > 0.0 && r == 2.0 * p && r <= q
    ensures a as real * p != b as real * q
  {
    if a == 1 {
      assert b as real * q == 0.0;
    } else {
      Doubled(a, b, p, r);
      Larger(b as real, r, q);
    }
  }

  lemma Doubled(a: nat, b: nat, p: real, r: real)
    requires b == a - 1 && a > 2 && p > 0.0 && r == 2.0 * p
    ensures a as real * p < b as real * r
  {
    var d := a - 2;
    assert b as real * r == a as real * p + d as real * p;
    Larger(p, 1.0, d as real);
  }

  lemma Larger(x: real, p: real, q: real)
    requires x >= 0.0 && p <= q
    ensures x * p <= x * q
  {}

  lemma NormalsEqual(a: nat, b: nat, D: real, s: real, p: real)
    requires D > 0.0 && p > 0.0 && (s == 1.0 || s == -1.0)
    ensures s * (1.0 + a as real / D) * p == s * ((1.0 + b as real / D) * p) <==> a == b
  {}

  lemma QuotientsEqual(a: nat, b: nat, D: real, s: real, p: real, q: real)
    requires D > 0.0 && (s == 1.0 || s == -1.0)
    ensures s * (0.0 + a as real / D) * p == s * (b as real / D * q) <==> a as real * p == b as real * q
  {
    var x, y := a as real / D, b as real / D;
    assert a as real == x * D && b as real == y * D;
    Scales(x * p, y * q, D);
    assert x * p * D == x * D * p && y * q * D == y * D * q;
  }

  lemma Scales(x: real, y: real, d: real)
    requires d != 0.0
    ensures x * d == y * d <==> x == y
  {}

  lemma HalfAway(a: nat, b: nat, D: real, s: real, p: real)
    requires a as real < D && b <= a && p > 0.0 && (s == 1.0 || s == -1.0)
    ensures s * (1.0 + a as real / D) * p != s * (b as real / D * (2.0 * p))
  {
    var x, y := a as real / D, b as real / D;
    assert x < 1.0 && y <= x by { assert a as real == x * D && b as real == y * D; }
    Larger(p, 2.0 * y, 2.0 * x);
    assert (1.0 + x) * p - 2.0 * y * p == (1.0 + x - 2.0 * y) * p;
    assert (1.0 + x - 2.0 * y) * p > 0.0;
    assert y * (2.0 * p) == 2.0 * y * p;
  }

  lemma Dropped(F: Format, h: nat)
    ensures var b := h / F.Scale() * F.Scale(); b <= h && (h % F.Scale() == 0 <==> b == h) && (b == h || (b == h - 1 && h % 2 == 1))
  {}

  /** In which fields, `b` a rounded `h`, the number is that of a leading digit, a fraction and an exponent `v`. */
  lemma FieldsEqual(neg: bool, one: bool, h: nat, b: nat, D: real, v: int, e: nat, bias: nat)
    requires h as real < D && (b == h || (b == h - 1 && h % 2 == 1)) && (e as int == if one then v + bias else 0)
    ensures FieldNumber(neg, e, b as real / D, bias) == Scaled(neg, if one then 1 else 0, h as real / D, v) <==>
            b == h && if one then e > 0 else h == 0 || v == 1 - bias
  {
    hide Power2, Scaled, FieldNumber;
    if e > 0 {
      NormalFields(neg, h, b, D, v, e, bias);
    } else if one {
      RaisedFields(neg, h, b, D, v, bias);
    } else {
      SubnormalFields(neg, h, b, D, v, bias);
    }
  }

  lemma NormalFields(neg: bool, h: nat, b: nat, D: real, v: int, e: nat, bias: nat)
    requires D > 0.0 && e > 0 && e == v + bias
    ensures FieldNumber(neg, e, b as real / D, bias) == Scaled(neg, 1, h as real / D, v) <==> b == h
  {
    hide Power2;
    PowerPositive(v);
    NormalsEqual(h, b, D, if neg then -1.0 else 1.0, Power2(v));
  }

  lemma RaisedFields(neg: bool, h: nat, b: nat, D: real, v: int, bias: nat)
    requires h as real < D && b <= h && v + bias == 0
    ensures FieldNumber(neg, 0, b as real / D, bias) != Scaled(neg, 1, h as real / D, v)
  {
    PowerPositive(v);
    PowersAre(v);
    HalfAway(h, b, D, if neg then -1.0 else 1.0, Power2(v));
    hide Power2;
  }

  lemma SubnormalFields(neg: bool, h: nat, b: nat, D: real, v: int, bias: nat)
    requires D > 0.0 && (b == h || (b == h - 1 && h % 2 == 1))
    ensures FieldNumber(neg, 0, b as real / D, bias) == Scaled(neg, 0, h as real / D, v) <==> b == h && (h == 0 || v == 1 - bias)
  {
    var w := 1 - bias;
    hide Power2;
    PowerPositive(v);
    PowerPositive(w);
    QuotientsEqual(h, b, D, if neg then -1.0 else 1.0, Power2(v), Power2(w));
    if v < w { PowerBelow(v, w); } else if w < v { PowerBelow(w, v); }
    SubnormalsEqual(h, b, Power2(v), Power2(w));
  }

  lemma NumbersAre(F: Format, neg: bool, t: string, e: nat)
    requires NumberShape(F, t) && e < F.Top()
    ensures var h, D := TextFraction(F, t), (F.Size() * F.Scale()) as real;
            && h as real < D && h / F.Scale() < F.Size()
            && TextNumber(F, neg, t) == Scaled(neg, if t[2] == '1' then 1 else 0, h as real / D, TextExponent(F, t))
            && Pattern(F, Pack(F, neg, e, h / F.Scale())) && Exponent(F, Pack(F, neg, e, h / F.Scale())) == e
            && NumberOf(F, Pack(F, neg, e, h / F.Scale())) == FieldNumber(neg, e, (h / F.Scale() * F.Scale()) as real / D, F.Bias())
  {
    hide Pack, Exponent, Negative, Fraction, FieldNumber, Scaled, HexValue, DecValue, Pow16, IsHex, IsDec;
    FractionFits(F, t);
    PackedFields(F, neg, e, TextFraction(F, t) / F.Scale());
    SameRatio(F, TextFraction(F, t) / F.Scale());
  }

  /** Exactly which texts with the shape of a number, if not refused, are read as the number they denote. */
  lemma ReadsExactly(F: Format, neg: bool, t: string)
    requires NumberShape(F, t) && ReadNumber(F, neg, t) != AllOnes(F)
    ensures var u := ReadNumber(F, neg, t);
            && Pattern(F, u) && Exponent(F, u) != F.Top()
            && (NumberOf(F, u) == TextNumber(F, neg, t) <==> Representable(F, t))
  {
    RefusedIff(F, neg, t);
    hide Pack, Exponent, Negative, Fraction, HexValue, DecValue, Pow16, FieldNumber, Scaled, NumberOf, TextNumber, IsHex, IsDec;
    var h := TextFraction(F, t);
    var e := if t[2] == '1' then TextExponent(F, t) + F.Bias() else 0;
    NumbersAre(F, neg, t, e);
    Dropped(F, h);
    FieldsEqual(neg, t[2] == '1', h, h / F.Scale() * F.Scale(), (F.Size() * F.Scale()) as real, TextExponent(F, t), e, F.Bias());
  }

  /** A text read as another number: after a leading 0 any exponent is taken for the least. */
  lemma Misread()
    ensures var t := "0x0.0000000000008p+0";
            && NumberShape(Double, t) && ReadNumber(Double, false, t) != AllOnes(Double)
            && NumberOf(Double, ReadNumber(Double, false, t)) != TextNumber(Double, false, t)
  {
    hide HexValue, DecValue, ReadNumber, NumberOf, TextNumber;
    var t := "0x0.0000000000008p+0";
    assert t[4..17] == "0000000000008" && t[19..] == "0";
    LastDigit("0000000000008");
    NoValue();
    RefusedIff(Double, false, t);
    ReadsExactly(Double, false, t);
  }

  lemma LastDigit(s: string)
    requires AllHex(s) && s != [] && HexDigit(s[|s| - 1]) != 0
    ensures HexValue(s) != 0
  {}

  lemma NoValue()
    ensures DecValue("0") == 0
  {}

  // ---------- printing into a buffer ----------

  function Reversed(s: string): (r: string)
    ensures |r| == |s|
  {
    if s == [] then [] else Reversed(s[1..]) + [s[0]]
  }

  lemma {:induction false} ReversedAt(s: string, k: nat)
    requires k < |s|
    ensures Reversed(s)[k] == s[|s| - 1 - k]
  {
    if k < |s| - 1 { ReversedAt(s[1..], k); }
  }

  /** `buf[i++] = ch`, where `buf` holds the end `T` of the text backwards. */
  method Put(buf: array<char>, i: nat, ch: char, ghost T: string)
    requires i < buf.Length && buf[..i] == Reversed(T)
    modifies buf
    ensures buf[..i + 1] == Reversed([ch] + T)
  {
    ghost var was := buf[..i];
    buf[i] := ch;
    assert buf[..i + 1] == was + [ch];
    assert ([ch] + T)[1..] == T;
  }

  method PutDec(buf: array<char>, i0: nat, val0: nat, ghost T: string) returns (i: nat)
    requires i0 + |DecText(val0)| <= buf.Length && buf[..i0] == Reversed(T)
    modifies buf
    ensures i == i0 + |DecText(val0)| && buf[..i] == Reversed(DecText(val0) + T)
  {
    hide Digit, Reversed;
    i := i0;
    var val := val0;
    ghost var S := T;
    while val >= 10
      invariant buf.Length >= i + |DecText(val)| == i0 + |DecText(val0)| && buf[..i] == Reversed(S)
      invariant DecText(val0) + T == DecText(val) + S
      decreases val
    {
      Put(buf, i, Digit(val % 10), S);
      assert DecText(val) + S == DecText(val / 10) + ([Digit(val % 10)] + S);
      S := [Digit(val % 10)] + S;
      i, val := i + 1, val / 10;
    }
    Put(buf, i, Digit(val % 10), S);
    i := i + 1;
  }

  method PutHex(buf: array<char>, i0: nat, mant0: nat, n: nat, ghost T: string) returns (i: nat)
    requires i0 + n <= buf.Length && buf[..i0] == Reversed(T)
    modifies buf
    ensures i == i0 + n && buf[..i] == Reversed(HexText(mant0, n) + T)
  {
    hide Digit, Reversed;
    i := i0;
    var mant, mdigs := mant0, n;
    ghost var S := T;
    while mdigs > 0
      invariant 0 <= mdigs <= n && i == i0 + n - mdigs && buf[..i] == Reversed(S)
      invariant HexText(mant0, n) + T == HexText(mant, mdigs) + S
      decreases mdigs
    {
      Put(buf, i, Digit(mant % 16), S);
      assert HexText(mant, mdigs) + S == HexText(mant / 16, mdigs - 1) + ([Digit(mant % 16)] + S);
      S := [Digit(mant % 16)] + S;
      i, mant, mdigs := i + 1, mant / 16, mdigs - 1;
    }
    assert HexText(mant, 0) + S == S;
  }

  method Turn(buf: array<char>, n: nat, ghost T: string)
    requires 0 < n <= buf.Length && buf[..n] == Reversed(T)
    modifies buf
    ensures buf[..n] == T && forall k :: n <= k < buf.Length ==> buf[k] == old(buf[k])
  {
    hide Reversed;
    ghost var was := buf[..n];
    var j, i := 0, n - 1;
    while j < i
      invariant 0 <= j <= i + 1 <= n && i + j == n - 1
      invariant forall k :: 0 <= k < j ==> buf[k] == was[n - 1 - k] && buf[n - 1 - k] == was[k]
      invariant forall k :: j <= k <= i ==> buf[k] == was[k]
      invariant forall k :: n <= k < buf.Length ==> buf[k] == old(buf[k])
    {
      buf[j], buf[i] := buf[i], buf[j];
      j, i := j + 1, i - 1;
    }
    forall k | 0 <= k < n
      ensures buf[k] == T[k]
    {
      assert buf[k] == was[n - 1 - k];
      ReversedAt(T, n - 1 - k);
    }
  }

  /** The buffer holds `s` and a final zero. */
  ghost predicate HoldsText(buf: array<char>, s: string)
    reads buf
  {
    |s| < buf.Length && buf[..|s|] == s && buf[|s|] == '\0'
  }

  method StrCpy(buf: array<char>, s: string)
    requires |s| < buf.Length
    modifies buf
    ensures HoldsText(buf, s)
  {
    var k := 0;
    while k < |s|
      invariant 0 <= k <= |s| && buf[..k] == s[..k]
    {
      buf[k] := s[k];
      k := k + 1;
    }
    buf[k] := '\0';
  }

  /** `udtohex` and `uftohex`. */
  method ToHex(F: Format, u: nat, buf: array<char>)
    requires Pattern(F, u) && buf.Length >= 32
    modifies buf
    ensures HoldsText(buf, Text(F, u))
  {
    hide Negative, Exponent, Fraction, DecText, HexText, Reversed, HoldsText, NumberText;
    var dneg, exp2, mant := Negative(F, u), Exponent(F, u), Fraction(F, u);
    if exp2 == F.Top() {
      StrCpy(buf, Special(dneg, mant != 0));
    } else {
      var val := if exp2 == 0 then (if mant == 0 then 0 else 1 - F.Bias()) else exp2 - F.Bias();
      WriteNumber(F, dneg, if exp2 == 0 then 0 else 1, mant * F.Scale(), val, buf);
    }
  }

  method WriteNumber(F: Format, neg: bool, lead: nat, frac: nat, e: int, buf: array<char>)
    requires lead < 2 && Abs(e) < 10000 && buf.Length >= 32
    modifies buf
    ensures HoldsText(buf, (if neg then "-" else "") + NumberText(F, lead, frac, e))
  {
    hide Digit, HexText, Reversed, NumberText;
    assert buf[..0] == Reversed([]) by { NoText(); }
    var n := |DecText(Abs(e))|;
    var i := PutDec(buf, 0, Abs(e), "");
    hide DecText;
    ghost var T := DecText(Abs(e)) + "";
    Put(buf, i, if e < 0 then '-' else '+', T);
    Put(buf, i + 1, 'p', [if e < 0 then '-' else '+'] + T);
    T := ['p'] + ([if e < 0 then '-' else '+'] + T);
    assert T == ExpText(e);
    i := PutHex(buf, i + 2, frac, F.Digits(), T);
    WriteHead(F, neg, lead, frac, e, buf, i);
  }

  lemma NoText()
    ensures Reversed([]) == []
  {}

  method WriteHead(F: Format, neg: bool, lead: nat, frac: nat, e: int, buf: array<char>, i0: nat)
    requires lead < 2 && i0 + 6 <= buf.Length && buf[..i0] == Reversed(HexText(frac, F.Digits()) + ExpText(e))
    modifies buf
    ensures HoldsText(buf, (if neg then "-" else "") + NumberText(F, lead, frac, e))
  {
    hide Digit, HexText, Reversed, ExpText;
    ghost var T := HexText(frac, F.Digits()) + ExpText(e);
    var i := i0;
    Put(buf, i, '.', T);
    Put(buf, i + 1, Digit(lead), ['.'] + T);
    Put(buf, i + 2, 'x', [Digit(lead)] + (['.'] + T));
    Put(buf, i + 3, '0', ['x'] + ([Digit(lead)] + (['.'] + T)));
    T := ['0'] + (['x'] + ([Digit(lead)] + (['.'] + T)));
    assert T == NumberText(F, lead, frac, e);
    i := i + 4;
    if neg {
      Put(buf, i, '-', T);
      i, T := i + 1, ['-'] + T;
    }
    Finish(buf, i, T);
    assert T == (if neg then "-" else "") + NumberText(F, lead, frac, e);
  }

  method Finish(buf: array<char>, i: nat, ghost T: string)
    requires 0 < i < buf.Length && buf[..i] == Reversed(T)
    modifies buf
    ensures HoldsText(buf, T)
  {
    buf[i] := '\0';
    Turn(buf, i, T);
  }

  // ---------- reading ----------

  /** `n` hexadecimal digits from `i0` on; none on anything else. */
  method GetHex(s: string, i0: nat, n: nat) returns (ok: bool, mant: nat)
    ensures ok <==> i0 + n <= |s| && AllHex(s[i0..i0 + n])
    ensures ok ==> mant == HexValue(s[i0..i0 + n])
  {
    hide IsHex, HexDigit;
    mant := 0;
    var i, mdigs := i0, n;
    if i0 > |s| { return false, 0; }
    assert s[i0..i0] == [];
    while mdigs > 0
      invariant 0 <= mdigs <= n && i == i0 + n - mdigs && i <= |s|
      invariant AllHex(s[i0..i]) && mant == HexValue(s[i0..i])
      decreases mdigs
    {
      if i == |s| || !IsHex(s[i]) {
        if i0 + n <= |s| { assert s[i0..i0 + n][i - i0] == s[i]; }
        return false, 0;
      }
      assert s[i0..i + 1][..i - i0] == s[i0..i];
      assert s[i0..i + 1] == s[i0..i] + [s[i]] && IsHex(s[i]);
      mant := mant * 16 + HexDigit(s[i]);
      i, mdigs := i + 1, mdigs - 1;
    }
    ok := true;
  }

  /** The decimal digits from `i0` to the end. */
  method GetDec(s: string, i0: nat) returns (ok: bool, val: nat)
    requires i0 <= |s|
    ensures ok <==> AllDec(s[i0..])
    ensures ok ==> val == DecValue(s[i0..])
  {
    hide IsDec;
    val := 0;
    var i := i0;
    assert s[i0..i0] == [];
    while i < |s|
      invariant i0 <= i <= |s| && AllDec(s[i0..i]) && val == DecValue(s[i0..i])
    {
      if !IsDec(s[i]) {
        assert s[i0..][i - i0] == s[i];
        return false, 0;
      }
      assert s[i0..i + 1][..i - i0] == s[i0..i];
      assert IsDec(s[i]);
      val := val * 10 + DecDigit(s[i]);
      i := i + 1;
    }
    assert s[i0..i] == s[i0..];
    ok := true;
  }

  function DecDigit(ch: char): (d: nat)
    requires IsDec(ch)
    ensures d == ch as int - 48
  {
    ch as int - 48
  }

  /** `hextoud` and `hextouf`. */
  method FromHex(F: Format, s: string) returns (r: nat)
    ensures r == Read(F, s)
  {
    hide ReadNumber, Pack;
    var t, dneg := s, false;
    if t != [] && t[0] == '-' { t, dneg := t[1..], true; }
    else if t != [] && t[0] == '+' { t := t[1..]; }
    if t == "inf" { return Pack(F, dneg, F.Top(), 0); }
    if t == "nan" { return Pack(F, dneg, F.Top(), F.Size() / 2); }
    r := FromNumber(F, dneg, t);
  }

  method FromNumber(F: Format, dneg: bool, t: string) returns (r: nat)
    ensures r == ReadNumber(F, dneg, t)
  {
    hide AllHex, AllDec, HexValue, DecValue, Pack;
    var err, n := 2 * F.Half() - 1, F.Digits();
    if |t| == 0 || t[0] != '0' { return err; }
    if |t| == 1 || t[1] != 'x' { return err; }
    if |t| == 2 || (t[2] != '0' && t[2] != '1') { return err; }
    var ldig := t[2] as int - 48;
    if |t| == 3 || t[3] != '.' { return err; }
    var ok, mant := GetHex(t, 4, n);
    if !ok { return err; }
    if |t| == n + 4 || t[n + 4] != 'p' { return err; }
    if |t| == n + 5 || (t[n + 5] != '+' && t[n + 5] != '-') { return err; }
    var vneg := t[n + 5] == '-';
    var good, val := GetDec(t, n + 6);
    if !good { return err; }
    var v: int := if vneg then -(val as int) else val;
    var exp2 := if ldig == 1 then v + F.Bias() else 0;
    if 0 <= exp2 <= F.Top() - 1 { return Pack(F, dneg, exp2, mant / F.Scale()); }
    r := err;
  }
}
