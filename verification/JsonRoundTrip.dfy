/**
 * What the printer of src/core/gojson.ts writes, the reference reader reads: parsing `goMarshal(v)` gives v with each
 * lone surrogate replaced by U+FFFD and each plain object's entries in key order.
 */
module JsonRoundTrip {
  import opened Basics
  import opened JsonText
  import opened GoJson
  import opened JsonReader

  lemma {:induction false} AtParts(s: Text, i: nat, t: Text, u: Text)
    requires At(s, i, t + u)
    ensures At(s, i, t) && At(s, i + |t|, u)
    decreases |t|
  {
    if |t| == 0 {
      assert t + u == u;
    } else {
      assert (t + u)[1..] == t[1..] + u;
      AtParts(s, i + 1, t[1..], u);
    }
  }

  lemma {:induction false} AtIndex(s: Text, i: nat, t: Text, k: nat)
    requires At(s, i, t) && k < |t|
    ensures s[i + k] == t[k]
    decreases k
  {
    if k > 0 { AtIndex(s, i + 1, t[1..], k - 1); }
  }

  lemma {:induction false} AtRest(s: Text, i: nat)
    requires i <= |s|
    ensures At(s, i, s[i..])
    decreases |s| - i
  {
    if i < |s| {
      assert s[i..][1..] == s[i + 1..];
      AtRest(s, i + 1);
    }
  }

  // ---- Strings ----

  function BeforeAll(p: Text, rest: TextRead): TextRead {
    if rest.NoText? then NoText else GotText(rest.end, p + rest.s)
  }

  lemma HexReadsBack(d: nat)
    requires d < 16
    ensures HexValue(HexDigit(d)) == d
  {
  }

  lemma OneUnit(t: Text, i: nat, c: Code)
    requires i < |t| && t[i] == c && c >= 0x20 && c != QUOTE && c != BACKSLASH
    ensures ReadUnit(t, i) == Unit(1, c)
  {
  }

  lemma EscapeUnit(t: Text, i: nat, e: Text)
    requires |e| == 2 && At(t, i, e) && e[0] == BACKSLASH && e[1] != LETTER_U
    ensures i + 1 < |t| && t[i] == BACKSLASH && t[i + 1] == e[1] && ReadUnit(t, i) == ReadEscape(t, i + 1)
  {
    AtIndex(t, i, e, 0);
    AtIndex(t, i, e, 1);
  }

  lemma HexUnit(t: Text, i: nat, e: Text, a: nat, b: nat, c: nat, d: nat)
    requires a < 16 && b < 16 && c < 16 && d < 16 && At(t, i, e)
    requires e == [BACKSLASH, LETTER_U, HexDigit(a), HexDigit(b), HexDigit(c), HexDigit(d)]
    ensures i < |t| && t[i] == BACKSLASH && ReadUnit(t, i) == Unit(6, ((a * 16 + b) * 16 + c) * 16 + d)
  {
    AtIndex(t, i, e, 0);
    AtIndex(t, i, e, 1);
    AtIndex(t, i, e, 2);
    AtIndex(t, i, e, 3);
    AtIndex(t, i, e, 4);
    AtIndex(t, i, e, 5);
    HexReadsBack(a);
    HexReadsBack(b);
    HexReadsBack(c);
    HexReadsBack(d);
  }

  /** A character below U+0080 is read back as one unit. */
  lemma AsciiReadsBack(t: Text, i: nat, s: Text, k: nat, html: bool)
    requires k < |s| && s[k] < 0x80 && At(t, i, Escaped(s, k, html))
    ensures i < |t| && t[i] != QUOTE && ReadUnit(t, i) == Unit(|Escaped(s, k, html)|, s[k])
  {
    var c, e := s[k], Escaped(s, k, html);
    if |e| == 1 {
      AtIndex(t, i, e, 0);
      OneUnit(t, i, c);
    } else if |e| == 2 {
      EscapeUnit(t, i, e);
    } else {
      HexUnit(t, i, e, 0, 0, c / 16, c % 16);
    }
  }

  /** So is any other that is no pair, a lone surrogate as U+FFFD. */
  lemma SeparatorReadsBack(t: Text, i: nat, s: Text, k: nat, html: bool)
    requires k < |s| && (s[k] == 0x2028 || s[k] == 0x2029) && At(t, i, Escaped(s, k, html))
    ensures i < |t| && t[i] != QUOTE && ReadUnit(t, i) == Unit(|Escaped(s, k, html)|, s[k])
  {
    assert HexDigit(2) == 0x32 && HexDigit(0) == 0x30 && s[k] == ((2 * 16 + 0) * 16 + 2) * 16 + s[k] % 16;
    HexUnit(t, i, Escaped(s, k, html), 2, 0, 2, s[k] % 16);
  }

  lemma SurrogateReadsBack(t: Text, i: nat, s: Text, k: nat, html: bool)
    requires k < |s| && (IsHigh(s[k]) || IsLow(s[k])) && !PairAt(s, k) && At(t, i, Escaped(s, k, html))
    ensures i < |t| && t[i] != QUOTE && ReadUnit(t, i) == Unit(|Escaped(s, k, html)|, 0xfffd)
  {
    HexUnit(t, i, Escaped(s, k, html), 15, 15, 15, 13);
  }

  lemma WideReadsBack(t: Text, i: nat, s: Text, k: nat, html: bool)
    requires k < |s| && s[k] >= 0x80 && !PairAt(s, k) && At(t, i, Escaped(s, k, html))
    ensures i < |t| && t[i] != QUOTE && ReadUnit(t, i) == Unit(|Escaped(s, k, html)|, RepairedAt(s, k)[0])
  {
    if s[k] == 0x2028 || s[k] == 0x2029 {
      SeparatorReadsBack(t, i, s, k, html);
    } else if IsHigh(s[k]) || IsLow(s[k]) {
      SurrogateReadsBack(t, i, s, k, html);
    } else {
      AtIndex(t, i, Escaped(s, k, html), 0);
      OneUnit(t, i, s[k]);
    }
  }

  /** A character that is no pair is read back as one unit. */
  lemma UnitReadsBack(t: Text, i: nat, s: Text, k: nat, html: bool)
    requires k < |s| && !PairAt(s, k) && At(t, i, Escaped(s, k, html))
    ensures i < |t| && t[i] != QUOTE
    ensures ReadUnit(t, i) == Unit(|Escaped(s, k, html)|, RepairedAt(s, k)[0])
  {
    if s[k] < 0x80 {
      AsciiReadsBack(t, i, s, k, html);
    } else {
      WideReadsBack(t, i, s, k, html);
    }
  }

  lemma PairReadsBack(t: Text, i: nat, s: Text, k: nat, html: bool)
    requires k < |s| && PairAt(s, k) && At(t, i, Escaped(s, k, html))
    ensures i + 2 <= |t| && ReadContent(t, i) == BeforeAll(RepairedAt(s, k), ReadContent(t, i + 2))
  {
    var e := Escaped(s, k, html);
    assert e == [s[k], s[k + 1]];
    AtIndex(t, i, e, 0);
    AtIndex(t, i, e, 1);
    assert ReadUnit(t, i) == Unit(1, s[k]) && ReadUnit(t, i + 1) == Unit(1, s[k + 1]);
    var rest := ReadContent(t, i + 2);
    assert ReadContent(t, i + 1) == Before(s[k + 1], rest);
    if rest.GotText? {
      assert [s[k]] + ([s[k + 1]] + rest.s) == [s[k], s[k + 1]] + rest.s;
    }
  }

  lemma CharacterReadsBack(t: Text, i: nat, s: Text, k: nat, html: bool)
    requires k < |s| && At(t, i, Escaped(s, k, html))
    ensures ReadContent(t, i) == BeforeAll(RepairedAt(s, k), ReadContent(t, i + |Escaped(s, k, html)|))
  {
    if PairAt(s, k) {
      PairReadsBack(t, i, s, k, html);
    } else {
      UnitReadsBack(t, i, s, k, html);
    }
  }

  lemma ContentSplit(t: Text, i: nat, s: Text, k: nat, html: bool)
    requires k < |s| && At(t, i, EscapedFrom(s, k, html) + [QUOTE])
    ensures At(t, i, Escaped(s, k, html))
    ensures At(t, i + |Escaped(s, k, html)|, EscapedFrom(s, k + Width(s, k), html) + [QUOTE])
  {
    var e, rest := Escaped(s, k, html), EscapedFrom(s, k + Width(s, k), html) + [QUOTE];
    assert EscapedFrom(s, k, html) + [QUOTE] == e + rest;
    AtParts(t, i, e, rest);
  }

  lemma {:induction false} ContentReadsBack(t: Text, i: nat, s: Text, k: nat, html: bool)
    requires k <= |s| && At(t, i, EscapedFrom(s, k, html) + [QUOTE])
    ensures ReadContent(t, i) == GotText(i + |EscapedFrom(s, k, html)| + 1, RepairFrom(s, k))
    decreases |s| - k
  {
    if k == |s| {
      assert t[i + 0] == ([] + [QUOTE])[0];
    } else {
      ContentSplit(t, i, s, k, html);
      CharacterReadsBack(t, i, s, k, html);
      ContentReadsBack(t, i + |Escaped(s, k, html)|, s, k + Width(s, k), html);
    }
  }

  /** `goJsonString` is undone by the reader, up to lone surrogates. */
  lemma StringReadsBack(t: Text, i: nat, s: Text, html: bool)
    requires At(t, i, GoJsonString(s, html))
    ensures i < |t| && t[i] == QUOTE
    ensures ReadString(t, i) == GotText(i + |GoJsonString(s, html)|, Repair(s))
  {
    var body := EscapedFrom(s, 0, html) + [QUOTE];
    assert GoJsonString(s, html) == [QUOTE] + body;
    AtParts(t, i, [QUOTE], body);
    assert t[i + 0] == [QUOTE][0];
    ContentReadsBack(t, i + 1, s, 0, html);
  }

  // ---- Numbers ----

  function Pow10(k: nat): (p: nat)
    ensures p > 0
  {
    if k == 0 then 1 else 10 * Pow10(k - 1)
  }

  lemma {:induction false} NatTextReads(n: nat)
    ensures AllDigits(NatText(n)) && NatValue(NatText(n)) == n
    ensures if n == 0 then NatText(n) == [0x30] else NatText(n)[0] != 0x30
  {
    if n >= 10 {
      NatTextReads(n / 10);
      assert NatText(n)[..|NatText(n)| - 1] == NatText(n / 10);
    } else {
      assert NatText(n)[..0] == [];
    }
  }

  lemma NatValueAppend(d: Text, c: Code)
    requires AllDigits(d) && IsDigit(c)
    ensures AllDigits(d + [c]) && NatValue(d + [c]) == NatValue(d) * 10 + (c - 0x30)
  {
    assert (d + [c])[..|d|] == d;
  }

  lemma ZerosAppend(d: Text, k: nat)
    requires k > 0
    ensures d + Zeros(k) == d + Zeros(k - 1) + [0x30]
  {
  }

  lemma {:induction false} ZerosValue(d: Text, k: nat)
    requires AllDigits(d)
    ensures AllDigits(d + Zeros(k)) && NatValue(d + Zeros(k)) == NatValue(d) * Pow10(k)
  {
    if k == 0 {
      assert d + Zeros(0) == d;
    } else {
      ZerosValue(d, k - 1);
      NatValueAppend(d + Zeros(k - 1), 0x30);
      ZerosAppend(d, k);
      Tenfold(NatValue(d), Pow10(k - 1));
    }
  }

  lemma Tenfold(a: int, b: int)
    ensures a * b * 10 == a * (10 * b)
  {
  }

  lemma NormalizeTenfold(m: int, e: int)
    requires m != 0
    ensures Normalize(10 * m, e) == Normalize(m, e + 1)
  {
    assert 10 * m % 10 == 0 && 10 * m / 10 == m;
  }

  lemma {:induction false} NormalizePower(c: int, k: nat, e: int)
    requires c % 10 != 0
    ensures Normalize(c * Pow10(k), e) == Finite(c, e + k)
  {
    if k == 0 {
      assert c * Pow10(0) == c;
    } else {
      Tenfold(c, Pow10(k - 1));
      NonZero(c, k - 1);
      NormalizeTenfold(c * Pow10(k - 1), e);
      NormalizePower(c, k - 1, e + 1);
    }
  }

  lemma NonZero(c: int, k: nat)
    requires c != 0
    ensures c * Pow10(k) != 0
  {
  }

  /** What may follow a number: nothing a number could go on with. */
  predicate Stop(t: Text, e: nat) {
    e <= |t| && (e < |t| ==> t[e] == COMMA || t[e] == CLOSE_BRACKET || t[e] == CLOSE_BRACE)
  }

  lemma {:induction false} DigitsEndAt(t: Text, i: nat, d: Text)
    requires AllDigits(d) && At(t, i, d) && (i + |d| < |t| ==> !IsDigit(t[i + |d|]))
    ensures DigitsEnd(t, i) == i + |d| && t[i..i + |d|] == d
    decreases |d|
  {
    if |d| > 0 {
      assert d == [d[0]] + d[1..];
      AtParts(t, i, [d[0]], d[1..]);
      assert t[i + 0] == d[0];
      DigitsEndAt(t, i + 1, d[1..]);
    }
  }

  lemma IntReadsBack(t: Text, j: nat, d: Text)
    requires |d| > 0 && AllDigits(d) && (d[0] == 0x30 ==> |d| == 1)
    requires At(t, j, d) && (j + |d| < |t| ==> !IsDigit(t[j + |d|]))
    ensures ReadInt(t, j) == GotDigits(j + |d|, d)
  {
    DigitsEndAt(t, j, d);
    assert t[j + 0] == d[0];
  }

  lemma FractionReadsBack(t: Text, i: nat, d: Text)
    requires |d| > 0 && AllDigits(d) && At(t, i, [POINT]) && At(t, i + 1, d)
    requires i + 1 + |d| < |t| ==> !IsDigit(t[i + 1 + |d|])
    ensures ReadFraction(t, i) == GotDigits(i + 1 + |d|, d)
  {
    DigitsEndAt(t, i + 1, d);
    assert t[i + 0] == [POINT][0];
  }

  /** The three parts of a number make up its magnitude. */
  lemma Assemble(t: Text, j: nat, e: nat, whole: Text, f: nat, fraction: Text, end: nat, x: int)
    requires j <= e <= |t| && ReadInt(t, j) == GotDigits(e, whole)
    requires f <= |t| && ReadFraction(t, e) == GotDigits(f, fraction) && ReadExponent(t, f) == Exponent(end, x)
    ensures ReadMagnitude(t, j) == Magnitude(end, whole, fraction, x)
  {
  }

  lemma NoFraction(t: Text, i: nat)
    requires i <= |t| && (i < |t| ==> t[i] != POINT)
    ensures ReadFraction(t, i) == GotDigits(i, [])
  {
  }

  lemma NoExponentHere(t: Text, i: nat)
    requires Stop(t, i)
    ensures ReadExponent(t, i) == Exponent(i, 0)
  {
  }

  lemma PlainReadsBack(t: Text, j: nat, d: Text)
    requires |d| > 0 && AllDigits(d) && (d[0] == 0x30 ==> |d| == 1)
    requires At(t, j, d) && Stop(t, j + |d|)
    ensures ReadMagnitude(t, j) == Magnitude(j + |d|, d, [], 0)
  {
    IntReadsBack(t, j, d);
    WholeReadsBack(t, j, j + |d|, d);
  }

  lemma WholeReadsBack(t: Text, j: nat, e: nat, d: Text)
    requires j <= e && Stop(t, e) && ReadInt(t, j) == GotDigits(e, d)
    ensures ReadMagnitude(t, j) == Magnitude(e, d, [], 0)
  {
    NoFraction(t, e);
    NoExponentHere(t, e);
    Assemble(t, j, e, d, e, [], e, 0);
  }

  lemma ExponentReadsBack(t: Text, f: nat, x: Text)
    requires |x| > 0 && AllDigits(x) && At(t, f, [LETTER_E, PLUS] + x) && Stop(t, f + 2 + |x|)
    ensures ReadExponent(t, f) == Exponent(f + 2 + |x|, NatValue(x))
  {
    AtParts(t, f, [LETTER_E, PLUS], x);
    AtIndex(t, f, [LETTER_E, PLUS], 0);
    AtIndex(t, f, [LETTER_E, PLUS], 1);
    DigitsEndAt(t, f + 2, x);
  }

  lemma ShortParts(t: Text, j: nat, d: Text, x: Text)
    requires |d| == 1 && At(t, j, d + ([LETTER_E, PLUS] + x))
    ensures At(t, j, d) && At(t, j + 1, [LETTER_E, PLUS] + x) && t[j + 1] == LETTER_E
  {
    AtParts(t, j, d, [LETTER_E, PLUS] + x);
    assert t[j + 1 + 0] == ([LETTER_E, PLUS] + x)[0];
  }

  lemma ShortReadsBack(t: Text, j: nat, d: Text, x: Text)
    requires |d| == 1 && AllDigits(d) && |x| > 0 && AllDigits(x)
    requires At(t, j, d + ([LETTER_E, PLUS] + x)) && Stop(t, j + 3 + |x|)
    ensures ReadMagnitude(t, j) == Magnitude(j + 3 + |x|, d, [], NatValue(x))
  {
    ShortParts(t, j, d, x);
    IntReadsBack(t, j, d);
    NoFraction(t, j + 1);
    ExponentReadsBack(t, j + 1, x);
    Assemble(t, j, j + 1, d, j + 1, [], j + 3 + |x|, NatValue(x));
  }

  /** The parts of a printed number with a point. */
  lemma PointParts(t: Text, j: nat, a: Text, b: Text, x: Text)
    requires At(t, j, PointText(a, b, x))
    ensures At(t, j, a) && At(t, j + |a|, [POINT]) && At(t, j + |a| + 1, b)
    ensures At(t, j + |a| + 1 + |b|, [LETTER_E, PLUS] + x)
    ensures t[j + |a|] == POINT && t[j + |a| + 1 + |b|] == LETTER_E
    ensures |PointText(a, b, x)| == |a| + |b| + |x| + 3
  {
    var tail := [LETTER_E, PLUS] + x;
    AtParts(t, j, a, [POINT] + (b + tail));
    AtParts(t, j + |a|, [POINT], b + tail);
    AtParts(t, j + |a| + 1, b, tail);
    assert t[j + |a| + 0] == [POINT][0] && t[j + |a| + 1 + |b| + 0] == tail[0];
  }

  lemma PointReadsBack(t: Text, j: nat, a: Text, b: Text, x: Text)
    requires |a| == 1 && |b| > 0 && |x| > 0 && AllDigits(a) && AllDigits(b) && AllDigits(x)
    requires At(t, j, PointText(a, b, x)) && Stop(t, j + |PointText(a, b, x)|)
    ensures ReadMagnitude(t, j) == Magnitude(j + |PointText(a, b, x)|, a, b, NatValue(x))
  {
    PointParts(t, j, a, b, x);
    IntReadsBack(t, j, a);
    FractionReadsBack(t, j + 1, b);
    ExponentReadsBack(t, j + 2 + |b|, x);
    Assemble(t, j, j + 1, a, j + 2 + |b|, b, j + |PointText(a, b, x)|, NatValue(x));
  }

  /** A plain or scientific magnitude reads back as parts that make up the same digits. */
  lemma ScientificReadsBack(t: Text, j: nat, d: Text, x: Text)
    requires |d| > 0 && AllDigits(d) && d[0] != 0x30
    requires |x| > 0 && AllDigits(x) && At(t, j, Scientific(d, x)) && Stop(t, j + |Scientific(d, x)|)
    ensures ReadMagnitude(t, j) == Magnitude(j + |Scientific(d, x)|, d[..1], d[1..], NatValue(x))
  {
    if |d| == 1 {
      assert d[..1] == d && d[1..] == [];
      ShortReadsBack(t, j, d, x);
    } else {
      PointReadsBack(t, j, d[..1], d[1..], x);
    }
  }

  lemma PlainNumber(c: nat, exp: nat, negative: bool)
    requires (c == 0 ==> exp == 0) && (c != 0 ==> c % 10 != 0)
    ensures ToNumber(NatText(c) + Zeros(exp), [], 0, negative) == Finite(WithSign(c, negative), exp)
  {
    NatTextReads(c);
    ZerosValue(NatText(c), exp);
    assert NatText(c) + Zeros(exp) + [] == NatText(c) + Zeros(exp);
    if c != 0 { SignedNormalize(c, exp, negative); }
  }

  lemma ScientificNumber(c: nat, exp: nat, negative: bool)
    requires c % 10 != 0
    ensures ToNumber(NatText(c)[..1], NatText(c)[1..], |NatText(c)| + exp - 1, negative) ==
              Finite(WithSign(c, negative), exp)
  {
    NatTextReads(c);
    SignedNormalize(c, 0, negative);
    assert NatText(c)[..1] + NatText(c)[1..] == NatText(c);
  }

  /** The magnitude at position j, with the sign given. */
  function ReadSigned(t: Text, j: nat, negative: bool): NumberRead
    requires j <= |t|
  {
    var m := ReadMagnitude(t, j);
    if m.NoMagnitude? then NoNumber else GotNumber(m.end, ToNumber(m.whole, m.fraction, m.exponent, negative))
  }

  /** A number by its sign, its digits and its power of ten. */
  predicate Composed(n: Number, c: nat, exp: nat, negative: bool) {
    (c == 0 ==> exp == 0) && (c != 0 ==> c % 10 != 0) && n == Finite(WithSign(c, negative), exp)
  }

  lemma PlainMagnitude(t: Text, j: nat, c: nat, exp: nat, negative: bool, n: Number, m: Text)
    requires Composed(n, c, exp, negative)
    requires m == NatText(c) + Zeros(exp) && At(t, j, m) && Stop(t, j + |m|)
    ensures ReadSigned(t, j, negative) == GotNumber(j + |m|, n)
  {
    NatTextReads(c);
    ZerosValue(NatText(c), exp);
    PlainReadsBack(t, j, m);
    PlainNumber(c, exp, negative);
  }

  lemma ScientificMagnitude(t: Text, j: nat, c: nat, exp: nat, negative: bool, n: Number, m: Text)
    requires Composed(n, c, exp, negative) && c != 0
    requires m == Scientific(NatText(c), NatText(|NatText(c)| + exp - 1)) && At(t, j, m) && Stop(t, j + |m|)
    ensures ReadSigned(t, j, negative) == GotNumber(j + |m|, n)
  {
    var x := NatText(|NatText(c)| + exp - 1);
    NatTextReads(c);
    NatTextReads(|NatText(c)| + exp - 1);
    ScientificReadsBack(t, j, NatText(c), x);
    ScientificNumber(c, exp, negative);
  }

  lemma SmallText(d: Text, exp: nat)
    requires |d| > 0 && |d| + exp <= 21
    ensures MagnitudeText(d, exp) == d + Zeros(exp)
  {
  }

  lemma LargeText(d: Text, exp: nat)
    requires |d| > 0 && |d| + exp > 21
    ensures MagnitudeText(d, exp) == Scientific(d, NatText(|d| + exp - 1))
  {
  }

  lemma ZeroText()
    ensures |NatText(0)| == 1
  {
  }

  lemma MagnitudeReadsBack(t: Text, j: nat, c: nat, exp: nat, negative: bool, n: Number, m: Text)
    requires Composed(n, c, exp, negative)
    requires m == MagnitudeText(NatText(c), exp) && At(t, j, m) && Stop(t, j + |m|)
    ensures ReadSigned(t, j, negative) == GotNumber(j + |m|, n)
  {
    var d := NatText(c);
    if |d| + exp <= 21 {
      SmallText(d, exp);
      PlainMagnitude(t, j, c, exp, negative, n, m);
    } else {
      ZeroText();
      LargeText(d, exp);
      ScientificMagnitude(t, j, c, exp, negative, n, m);
    }
  }

  lemma SignedNormalize(c: nat, k: nat, negative: bool)
    requires c % 10 != 0
    ensures Normalize(WithSign(c * Pow10(k), negative), 0) == Finite(WithSign(c, negative), k)
    ensures WithSign(c, negative) % 10 != 0
  {
    assert WithSign(c * Pow10(k), negative) == WithSign(c, negative) * Pow10(k);
    NormalizePower(WithSign(c, negative), k, 0);
  }

  /** A number's first code unit. */
  lemma MagnitudeStarts(c: nat, exp: nat, m: Text)
    requires m == MagnitudeText(NatText(c), exp)
    ensures |m| > 0 && IsDigit(m[0])
  {
    NatTextReads(c);
    assert m[0] == NatText(c)[0];
  }

  lemma SignAndMagnitude(n: Number)
    requires n.Integer()
    ensures Composed(n, Abs(n.coeff), n.exp, n.coeff < 0)
  {
  }

  lemma NumberReadsBack(t: Text, i: nat, n: Number)
    requires n.Integer() && At(t, i, NumberText(n)) && Stop(t, i + |NumberText(n)|)
    ensures |NumberText(n)| > 0 && (NumberText(n)[0] == MINUS || IsDigit(NumberText(n)[0]))
    ensures ReadNumber(t, i) == GotNumber(i + |NumberText(n)|, n)
  {
    var c := Abs(n.coeff);
    var m := MagnitudeText(NatText(c), n.exp);
    SignAndMagnitude(n);
    MagnitudeStarts(c, n.exp, m);
    PartsReadBack(t, i, n, c, n.exp, n.coeff < 0, m, NumberText(n));
  }

  /** Sign and magnitude, one after the other. */
  lemma PartsReadBack(t: Text, i: nat, n: Number, c: nat, exp: nat, negative: bool, m: Text, text: Text)
    requires Composed(n, c, exp, negative)
    requires m == MagnitudeText(NatText(c), exp) && |m| > 0 && IsDigit(m[0])
    requires text == (if negative then [MINUS] else []) + m && At(t, i, text) && Stop(t, i + |text|)
    ensures ReadNumber(t, i) == GotNumber(i + |text|, n)
  {
    var j := if negative then i + 1 else i;
    SignSplit(t, i, m, negative);
    assert j + |m| == i + |text|;
    MagnitudeReadsBack(t, j, c, exp, negative, n, m);
    assert ReadNumber(t, i) == ReadSigned(t, j, negative);
  }

  lemma SignSplit(t: Text, i: nat, m: Text, negative: bool)
    requires |m| > 0 && IsDigit(m[0]) && At(t, i, (if negative then [MINUS] else []) + m)
    ensures i < |t| && (t[i] == MINUS <==> negative)
    ensures At(t, if negative then i + 1 else i, m)
  {
    if negative {
      AtParts(t, i, [MINUS], m);
      assert t[i + 0] == [MINUS][0];
    } else {
      assert [] + m == m;
      assert t[i + 0] == m[0];
    }
  }

  // ---- Values ----

  /** The value with each lone surrogate repaired and every object as its members are printed. */
  function Norm(v: Value): Value
    decreases Depth(v), 0
  {
    match v
    case Str(s) => Str(Repair(s))
    case Arr(items) => Arr(NormItems(items))
    case Struct(fields) => Obj(NormEntries(fields))
    case Obj(entries) => Obj(NormSorted(entries))
    case _ => v
  }

  function NormSorted(entries: seq<Entry>): seq<Entry>
    decreases EntryDepth(entries), |entries| + 2
  {
    AmongDepth(SortEntries(entries), entries);
    NormEntries(SortEntries(entries))
  }

  function NormItem(v: Value): Value
    decreases Depth(v), 1
  {
    Norm(v)
  }

  function NormItems(items: seq<Value>): seq<Value>
    decreases DepthOf(items), |items| + 1
  {
    if |items| == 0 then [] else [NormItem(items[0])] + NormItems(items[1..])
  }

  function NormEntry(e: Entry): Entry
    decreases Depth(e.value), 1
  {
    Entry(Repair(e.key), Norm(e.value))
  }

  function NormEntries(entries: seq<Entry>): seq<Entry>
    decreases EntryDepth(entries), |entries| + 1
  {
    if |entries| == 0 then [] else [NormEntry(entries[0])] + NormEntries(entries[1..])
  }

  /** The first code unit of a value: no white space and no closing bracket. */
  predicate Starts(t: Text) {
    |t| > 0 && !IsSpace(t[0]) && t[0] != CLOSE_BRACKET && t[0] != CLOSE_BRACE
  }

  lemma NumberStarts(n: Number)
    requires n.Integer()
    ensures |NumberText(n)| > 0 && (NumberText(n)[0] == MINUS || IsDigit(NumberText(n)[0]))
  {
    MagnitudeStarts(Abs(n.coeff), n.exp, MagnitudeText(NatText(Abs(n.coeff)), n.exp));
  }

  lemma ValueStarts(v: Value, html: bool)
    requires GoMarshal(v, html).Text?
    ensures Starts(GoMarshal(v, html).text)
  {
    match v
    case Num(n) => NumberStarts(n);
    case Arr(items) => ArrayUnfold(items, html);
    case Struct(fields) => FieldsUnfold(fields, html);
    case Obj(entries) => ObjectUnfold(entries, html); FieldsUnfold(SortEntries(entries), html);
    case _ =>
  }

  lemma ArrayUnfold(items: seq<Value>, html: bool)
    requires MarshalArray(items, html).Text?
    ensures MarshalItems(items, html).Text?
    ensures MarshalArray(items, html).text == [OPEN_BRACKET] + MarshalItems(items, html).text + [CLOSE_BRACKET]
  {
  }

  lemma FieldsUnfold(fields: seq<Entry>, html: bool)
    requires MarshalFields(fields, html).Text?
    ensures MarshalMembers(fields, html).Text?
    ensures MarshalFields(fields, html).text == [OPEN_BRACE] + MarshalMembers(fields, html).text + [CLOSE_BRACE]
  {
  }

  lemma ObjectUnfold(entries: seq<Entry>, html: bool)
    ensures MarshalObject(entries, html) == MarshalFields(SortEntries(entries), html)
    ensures NormSorted(entries) == NormEntries(SortEntries(entries))
  {
  }

  lemma ItemsStart(items: seq<Value>, html: bool)
    requires |items| > 0 && MarshalItems(items, html).Text?
    ensures Starts(MarshalItems(items, html).text)
  {
    ValueStarts(items[0], html);
  }

  lemma MembersStart(entries: seq<Entry>, html: bool)
    requires |entries| > 0 && MarshalMembers(entries, html).Text?
    ensures Starts(MarshalMembers(entries, html).text)
  {
    assert MarshalMember(entries[0], html).Text? && MarshalMember(entries[0], html).text[0] == QUOTE;
  }

  lemma FirstAt(t: Text, i: nat, u: Text)
    requires At(t, i, u) && |u| > 0
    ensures i < |t| && t[i] == u[0]
  {
  }

  lemma NotAt(t: Text, i: nat, u: Text)
    requires i < |t| && |u| > 0 && t[i] != u[0]
    ensures !At(t, i, u)
  {
  }

  lemma NullReadsBack(t: Text, i: nat)
    requires At(t, i, NULL_TEXT)
    ensures ReadValue(t, i) == Got(i + 4, Null)
  {
    FirstAt(t, i, NULL_TEXT);
    assert NULL_TEXT == [0x6e, 0x75, 0x6c, 0x6c];
  }

  lemma TrueReadsBack(t: Text, i: nat)
    requires At(t, i, TRUE_TEXT)
    ensures ReadValue(t, i) == Got(i + 4, Bool(true))
  {
    FirstAt(t, i, TRUE_TEXT);
    assert TRUE_TEXT == [0x74, 0x72, 0x75, 0x65];
    NotAt(t, i, [0x6e, 0x75, 0x6c, 0x6c]);
  }

  lemma FalseReadsBack(t: Text, i: nat)
    requires At(t, i, FALSE_TEXT)
    ensures ReadValue(t, i) == Got(i + 5, Bool(false))
  {
    FirstAt(t, i, FALSE_TEXT);
    assert FALSE_TEXT == [0x66, 0x61, 0x6c, 0x73, 0x65];
    NotLiteral(t, i);
  }

  /** Where another letter stands there is no literal. */
  lemma NotLiteral(t: Text, i: nat)
    requires i < |t| && t[i] != 0x6e && t[i] != 0x74
    ensures !At(t, i, [0x6e, 0x75, 0x6c, 0x6c]) && !At(t, i, [0x74, 0x72, 0x75, 0x65])
    ensures t[i] != 0x66 ==> !At(t, i, [0x66, 0x61, 0x6c, 0x73, 0x65])
  {
    NotAt(t, i, [0x6e, 0x75, 0x6c, 0x6c]);
    NotAt(t, i, [0x74, 0x72, 0x75, 0x65]);
    if t[i] != 0x66 { NotAt(t, i, [0x66, 0x61, 0x6c, 0x73, 0x65]); }
  }

  lemma LiteralReadsBack(v: Value, html: bool, t: Text, i: nat)
    requires v.Null? || v.Bool?
    requires At(t, i, GoMarshal(v, html).text)
    ensures ReadValue(t, i) == Got(i + |GoMarshal(v, html).text|, v)
  {
    if v.Null? { NullReadsBack(t, i); }
    else if v.b { TrueReadsBack(t, i); }
    else { FalseReadsBack(t, i); }
  }

  lemma ScalarStep(t: Text, i: nat)
    requires i < |t| && (t[i] == MINUS || IsDigit(t[i]))
    ensures ReadValue(t, i) == ReadScalar(t, i)
  {
    assert SkipSpace(t, i) == i;
  }

  lemma ScalarNumber(t: Text, i: nat, end: nat, n: Number)
    requires i < |t| && (t[i] == MINUS || IsDigit(t[i])) && ReadNumber(t, i) == GotNumber(end, n)
    ensures ReadScalar(t, i) == Got(end, Num(n))
  {
    NotLiteral(t, i);
  }

  lemma StringStep(t: Text, i: nat, end: nat, s: Text)
    requires i < |t| && t[i] == QUOTE && ReadString(t, i) == GotText(end, s)
    ensures ReadValue(t, i) == Got(end, Str(s))
  {
  }

  lemma LeafReadsBack(v: Value, html: bool, t: Text, i: nat)
    requires v.Num? || v.Str?
    requires GoMarshal(v, html).Text? && At(t, i, GoMarshal(v, html).text) && Stop(t, i + |GoMarshal(v, html).text|)
    ensures ReadValue(t, i) == Got(i + |GoMarshal(v, html).text|, Norm(v))
  {
    if v.Num? {
      NumberStarts(v.n);
      FirstAt(t, i, NumberText(v.n));
      NumberReadsBack(t, i, v.n);
      ScalarNumber(t, i, i + |NumberText(v.n)|, v.n);
      ScalarStep(t, i);
    } else {
      StringReadsBack(t, i, v.s, html);
      StringStep(t, i, i + |GoJsonString(v.s, html)|, Repair(v.s));
    }
  }

  lemma NoSkip(t: Text, i: nat)
    requires i <= |t| && (i < |t| ==> !IsSpace(t[i]))
    ensures SkipSpace(t, i) == i
  {
  }

  lemma ArrayStep(t: Text, i: nat)
    requires i < |t| && t[i] == OPEN_BRACKET
    ensures ReadValue(t, i) == ReadArray(t, i + 1)
  {
    NoSkip(t, i);
  }

  lemma EmptyArray(t: Text, i: nat)
    requires i < |t| && t[i] == CLOSE_BRACKET
    ensures ReadArray(t, i) == Got(i + 1, Arr([]))
  {
    NoSkip(t, i);
  }

  lemma FullArray(t: Text, i: nat)
    requires i < |t| && !IsSpace(t[i]) && t[i] != CLOSE_BRACKET && ReadItems(t, i).GotItems?
    ensures ReadArray(t, i) == Got(ReadItems(t, i).end, Arr(ReadItems(t, i).items))
  {
    NoSkip(t, i);
  }

  /** A bracketed list, given how its inside reads. */
  lemma ArrayReadsBack(t: Text, i: nat, inside: Text, items: seq<Value>)
    requires At(t, i, [OPEN_BRACKET]) && At(t, i + 1, inside + [CLOSE_BRACKET])
    requires if inside == [] then items == []
             else Starts(inside) && ReadItems(t, i + 1) == GotItems(i + 2 + |inside|, items)
    ensures ReadValue(t, i) == Got(i + 2 + |inside|, Arr(items))
  {
    FirstAt(t, i, [OPEN_BRACKET]);
    FirstAt(t, i + 1, inside + [CLOSE_BRACKET]);
    ArrayStep(t, i);
    if inside == [] { EmptyArray(t, i + 1); } else { FullArray(t, i + 1); }
  }

  lemma ObjectStep(t: Text, i: nat)
    requires i < |t| && t[i] == OPEN_BRACE
    ensures ReadValue(t, i) == ReadObject(t, i + 1)
  {
    NoSkip(t, i);
  }

  lemma EmptyObject(t: Text, i: nat)
    requires i < |t| && t[i] == CLOSE_BRACE
    ensures ReadObject(t, i) == Got(i + 1, Obj([]))
  {
    NoSkip(t, i);
  }

  lemma FullObject(t: Text, i: nat)
    requires i < |t| && !IsSpace(t[i]) && t[i] != CLOSE_BRACE && ReadMembers(t, i).GotEntries?
    ensures ReadObject(t, i) == Got(ReadMembers(t, i).end, Obj(ReadMembers(t, i).entries))
  {
    NoSkip(t, i);
  }

  lemma ObjectReadsBack(t: Text, i: nat, inside: Text, entries: seq<Entry>)
    requires At(t, i, [OPEN_BRACE]) && At(t, i + 1, inside + [CLOSE_BRACE])
    requires if inside == [] then entries == []
             else Starts(inside) && ReadMembers(t, i + 1) == GotEntries(i + 2 + |inside|, entries)
    ensures ReadValue(t, i) == Got(i + 2 + |inside|, Obj(entries))
  {
    FirstAt(t, i, [OPEN_BRACE]);
    FirstAt(t, i + 1, inside + [CLOSE_BRACE]);
    ObjectStep(t, i);
    if inside == [] { EmptyObject(t, i + 1); } else { FullObject(t, i + 1); }
  }

  lemma InsideSplit(t: Text, i: nat, open: Code, inside: Text, close: Code)
    requires At(t, i, [open] + inside + [close])
    ensures At(t, i, [open]) && At(t, i + 1, inside + [close])
  {
    assert [open] + inside + [close] == [open] + (inside + [close]);
    AtParts(t, i, [open], inside + [close]);
  }

  /** Every value the printer accepts is read back as its normal form, wherever it stands. */
  lemma {:induction false} ValueReadsBack(v: Value, html: bool, t: Text, i: nat)
    requires GoMarshal(v, html).Text? && At(t, i, GoMarshal(v, html).text) && Stop(t, i + |GoMarshal(v, html).text|)
    ensures ReadValue(t, i) == Got(i + |GoMarshal(v, html).text|, Norm(v))
    decreases Depth(v), 0
  {
    match v
    case Arr(items) => ListReadsBack(items, html, t, i);
    case Struct(fields) => BracesReadBack(fields, html, t, i);
    case Obj(entries) => SortedReadBack(entries, html, t, i);
    case Null => LiteralReadsBack(v, html, t, i);
    case Bool(_) => LiteralReadsBack(v, html, t, i);
    case _ => LeafReadsBack(v, html, t, i);
  }

  lemma {:induction false} ListReadsBack(items: seq<Value>, html: bool, t: Text, i: nat)
    requires MarshalArray(items, html).Text? && At(t, i, MarshalArray(items, html).text)
    ensures ReadValue(t, i) == Got(i + |MarshalArray(items, html).text|, Arr(NormItems(items)))
    decreases DepthOf(items), |items| + 3
  {
    ArrayUnfold(items, html);
    var inside := MarshalItems(items, html).text;
    InsideSplit(t, i, OPEN_BRACKET, inside, CLOSE_BRACKET);
    if |items| > 0 {
      ItemsStart(items, html);
      ItemsReadBack(items, html, t, i + 1);
    }
    ArrayReadsBack(t, i, inside, NormItems(items));
  }

  lemma {:induction false} BracesReadBack(entries: seq<Entry>, html: bool, t: Text, i: nat)
    requires MarshalFields(entries, html).Text? && At(t, i, MarshalFields(entries, html).text)
    ensures ReadValue(t, i) == Got(i + |MarshalFields(entries, html).text|, Obj(NormEntries(entries)))
    decreases EntryDepth(entries), |entries| + 5
  {
    FieldsUnfold(entries, html);
    var inside := MarshalMembers(entries, html).text;
    InsideSplit(t, i, OPEN_BRACE, inside, CLOSE_BRACE);
    if |entries| > 0 {
      MembersStart(entries, html);
      MembersReadBack(entries, html, t, i + 1);
    }
    ObjectReadsBack(t, i, inside, NormEntries(entries));
  }

  lemma {:induction false} SortedReadBack(entries: seq<Entry>, html: bool, t: Text, i: nat)
    requires MarshalObject(entries, html).Text? && At(t, i, MarshalObject(entries, html).text)
    ensures ReadValue(t, i) == Got(i + |MarshalObject(entries, html).text|, Obj(NormSorted(entries)))
    decreases EntryDepth(entries), |entries| + 6
  {
    ObjectUnfold(entries, html);
    AmongDepth(SortEntries(entries), entries);
    BracesReadBack(SortEntries(entries), html, t, i);
  }

  /** A text followed by a punctuation mark. */
  lemma Followed(t: Text, i: nat, u: Text, c: Code)
    requires At(t, i, u + [c])
    ensures At(t, i, u) && i + |u| < |t| && t[i + |u|] == c
  {
    AtParts(t, i, u, [c]);
    FirstAt(t, i + |u|, [c]);
  }

  lemma CommaSplit(t: Text, i: nat, a: Text, b: Text, c: Code)
    requires At(t, i, a + [COMMA] + b + [c])
    ensures At(t, i, a) && i + |a| < |t| && t[i + |a|] == COMMA && At(t, i + |a| + 1, b + [c])
  {
    assert a + [COMMA] + b + [c] == a + ([COMMA] + (b + [c]));
    AtParts(t, i, a, [COMMA] + (b + [c]));
    AtParts(t, i + |a|, [COMMA], b + [c]);
    FirstAt(t, i + |a|, [COMMA]);
  }

  lemma LastItem(t: Text, i: nat)
    requires i <= |t| && ReadValue(t, i).Got?
    requires ReadValue(t, i).end < |t| && t[ReadValue(t, i).end] == CLOSE_BRACKET
    ensures ReadItems(t, i) == GotItems(ReadValue(t, i).end + 1, [ReadValue(t, i).v])
  {
    NoSkip(t, ReadValue(t, i).end);
  }

  lemma NextItem(t: Text, i: nat, mid: nat)
    requires i <= |t| && ReadValue(t, i).Got? && ReadValue(t, i).end == mid && mid < |t| && t[mid] == COMMA
    requires ReadItems(t, mid + 1).GotItems?
    ensures ReadItems(t, i) == GotItems(ReadItems(t, mid + 1).end, [ReadValue(t, i).v] + ReadItems(t, mid + 1).items)
  {
    NoSkip(t, mid);
  }

  lemma ItemsUnfold(items: seq<Value>, html: bool)
    requires |items| > 1 && MarshalItems(items, html).Text?
    ensures MarshalItem(items[0], html).Text? && MarshalItems(items[1..], html).Text?
    ensures MarshalItems(items, html).text ==
              MarshalItem(items[0], html).text + [COMMA] + MarshalItems(items[1..], html).text
    ensures NormItems(items) == [NormItem(items[0])] + NormItems(items[1..])
  {
  }

  lemma MembersUnfold(entries: seq<Entry>, html: bool)
    requires |entries| > 1 && MarshalMembers(entries, html).Text?
    ensures MarshalMember(entries[0], html).Text? && MarshalMembers(entries[1..], html).Text?
    ensures MarshalMembers(entries, html).text
            == MarshalMember(entries[0], html).text + [COMMA] + MarshalMembers(entries[1..], html).text
    ensures NormEntries(entries) == [NormEntry(entries[0])] + NormEntries(entries[1..])
  {
  }

  /** The two parts of a list of more than one item. */
  lemma ItemsSplit(items: seq<Value>, html: bool, t: Text, i: nat)
    requires |items| > 1 && MarshalItems(items, html).Text? &&
               At(t, i, MarshalItems(items, html).text + [CLOSE_BRACKET])
    ensures MarshalItem(items[0], html).Text? && MarshalItems(items[1..], html).Text?
    ensures var a, b := MarshalItem(items[0], html).text, MarshalItems(items[1..], html).text;
            && |MarshalItems(items, html).text| == |a| + 1 + |b|
            && At(t, i, a) && i + |a| < |t| && t[i + |a|] == COMMA && At(t, i + |a| + 1, b + [CLOSE_BRACKET])
    ensures NormItems(items) == [NormItem(items[0])] + NormItems(items[1..])
  {
    ItemsUnfold(items, html);
    CommaSplit(t, i, MarshalItem(items[0], html).text, MarshalItems(items[1..], html).text, CLOSE_BRACKET);
  }

  lemma MembersSplit(entries: seq<Entry>, html: bool, t: Text, i: nat)
    requires |entries| > 1 && MarshalMembers(entries, html).Text?
    requires At(t, i, MarshalMembers(entries, html).text + [CLOSE_BRACE])
    ensures MarshalMember(entries[0], html).Text? && MarshalMembers(entries[1..], html).Text?
    ensures var a, b := MarshalMember(entries[0], html).text, MarshalMembers(entries[1..], html).text;
            && |MarshalMembers(entries, html).text| == |a| + 1 + |b|
            && At(t, i, a) && i + |a| < |t| && t[i + |a|] == COMMA && At(t, i + |a| + 1, b + [CLOSE_BRACE])
    ensures NormEntries(entries) == [NormEntry(entries[0])] + NormEntries(entries[1..])
  {
    MembersUnfold(entries, html);
    CommaSplit(t, i, MarshalMember(entries[0], html).text, MarshalMembers(entries[1..], html).text, CLOSE_BRACE);
  }

  lemma {:induction false} ItemReadsBack(v: Value, html: bool, t: Text, i: nat)
    requires MarshalItem(v, html).Text? && At(t, i, MarshalItem(v, html).text) &&
               Stop(t, i + |MarshalItem(v, html).text|)
    ensures ReadValue(t, i) == Got(i + |MarshalItem(v, html).text|, NormItem(v))
    decreases Depth(v), 1
  {
    ValueReadsBack(v, html, t, i);
  }

  lemma OneItem(items: seq<Value>, html: bool)
    requires |items| == 1
    ensures MarshalItems(items, html) == MarshalItem(items[0], html) && NormItems(items) == [NormItem(items[0])]
  {
  }

  lemma {:induction false} LastItemReadsBack(v: Value, html: bool, t: Text, i: nat)
    requires MarshalItem(v, html).Text? && At(t, i, MarshalItem(v, html).text)
    requires i + |MarshalItem(v, html).text| < |t| && t[i + |MarshalItem(v, html).text|] == CLOSE_BRACKET
    ensures ReadItems(t, i) == GotItems(i + |MarshalItem(v, html).text| + 1, [NormItem(v)])
    decreases Depth(v), 2
  {
    ItemReadsBack(v, html, t, i);
    LastItem(t, i);
  }

  lemma {:induction false} OnlyItem(items: seq<Value>, html: bool, t: Text, i: nat)
    requires |items| == 1 && MarshalItems(items, html).Text?
    requires At(t, i, MarshalItems(items, html).text + [CLOSE_BRACKET])
    ensures ReadItems(t, i) == GotItems(i + |MarshalItems(items, html).text| + 1, NormItems(items))
    decreases DepthOf(items), |items| + 2, 2
  {
    OneItem(items, html);
    Followed(t, i, MarshalItems(items, html).text, CLOSE_BRACKET);
    LastItemReadsBack(items[0], html, t, i);
  }

  lemma {:induction false} ItemsReadBack(items: seq<Value>, html: bool, t: Text, i: nat)
    requires |items| > 0 && MarshalItems(items, html).Text?
    requires At(t, i, MarshalItems(items, html).text + [CLOSE_BRACKET])
    ensures ReadItems(t, i) == GotItems(i + |MarshalItems(items, html).text| + 1, NormItems(items))
    decreases DepthOf(items), |items| + 2, 4
  {
    if |items| == 1 {
      OnlyItem(items, html, t, i);
    } else {
      ManyItems(items, html, t, i);
    }
  }

  lemma {:induction false} ManyItems(items: seq<Value>, html: bool, t: Text, i: nat)
    requires |items| > 1 && MarshalItems(items, html).Text?
    requires At(t, i, MarshalItems(items, html).text + [CLOSE_BRACKET])
    ensures ReadItems(t, i) == GotItems(i + |MarshalItems(items, html).text| + 1, NormItems(items))
    decreases DepthOf(items), |items| + 2, 3
  {
    ItemsSplit(items, html, t, i);
    FirstAndMore(items[0], items[1..], html, t, i, i + |MarshalItem(items[0], html).text|);
  }

  lemma {:induction false} FirstAndMore(v: Value, rest: seq<Value>, html: bool, t: Text, i: nat, mid: nat)
    requires |rest| > 0 && MarshalItem(v, html).Text? && MarshalItems(rest, html).Text?
    requires mid == i + |MarshalItem(v, html).text| && At(t, i, MarshalItem(v, html).text)
    requires mid < |t| && t[mid] == COMMA && At(t, mid + 1, MarshalItems(rest, html).text + [CLOSE_BRACKET])
    ensures ReadItems(t, i) == GotItems(mid + 1 + |MarshalItems(rest, html).text| + 1, [NormItem(v)] + NormItems(rest))
    decreases Max(Depth(v), DepthOf(rest)), |rest| + 3, 2
  {
    ItemReadsBack(v, html, t, i);
    MoreItems(NormItem(v), rest, html, t, i, mid);
  }

  /** The items after one that is read. */
  lemma {:induction false} MoreItems(v: Value, rest: seq<Value>, html: bool, t: Text, i: nat, mid: nat)
    requires |rest| > 0 && MarshalItems(rest, html).Text? && i <= |t| && ReadValue(t, i) == Got(mid, v)
    requires mid < |t| && t[mid] == COMMA && At(t, mid + 1, MarshalItems(rest, html).text + [CLOSE_BRACKET])
    ensures ReadItems(t, i) == GotItems(mid + 1 + |MarshalItems(rest, html).text| + 1, [v] + NormItems(rest))
    decreases DepthOf(rest), |rest| + 3, 1
  {
    ItemsReadBack(rest, html, t, mid + 1);
    NextItem(t, i, mid);
  }

  lemma MemberStep(t: Text, i: nat, mid: nat, key: Text, r: Read)
    requires i < |t| && t[i] == QUOTE && ReadString(t, i) == GotText(mid, key)
    requires mid < |t| && t[mid] == COLON && r == ReadValue(t, mid + 1) && r.Got?
    ensures ReadMember(t, i) == GotEntry(r.end, Entry(key, r.v))
  {
    NameStep(t, i, mid, key);
    NamedStep(t, mid, key, r);
  }

  lemma NameStep(t: Text, i: nat, mid: nat, key: Text)
    requires i < |t| && t[i] == QUOTE && ReadString(t, i) == GotText(mid, key) && mid < |t| && t[mid] == COLON
    ensures ReadMember(t, i) == ReadNamed(t, mid, key)
  {
    NoSkip(t, i);
    NoSkip(t, mid);
  }

  lemma NamedStep(t: Text, mid: nat, key: Text, r: Read)
    requires mid < |t| && t[mid] == COLON && r == ReadValue(t, mid + 1) && r.Got?
    ensures ReadNamed(t, mid, key) == GotEntry(r.end, Entry(key, r.v))
  {
  }

  lemma MemberParts(e: Entry, html: bool, t: Text, i: nat)
    requires MarshalMember(e, html).Text? && At(t, i, MarshalMember(e, html).text)
    ensures GoMarshal(e.value, html).Text?
    ensures |MarshalMember(e, html).text| == |GoJsonString(e.key, html)| + 1 + |GoMarshal(e.value, html).text|
    ensures At(t, i, GoJsonString(e.key, html))
    ensures i + |GoJsonString(e.key, html)| < |t| && t[i + |GoJsonString(e.key, html)|] == COLON
    ensures At(t, i + |GoJsonString(e.key, html)| + 1, GoMarshal(e.value, html).text)
  {
    ColonSplit(t, i, GoJsonString(e.key, html), GoMarshal(e.value, html).text);
  }

  lemma ColonSplit(t: Text, i: nat, key: Text, value: Text)
    requires At(t, i, key + [COLON] + value + [])
    ensures At(t, i, key) && i + |key| < |t| && t[i + |key|] == COLON && At(t, i + |key| + 1, value)
  {
    assert key + [COLON] + value + [] == key + ([COLON] + value);
    AtParts(t, i, key, [COLON] + value);
    AtParts(t, i + |key|, [COLON], value);
    FirstAt(t, i + |key|, [COLON]);
  }

  lemma {:induction false} MemberReadsBack(e: Entry, html: bool, t: Text, i: nat)
    requires MarshalMember(e, html).Text? && At(t, i, MarshalMember(e, html).text) &&
               Stop(t, i + |MarshalMember(e, html).text|)
    ensures ReadMember(t, i) == GotEntry(i + |MarshalMember(e, html).text|, NormEntry(e))
    decreases Depth(e.value), 3
  {
    MemberParts(e, html, t, i);
    StringReadsBack(t, i, e.key, html);
    NamedReadsBack(Repair(e.key), e.value, html, t, i, i + |GoJsonString(e.key, html)|);
  }

  /** A value after its name. */
  lemma {:induction false} NamedReadsBack(key: Text, v: Value, html: bool, t: Text, i: nat, mid: nat)
    requires i < |t| && t[i] == QUOTE && ReadString(t, i) == GotText(mid, key) && mid < |t| && t[mid] == COLON
    requires MarshalItem(v, html).Text? && At(t, mid + 1, MarshalItem(v, html).text)
    requires Stop(t, mid + 1 + |MarshalItem(v, html).text|)
    ensures ReadMember(t, i) == GotEntry(mid + 1 + |MarshalItem(v, html).text|, Entry(key, NormItem(v)))
    decreases Depth(v), 2
  {
    ItemReadsBack(v, html, t, mid + 1);
    MemberStep(t, i, mid, key, ReadValue(t, mid + 1));
  }

  lemma LastMember(t: Text, i: nat)
    requires i <= |t| && ReadMember(t, i).GotEntry?
    requires ReadMember(t, i).end < |t| && t[ReadMember(t, i).end] == CLOSE_BRACE
    ensures ReadMembers(t, i) == GotEntries(ReadMember(t, i).end + 1, [ReadMember(t, i).e])
  {
    NoSkip(t, ReadMember(t, i).end);
  }

  lemma NextMember(t: Text, i: nat, mid: nat)
    requires i <= |t| && ReadMember(t, i).GotEntry? && ReadMember(t, i).end == mid && mid < |t| && t[mid] == COMMA
    requires ReadMembers(t, mid + 1).GotEntries?
    ensures ReadMembers(t, i) ==
              GotEntries(ReadMembers(t, mid + 1).end, [ReadMember(t, i).e] + ReadMembers(t, mid + 1).entries)
  {
    NoSkip(t, mid);
  }

  lemma OneMember(entries: seq<Entry>, html: bool)
    requires |entries| == 1
    ensures MarshalMembers(entries, html) == MarshalMember(entries[0], html) &&
              NormEntries(entries) == [NormEntry(entries[0])]
  {
  }

  lemma {:induction false} LastMemberReadsBack(e: Entry, html: bool, t: Text, i: nat)
    requires MarshalMember(e, html).Text? && At(t, i, MarshalMember(e, html).text)
    requires i + |MarshalMember(e, html).text| < |t| && t[i + |MarshalMember(e, html).text|] == CLOSE_BRACE
    ensures ReadMembers(t, i) == GotEntries(i + |MarshalMember(e, html).text| + 1, [NormEntry(e)])
    decreases Depth(e.value), 4
  {
    MemberReadsBack(e, html, t, i);
    LastMember(t, i);
  }

  lemma {:induction false} OnlyMember(entries: seq<Entry>, html: bool, t: Text, i: nat)
    requires |entries| == 1 && MarshalMembers(entries, html).Text?
    requires At(t, i, MarshalMembers(entries, html).text + [CLOSE_BRACE])
    ensures ReadMembers(t, i) == GotEntries(i + |MarshalMembers(entries, html).text| + 1, NormEntries(entries))
    decreases EntryDepth(entries), |entries| + 4, 0
  {
    OneMember(entries, html);
    Followed(t, i, MarshalMembers(entries, html).text, CLOSE_BRACE);
    LastMemberReadsBack(entries[0], html, t, i);
  }

  lemma {:induction false} MembersReadBack(entries: seq<Entry>, html: bool, t: Text, i: nat)
    requires |entries| > 0 && MarshalMembers(entries, html).Text?
    requires At(t, i, MarshalMembers(entries, html).text + [CLOSE_BRACE])
    ensures ReadMembers(t, i) == GotEntries(i + |MarshalMembers(entries, html).text| + 1, NormEntries(entries))
    decreases EntryDepth(entries), |entries| + 4, 2
  {
    if |entries| == 1 {
      OnlyMember(entries, html, t, i);
    } else {
      ManyMembers(entries, html, t, i);
    }
  }

  lemma {:induction false} ManyMembers(entries: seq<Entry>, html: bool, t: Text, i: nat)
    requires |entries| > 1 && MarshalMembers(entries, html).Text?
    requires At(t, i, MarshalMembers(entries, html).text + [CLOSE_BRACE])
    ensures ReadMembers(t, i) == GotEntries(i + |MarshalMembers(entries, html).text| + 1, NormEntries(entries))
    decreases EntryDepth(entries), |entries| + 4, 1
  {
    MembersSplit(entries, html, t, i);
    MemberAndMore(entries[0], entries[1..], html, t, i, i + |MarshalMember(entries[0], html).text|);
  }

  lemma {:induction false} MemberAndMore(e: Entry, rest: seq<Entry>, html: bool, t: Text, i: nat, mid: nat)
    requires |rest| > 0 && MarshalMember(e, html).Text? && MarshalMembers(rest, html).Text?
    requires mid == i + |MarshalMember(e, html).text| && At(t, i, MarshalMember(e, html).text)
    requires mid < |t| && t[mid] == COMMA && At(t, mid + 1, MarshalMembers(rest, html).text + [CLOSE_BRACE])
    ensures ReadMembers(t, i) ==
              GotEntries(mid + 1 + |MarshalMembers(rest, html).text| + 1, [NormEntry(e)] + NormEntries(rest))
    decreases Max(Depth(e.value), EntryDepth(rest)), |rest| + 5, 0
  {
    MemberReadsBack(e, html, t, i);
    MoreMembers(NormEntry(e), rest, html, t, i, mid);
  }

  /** The members after one that is read. */
  lemma {:induction false} MoreMembers(e: Entry, rest: seq<Entry>, html: bool, t: Text, i: nat, mid: nat)
    requires |rest| > 0 && MarshalMembers(rest, html).Text? && i <= |t| && ReadMember(t, i) == GotEntry(mid, e)
    requires mid < |t| && t[mid] == COMMA && At(t, mid + 1, MarshalMembers(rest, html).text + [CLOSE_BRACE])
    ensures ReadMembers(t, i) == GotEntries(mid + 1 + |MarshalMembers(rest, html).text| + 1, [e] + NormEntries(rest))
    decreases EntryDepth(rest), |rest| + 4, 3
  {
    MembersReadBack(rest, html, t, mid + 1);
    NextMember(t, i, mid);
  }

  /** The printer is undone by the reader. */
  lemma MarshalReadsBack(v: Value, html: bool)
    requires GoMarshal(v, html).Text?
    ensures Parse(GoMarshal(v, html).text) == Some(Norm(v))
  {
    var text := GoMarshal(v, html).text;
    AtRest(text, 0);
    assert text[0..] == text;
    ValueReadsBack(v, html, text, 0);
  }
}
