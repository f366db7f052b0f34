/**
 * The order of printed keys (src/core/gojson.ts:101-105, 123): code unit order, where Go sorts the bytes of the UTF-8
 * form. The two agree on ASCII keys; here is exactly where they do not. Encodings: section 3.9
 * (D91, D92) of the Unicode Standard, and section 3 of RFC 3629.
 */
module KeyOrder {
  import opened JsonText

  /** A Unicode scalar value. */
  type Scalar = p: int | 0 <= p < 0xd800 || 0xe000 <= p <= 0x10ffff

  // ---- The two encodings ----

  function Units(p: Scalar): (u: Text)
    ensures |u| > 0
  {
    if p < 0x10000 then [p] else [0xd800 + (p - 0x10000) / 0x400, 0xdc00 + (p - 0x10000) % 0x400]
  }

  function Utf16(ps: seq<Scalar>): Text {
    if |ps| == 0 then [] else Units(ps[0]) + Utf16(ps[1..])
  }

  /** The bytes of one scalar value, each a number below 256. */
  function Bytes(p: Scalar): (b: Text)
    ensures |b| > 0
  {
    if p < 0x80 then [p]
    else if p < 0x800 then [0xc0 + p / 0x40, 0x80 + p % 0x40]
    else if p < 0x10000 then [0xe0 + p / 0x1000, 0x80 + p / 0x40 % 0x40, 0x80 + p % 0x40]
    else [0xf0 + p / 0x40000, 0x80 + p / 0x1000 % 0x40, 0x80 + p / 0x40 % 0x40, 0x80 + p % 0x40]
  }

  function Utf8(ps: seq<Scalar>): Text {
    if |ps| == 0 then [] else Bytes(ps[0]) + Utf8(ps[1..])
  }

  /** The scalar value that starts at position i of a well-formed text. */
  function ScalarAt(s: Text, i: nat): Scalar
    requires i < |s| && WellFormedFrom(s, i)
  {
    if PairAt(s, i) then 0x10000 + (s[i] as int - 0xd800) * 0x400 + (s[i + 1] as int - 0xdc00) else s[i]
  }

  function ScalarsFrom(s: Text, i: nat): seq<Scalar>
    requires i <= |s| && WellFormedFrom(s, i)
    decreases |s| - i
  {
    if i == |s| then [] else [ScalarAt(s, i)] + ScalarsFrom(s, i + Width(s, i))
  }

  function Scalars(s: Text): seq<Scalar>
    requires WellFormed(s)
  {
    ScalarsFrom(s, 0)
  }

  lemma UnitsOfScalarAt(s: Text, i: nat)
    requires i < |s| && WellFormedFrom(s, i)
    ensures Units(ScalarAt(s, i)) == s[i..i + Width(s, i)]
  {
  }

  lemma {:induction false} ScalarsEncode(s: Text, i: nat)
    requires i <= |s| && WellFormedFrom(s, i)
    ensures Utf16(ScalarsFrom(s, i)) == s[i..]
    decreases |s| - i
  {
    if i < |s| {
      var w := Width(s, i);
      UnitsOfScalarAt(s, i);
      ScalarsEncode(s, i + w);
      assert s[i..] == s[i..i + w] + s[i + w..];
    }
  }

  /** The order in which Go sorts two keys: by the bytes of their UTF-8 forms. */
  predicate GoLess(a: Text, b: Text)
    requires WellFormed(a) && WellFormed(b)
  {
    Less(Utf8(Scalars(a)), Utf8(Scalars(b)))
  }

  // ---- Where the orders part ----

  /** One half of a surrogate pair against a unit above the surrogates. */
  predicate Swapped(x: Code, y: Code) {
    ((IsHigh(x) || IsLow(x)) && y >= 0xe000) || ((IsHigh(y) || IsLow(y)) && x >= 0xe000)
  }

  /** The first difference of two texts is such a pair of units. */
  predicate Crossed(a: Text, b: Text) {
    |a| > 0 && |b| > 0 && (if a[0] == b[0] then Crossed(a[1..], b[1..]) else Swapped(a[0], b[0]))
  }

  lemma {:induction false} SamePrefix(x: Text, a: Text, b: Text)
    ensures Less(x + a, x + b) <==> Less(a, b)
    ensures Crossed(x + a, x + b) <==> Crossed(a, b)
  {
    if |x| == 0 {
      assert x + a == a && x + b == b;
    } else {
      assert (x + a)[1..] == x[1..] + a && (x + b)[1..] == x[1..] + b;
      SamePrefix(x[1..], a, b);
    }
  }

  /** The first difference decides. */
  lemma FirstDifference(a: Text, b: Text, i: nat)
    requires i < |a| && i < |b| && a[..i] == b[..i] && a[i] != b[i]
    ensures Less(a, b) <==> a[i] < b[i]
    ensures Less(b, a) <==> b[i] < a[i]
    ensures (Crossed(a, b) <==> Swapped(a[i], b[i])) && (Crossed(b, a) <==> Swapped(a[i], b[i]))
  {
    assert a == a[..i] + a[i..] && b == a[..i] + b[i..];
    SamePrefix(a[..i], a[i..], b[i..]);
    SamePrefix(a[..i], b[i..], a[i..]);
  }

  /** One digit to the base 64: the rest decides, and the digit if the rest is the same. */
  lemma Digit(p: nat, q: nat)
    requires p < q
    ensures p / 0x40 < q / 0x40 || (p / 0x40 == q / 0x40 && p % 0x40 < q % 0x40)
  {
  }

  lemma Rest(p: nat)
    ensures p / 0x1000 == p / 0x40 / 0x40 && p / 0x40000 == p / 0x1000 / 0x40
  {
  }

  /** The first byte tells how many there are. */
  lemma FirstByte(p: Scalar)
    ensures p < 0x80 ==> |Bytes(p)| == 1 && Bytes(p)[0] < 0x80
    ensures 0x80 <= p < 0x800 ==> |Bytes(p)| == 2 && 0xc0 <= Bytes(p)[0] < 0xe0
    ensures 0x800 <= p < 0x10000 ==> |Bytes(p)| == 3 && 0xe0 <= Bytes(p)[0] < 0xf0
    ensures 0x10000 <= p ==> |Bytes(p)| == 4 && 0xf0 <= Bytes(p)[0]
  {
  }

  /** Two byte sequences first differ at position i, where a has the smaller byte. */
  predicate LessAt(a: Text, b: Text, i: nat) {
    i < |a| && i < |b| && a[..i] == b[..i] && a[i] < b[i]
  }

  lemma TwoBytes(p: Scalar, q: Scalar)
    requires 0x80 <= p < q < 0x800
    ensures LessAt(Bytes(p), Bytes(q), if p / 0x40 < q / 0x40 then 0 else 1)
  {
    Digit(p, q);
  }

  lemma ThreeBytes(p: Scalar, q: Scalar)
    requires 0x800 <= p < q < 0x10000
    ensures LessAt(Bytes(p), Bytes(q), if p / 0x1000 < q / 0x1000 then 0 else if p / 0x40 < q / 0x40 then 1 else 2)
  {
    Rest(p);
    Rest(q);
    Digit(p, q);
    if p / 0x40 < q / 0x40 { Digit(p / 0x40, q / 0x40); }
  }

  lemma FourBytes(p: Scalar, q: Scalar)
    requires 0x10000 <= p < q
    ensures LessAt(Bytes(p), Bytes(q),
                   if p / 0x40000 < q / 0x40000 then 0 else if p / 0x1000 < q / 0x1000 then 1
                   else if p / 0x40 < q / 0x40 then 2 else 3)
  {
    Rest(p);
    Rest(q);
    Digit(p, q);
    if p / 0x40 < q / 0x40 {
      Digit(p / 0x40, q / 0x40);
      if p / 0x1000 < q / 0x1000 { Digit(p / 0x1000, q / 0x1000); }
    }
  }

  lemma SameLength(p: Scalar, q: Scalar) returns (i: nat)
    requires p < q && |Bytes(p)| == |Bytes(q)|
    ensures LessAt(Bytes(p), Bytes(q), i)
  {
    FirstByte(p);
    FirstByte(q);
    if q < 0x80 {
      i := 0;
    } else if q < 0x800 {
      TwoBytes(p, q);
      i := if p / 0x40 < q / 0x40 then 0 else 1;
    } else if q < 0x10000 {
      ThreeBytes(p, q);
      i := if p / 0x1000 < q / 0x1000 then 0 else if p / 0x40 < q / 0x40 then 1 else 2;
    } else {
      FourBytes(p, q);
      i := if p / 0x40000 < q / 0x40000 then 0 else if p / 0x1000 < q / 0x1000 then 1
           else if p / 0x40 < q / 0x40 then 2 else 3;
    }
  }

  /** The bytes of two scalar values differ first where the larger one has the larger byte. */
  lemma BytesDiffer(p: Scalar, q: Scalar) returns (i: nat)
    requires p < q
    ensures LessAt(Bytes(p), Bytes(q), i)
  {
    if |Bytes(p)| == |Bytes(q)| {
      i := SameLength(p, q);
    } else {
      i := 0;
      FirstByte(p);
      FirstByte(q);
    }
  }

  lemma UnitsDiffer(p: Scalar, q: Scalar) returns (i: nat)
    requires p < q
    ensures i < |Units(p)| && i < |Units(q)| && Units(p)[..i] == Units(q)[..i] && Units(p)[i] != Units(q)[i]
    ensures Swapped(Units(p)[i], Units(q)[i]) <==> 0xe000 <= p < 0x10000 <= q
    ensures Units(p)[i] < Units(q)[i] <==> !Swapped(Units(p)[i], Units(q)[i])
  {
    i := if Units(p)[0] != Units(q)[0] then 0 else 1;
  }

  lemma Extend(a: Text, b: Text, x: Text, y: Text, i: nat)
    requires i < |a| && i < |b| && a[..i] == b[..i] && a[i] != b[i]
    ensures Less(a + x, b + y) <==> a[i] < b[i]
    ensures Less(b + y, a + x) <==> b[i] < a[i]
    ensures (Crossed(a + x, b + y) <==> Swapped(a[i], b[i])) && (Crossed(b + y, a + x) <==> Swapped(a[i], b[i]))
  {
    assert (a + x)[..i] == a[..i] && (b + y)[..i] == b[..i];
    FirstDifference(a + x, b + y, i);
  }

  /** Go's order of two sequences of scalar values is code unit order, turned around where they cross. */
  predicate Agree(bytesLess: bool, a: Text, b: Text) {
    bytesLess <==> if Crossed(a, b) then Less(b, a) else Less(a, b)
  }

  lemma HeadsDiffer(p: Scalar, q: Scalar, ps: seq<Scalar>, qs: seq<Scalar>)
    requires p < q
    ensures Agree(Less(Bytes(p) + Utf8(ps), Bytes(q) + Utf8(qs)), Units(p) + Utf16(ps), Units(q) + Utf16(qs))
    ensures Agree(Less(Bytes(q) + Utf8(qs), Bytes(p) + Utf8(ps)), Units(q) + Utf16(qs), Units(p) + Utf16(ps))
  {
    var i := BytesDiffer(p, q);
    Extend(Bytes(p), Bytes(q), Utf8(ps), Utf8(qs), i);
    var j := UnitsDiffer(p, q);
    Extend(Units(p), Units(q), Utf16(ps), Utf16(qs), j);
  }

  lemma {:induction false} EncodingsAgree(ps: seq<Scalar>, qs: seq<Scalar>)
    ensures Agree(Less(Utf8(ps), Utf8(qs)), Utf16(ps), Utf16(qs))
  {
    if |ps| > 0 && |qs| > 0 {
      if ps[0] == qs[0] {
        EncodingsAgree(ps[1..], qs[1..]);
        SamePrefix(Bytes(ps[0]), Utf8(ps[1..]), Utf8(qs[1..]));
        SamePrefix(Units(ps[0]), Utf16(ps[1..]), Utf16(qs[1..]));
        SamePrefix(Units(ps[0]), Utf16(qs[1..]), Utf16(ps[1..]));
      } else if ps[0] < qs[0] {
        HeadsDiffer(ps[0], qs[0], ps[1..], qs[1..]);
      } else {
        HeadsDiffer(qs[0], ps[0], qs[1..], ps[1..]);
      }
    }
  }

  /**
   * For different well-formed keys code unit order is Go's order if and only if their first difference is not half a
   * surrogate pair against a unit from U+E000 on; there it is the opposite one.
   */
  lemma OrdersAgreeIff(a: Text, b: Text)
    requires WellFormed(a) && WellFormed(b) && a != b
    ensures (Less(a, b) <==> GoLess(a, b)) <==> !Crossed(a, b)
    ensures Crossed(a, b) ==> (Less(a, b) <==> GoLess(b, a))
  {
    ScalarsEncode(a, 0);
    ScalarsEncode(b, 0);
    assert a[0..] == a && b[0..] == b;
    EncodingsAgree(Scalars(a), Scalars(b));
    EncodingsAgree(Scalars(b), Scalars(a));
    CrossedSymmetric(a, b);
    LessTotal(a, b);
    LessAntisymmetric(a, b);
  }

  lemma {:induction false} CrossedSymmetric(a: Text, b: Text)
    ensures Crossed(a, b) <==> Crossed(b, a)
  {
    if |a| > 0 && |b| > 0 && a[0] == b[0] { CrossedSymmetric(a[1..], b[1..]); }
  }

  lemma LessAntisymmetric(a: Text, b: Text)
    ensures !(Less(a, b) && Less(b, a))
  {
    if Less(a, b) && Less(b, a) {
      LessTrans(a, b, a);
      LessIrreflexive(a);
    }
  }

  predicate Plain(a: Text) {
    forall i :: 0 <= i < |a| ==> a[i] < 0xd800
  }

  lemma {:induction false} PlainNotCrossed(a: Text, b: Text)
    requires Plain(a) && Plain(b)
    ensures !Crossed(a, b)
  {
    if |a| > 0 && |b| > 0 && a[0] == b[0] { PlainNotCrossed(a[1..], b[1..]); }
  }

  lemma {:induction false} PlainWellFormed(a: Text, i: nat)
    requires i <= |a| && Plain(a)
    ensures WellFormedFrom(a, i)
    decreases |a| - i
  {
    if i < |a| { PlainWellFormed(a, i + 1); }
  }

  /** Keys below the surrogates, the ASCII ones among them, sort as Go sorts them. */
  lemma PlainKeysAgree(a: Text, b: Text)
    requires Plain(a) && Plain(b)
    ensures WellFormed(a) && WellFormed(b) && (Less(a, b) <==> GoLess(a, b))
  {
    PlainWellFormed(a, 0);
    PlainWellFormed(b, 0);
    PlainNotCrossed(a, b);
    if a == b {
      LessIrreflexive(a);
      LessIrreflexive(Utf8(Scalars(a)));
    } else {
      OrdersAgreeIff(a, b);
    }
  }

  /** U+10000 is after U+E000 for Go, and before it in code unit order. */
  lemma OrdersPart()
    ensures var a, b := [0xd800, 0xdc00], [0xe000];
            WellFormed(a) && WellFormed(b) && Less(a, b) && GoLess(b, a)
  {
    var a, b: Text := [0xd800, 0xdc00], [0xe000];
    assert WellFormedFrom(a, 2) && WellFormedFrom(b, 1);
    assert Crossed(a, b);
    OrdersAgreeIff(a, b);
  }
}
