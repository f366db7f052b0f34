/**
 * A reference reader of JSON texts, written from the grammar of RFC 8259 (sections 2 to 7) and not from the printer:
 * white space, every escape, fractions and exponents are all read. An object's members are kept as they stand.
 */
module JsonReader {
  import opened Basics
  import opened JsonText

  predicate IsSpace(c: Code) { c == 0x20 || c == 0x09 || c == 0x0a || c == 0x0d }

  function SkipSpace(t: Text, i: nat): (j: nat)
    requires i <= |t|
    ensures i <= j <= |t|
    decreases |t| - i
  {
    if i < |t| && IsSpace(t[i]) then SkipSpace(t, i + 1) else i
  }

  // ---- Strings (section 7) ----

  datatype UnitRead = NoUnit | Unit(len: nat, code: Code)

  /** The value of a hexadecimal digit of either case, 16 for anything else. */
  function HexValue(c: Code): nat {
    if 0x30 <= c <= 0x39 then c - 0x30
    else if 0x41 <= c <= 0x46 then c - 0x37
    else if 0x61 <= c <= 0x66 then c - 0x57
    else 16
  }

  function ReadHex(t: Text, i: nat): (r: UnitRead)
    ensures r.Unit? ==> r.len == 6 && i + 4 <= |t|
  {
    if i + 4 > |t| then NoUnit
    else
      var a, b, c, d := HexValue(t[i]), HexValue(t[i + 1]), HexValue(t[i + 2]), HexValue(t[i + 3]);
      if a == 16 || b == 16 || c == 16 || d == 16 then NoUnit else Unit(6, ((a * 16 + b) * 16 + c) * 16 + d)
  }

  /** What follows a backslash. */
  function ReadEscape(t: Text, i: nat): (r: UnitRead)
    requires i < |t|
    ensures r.Unit? ==> r.len >= 2 && i + r.len - 1 <= |t|
  {
    var c := t[i];
    if c == 0x22 || c == 0x5c || c == 0x2f then Unit(2, c)
    else if c == 0x62 then Unit(2, 0x08)
    else if c == 0x66 then Unit(2, 0x0c)
    else if c == 0x6e then Unit(2, 0x0a)
    else if c == 0x72 then Unit(2, 0x0d)
    else if c == 0x74 then Unit(2, 0x09)
    else if c == 0x75 then ReadHex(t, i + 1)
    else NoUnit
  }

  /** One code unit of a string's content. */
  function ReadUnit(t: Text, i: nat): (r: UnitRead)
    requires i < |t|
    ensures r.Unit? ==> r.len > 0 && i + r.len <= |t|
  {
    if t[i] == 0x5c then if i + 1 < |t| then ReadEscape(t, i + 1) else NoUnit
    else if t[i] >= 0x20 && t[i] != 0x22 then Unit(1, t[i])
    else NoUnit
  }

  datatype TextRead = NoText | GotText(end: nat, s: Text)

  function Before(c: Code, rest: TextRead): TextRead {
    if rest.NoText? then NoText else GotText(rest.end, [c] + rest.s)
  }

  /** A string's content from position i on, up to and with the closing quote. */
  function ReadContent(t: Text, i: nat): (r: TextRead)
    requires i <= |t|
    ensures r.GotText? ==> i < r.end <= |t|
    decreases |t| - i
  {
    if i == |t| then NoText
    else if t[i] == 0x22 then GotText(i + 1, [])
    else
      var u := ReadUnit(t, i);
      if u.NoUnit? then NoText else Before(u.code, ReadContent(t, i + u.len))
  }

  function ReadString(t: Text, i: nat): (r: TextRead)
    ensures r.GotText? ==> i < r.end <= |t|
  {
    if i < |t| && t[i] == 0x22 then ReadContent(t, i + 1) else NoText
  }

  // ---- Numbers (section 6) ----

  predicate IsDigit(c: Code) { 0x30 <= c <= 0x39 }

  predicate AllDigits(s: Text) { forall k :: 0 <= k < |s| ==> IsDigit(s[k]) }

  function DigitsEnd(t: Text, i: nat): (e: nat)
    requires i <= |t|
    ensures i <= e <= |t|
    ensures e < |t| ==> !IsDigit(t[e])
    decreases |t| - i
  {
    if i < |t| && IsDigit(t[i]) then DigitsEnd(t, i + 1) else i
  }

  /** The value of a run of digits. */
  function NatValue(s: Text): int {
    if |s| == 0 then 0
    else
      var last: int := s[|s| - 1];
      NatValue(s[..|s| - 1]) * 10 + (last - 0x30)
  }

  function WithSign(n: int, negative: bool): int {
    if negative then 0 - n else n
  }

  /** The same number with no trailing zero in its coefficient. */
  function Normalize(coeff: int, exp: int): (n: Number)
    ensures n.Finite?
    decreases if coeff < 0 then -coeff else coeff
  {
    if coeff == 0 then Finite(0, 0) else if coeff % 10 == 0 then Normalize(coeff / 10, exp + 1) else Finite(coeff, exp)
  }

  datatype DigitsRead = NoDigits | GotDigits(end: nat, digits: Text)

  /** int: a zero, or digits. */
  function ReadInt(t: Text, i: nat): (r: DigitsRead)
    requires i <= |t|
    ensures r.GotDigits? ==> i < r.end <= |t|
  {
    var e := DigitsEnd(t, i);
    if e == i then NoDigits else if t[i] == 0x30 then GotDigits(i + 1, [0x30]) else GotDigits(e, t[i..e])
  }

  /** frac: a point and at least one digit, or nothing. */
  function ReadFraction(t: Text, i: nat): (r: DigitsRead)
    requires i <= |t|
    ensures r.GotDigits? ==> i <= r.end <= |t|
  {
    if i < |t| && t[i] == 0x2e then
      var e := DigitsEnd(t, i + 1);
      if e == i + 1 then NoDigits else GotDigits(e, t[i + 1..e])
    else GotDigits(i, [])
  }

  datatype ExponentRead = NoExponent | Exponent(end: nat, value: int)

  function ReadExponent(t: Text, i: nat): (r: ExponentRead)
    requires i <= |t|
    ensures r.Exponent? ==> i <= r.end <= |t|
  {
    if i < |t| && (t[i] == 0x65 || t[i] == 0x45) then
      var g := if i + 1 < |t| && (t[i + 1] == 0x2b || t[i + 1] == 0x2d) then i + 2 else i + 1;
      var h := DigitsEnd(t, g);
      if h == g then NoExponent
      else Exponent(h, WithSign(NatValue(t[g..h]), t[i + 1] == 0x2d))
    else Exponent(i, 0)
  }

  function ToNumber(whole: Text, fraction: Text, exponent: int, negative: bool): Number {
    Normalize(WithSign(NatValue(whole + fraction), negative), exponent - |fraction|)
  }

  datatype MagnitudeRead = NoMagnitude | Magnitude(end: nat, whole: Text, fraction: Text, exponent: int)

  /** int [frac] [exp], in parts. */
  function ReadMagnitude(t: Text, j: nat): (r: MagnitudeRead)
    requires j <= |t|
    ensures r.Magnitude? ==> j < r.end <= |t|
  {
    var a := ReadInt(t, j);
    if a.NoDigits? then NoMagnitude
    else
      var b := ReadFraction(t, a.end);
      if b.NoDigits? then NoMagnitude
      else
        var x := ReadExponent(t, b.end);
        if x.NoExponent? then NoMagnitude else Magnitude(x.end, a.digits, b.digits, x.value)
  }

  datatype NumberRead = NoNumber | GotNumber(end: nat, n: Number)

  function ReadNumber(t: Text, i: nat): (r: NumberRead)
    requires i <= |t|
    ensures r.GotNumber? ==> i < r.end <= |t|
  {
    var negative := i < |t| && t[i] == 0x2d;
    var m := ReadMagnitude(t, if negative then i + 1 else i);
    if m.NoMagnitude? then NoNumber else GotNumber(m.end, ToNumber(m.whole, m.fraction, m.exponent, negative))
  }

  // ---- Values (sections 3 to 5) ----

  /** The text u stands at position i. */
  predicate At(t: Text, i: nat, u: Text): (b: bool)
    ensures b ==> i + |u| <= |t|
    decreases |u|
  {
    if |u| == 0 then i <= |t| else i < |t| && t[i] == u[0] && At(t, i + 1, u[1..])
  }

  datatype Read = Fail | Got(end: nat, v: Value)

  datatype ItemsRead = NoItems | GotItems(end: nat, items: seq<Value>)

  datatype EntriesRead = NoEntries | GotEntries(end: nat, entries: seq<Entry>)

  /** null, true, false or a number. */
  function ReadScalar(t: Text, j: nat): (r: Read)
    requires j <= |t|
    ensures r.Got? ==> j < r.end <= |t|
  {
    if At(t, j, [0x6e, 0x75, 0x6c, 0x6c]) then Got(j + 4, Null)
    else if At(t, j, [0x74, 0x72, 0x75, 0x65]) then Got(j + 4, Bool(true))
    else if At(t, j, [0x66, 0x61, 0x6c, 0x73, 0x65]) then Got(j + 5, Bool(false))
    else
      var n := ReadNumber(t, j);
      if n.NoNumber? then Fail else Got(n.end, Num(n.n))
  }

  /** A value and the white space before it. */
  function ReadValue(t: Text, i: nat): (r: Read)
    requires i <= |t|
    ensures r.Got? ==> i < r.end <= |t|
    decreases |t| - i, 0
  {
    var j := SkipSpace(t, i);
    if j == |t| then Fail
    else if t[j] == 0x22 then
      var s := ReadString(t, j);
      if s.NoText? then Fail else Got(s.end, Str(s.s))
    else if t[j] == 0x5b then ReadArray(t, j + 1)
    else if t[j] == 0x7b then ReadObject(t, j + 1)
    else ReadScalar(t, j)
  }

  /** The rest of an array, after its opening bracket. */
  function ReadArray(t: Text, i: nat): (r: Read)
    requires i <= |t|
    ensures r.Got? ==> i < r.end <= |t|
    decreases |t| - i, 2
  {
    var k := SkipSpace(t, i);
    if k < |t| && t[k] == 0x5d then Got(k + 1, Arr([]))
    else
      var l := ReadItems(t, k);
      if l.NoItems? then Fail else Got(l.end, Arr(l.items))
  }

  /** The rest of an object, after its opening brace. */
  function ReadObject(t: Text, i: nat): (r: Read)
    requires i <= |t|
    ensures r.Got? ==> i < r.end <= |t|
    decreases |t| - i, 3
  {
    var k := SkipSpace(t, i);
    if k < |t| && t[k] == 0x7d then Got(k + 1, Obj([]))
    else
      var l := ReadMembers(t, k);
      if l.NoEntries? then Fail else Got(l.end, Obj(l.entries))
  }

  /** One or more values separated by commas, up to and with the closing bracket. */
  function ReadItems(t: Text, i: nat): (r: ItemsRead)
    requires i <= |t|
    ensures r.GotItems? ==> i < r.end <= |t|
    decreases |t| - i, 1
  {
    var v := ReadValue(t, i);
    if v.Fail? then NoItems
    else
      var k := SkipSpace(t, v.end);
      if k == |t| then NoItems
      else if t[k] == 0x5d then GotItems(k + 1, [v.v])
      else if t[k] == 0x2c then
        var rest := ReadItems(t, k + 1);
        if rest.NoItems? then NoItems else GotItems(rest.end, [v.v] + rest.items)
      else NoItems
  }

  datatype EntryRead = NoEntry | GotEntry(end: nat, e: Entry)

  /** A name, a colon and a value. */
  function ReadMember(t: Text, i: nat): (r: EntryRead)
    requires i <= |t|
    ensures r.GotEntry? ==> i < r.end <= |t|
    decreases |t| - i, 1
  {
    var s := ReadString(t, SkipSpace(t, i));
    if s.NoText? then NoEntry
    else ReadNamed(t, SkipSpace(t, s.end), s.s)
  }

  /** A colon and the value of the name before it. */
  function ReadNamed(t: Text, k: nat, name: Text): (r: EntryRead)
    requires k <= |t|
    ensures r.GotEntry? ==> k < r.end <= |t|
    decreases |t| - k, 1
  {
    if k == |t| || t[k] != 0x3a then NoEntry
    else
      var v := ReadValue(t, k + 1);
      if v.Fail? then NoEntry else GotEntry(v.end, Entry(name, v.v))
  }

  /** One or more members separated by commas, up to and with the closing brace. */
  function ReadMembers(t: Text, i: nat): (r: EntriesRead)
    requires i <= |t|
    ensures r.GotEntries? ==> i < r.end <= |t|
    decreases |t| - i, 2
  {
    var m := ReadMember(t, i);
    if m.NoEntry? then NoEntries
    else
      var k := SkipSpace(t, m.end);
      if k == |t| then NoEntries
      else if t[k] == 0x7d then GotEntries(k + 1, [m.e])
      else if t[k] == 0x2c then
        var rest := ReadMembers(t, k + 1);
        if rest.NoEntries? then NoEntries else GotEntries(rest.end, [m.e] + rest.entries)
      else NoEntries
  }

  /** A whole JSON text: a value and white space. */
  function Parse(t: Text): Option<Value> {
    var r := ReadValue(t, 0);
    if r.Got? && SkipSpace(t, r.end) == |t| then Some(r.v) else None
  }
}
