/**
 * The Go-compatible JSON printer of src/core/gojson.ts: `goJsonString` (25-79) and `goMarshal` (98-125).
 */
module GoJson {
  import opened Basics
  import opened JsonText

  const QUOTE: Code := 0x22
  const COMMA: Code := 0x2c
  const MINUS: Code := 0x2d
  const POINT: Code := 0x2e
  const COLON: Code := 0x3a
  const BACKSLASH: Code := 0x5c
  const OPEN_BRACKET: Code := 0x5b
  const CLOSE_BRACKET: Code := 0x5d
  const OPEN_BRACE: Code := 0x7b
  const CLOSE_BRACE: Code := 0x7d
  const LETTER_E: Code := 0x65
  const LETTER_U: Code := 0x75
  const PLUS: Code := 0x2b

  const NULL_TEXT: Text := [0x6e, 0x75, 0x6c, 0x6c]
  const TRUE_TEXT: Text := [0x74, 0x72, 0x75, 0x65]
  const FALSE_TEXT: Text := [0x66, 0x61, 0x6c, 0x73, 0x65]

  // ---- Strings ----

  function HexDigit(d: nat): Code
    requires d < 16
  {
    if d < 10 then 0x30 + d else 0x57 + d
  }

  /** The escape of a control character, or of one HTML treats specially. */
  function ShortEscape(c: Code): Text
    requires c < 0x80
  {
    if c == 0x08 then [BACKSLASH, 0x62]
    else if c == 0x0c then [BACKSLASH, 0x66]
    else if c == 0x0a then [BACKSLASH, 0x6e]
    else if c == 0x0d then [BACKSLASH, 0x72]
    else if c == 0x09 then [BACKSLASH, 0x74]
    else [BACKSLASH, LETTER_U, 0x30, 0x30, HexDigit(c / 16), HexDigit(c % 16)]
  }

  predicate HtmlSpecial(c: Code) { c == 0x3c || c == 0x3e || c == 0x26 }

  /** What is written for the character at position i. */
  function Escaped(s: Text, i: nat, html: bool): (r: Text)
    requires i < |s|
    ensures |r| > 0
  {
    var c := s[i];
    if c < 0x80 then
      if c == QUOTE then [BACKSLASH, QUOTE]
      else if c == BACKSLASH then [BACKSLASH, BACKSLASH]
      else if c >= 0x20 && !(html && HtmlSpecial(c)) then [c]
      else ShortEscape(c)
    else if c == 0x2028 || c == 0x2029 then [BACKSLASH, LETTER_U, 0x32, 0x30, 0x32, HexDigit(c % 16)]
    else if PairAt(s, i) then [s[i], s[i + 1]]
    else if IsHigh(c) || IsLow(c) then [BACKSLASH, LETTER_U, 0x66, 0x66, 0x66, 0x64]
    else [c]
  }

  function EscapedFrom(s: Text, i: nat, html: bool): Text
    requires i <= |s|
    decreases |s| - i
  {
    if i == |s| then [] else Escaped(s, i, html) + EscapedFrom(s, i + Width(s, i), html)
  }

  function GoJsonString(s: Text, html: bool): Text {
    [QUOTE] + EscapedFrom(s, 0, html) + [QUOTE]
  }

  /** The body of the loop of `goJsonString`: the branches for the character at position i. */
  method AppendCharacter(out: Text, s: Text, i: nat, html: bool) returns (out': Text, next: nat)
    requires i < |s|
    ensures out' == out + Escaped(s, i, html) && next == i + Width(s, i)
  {
    var c := s[i];
    next := i;
    if c < 0x80 {
      if c == 0x22 { out' := out + [0x5c, 0x22]; }
      else if c == 0x5c { out' := out + [0x5c, 0x5c]; }
      else if c >= 0x20 && !(html && (c == 0x3c || c == 0x3e || c == 0x26)) { out' := out + [c]; }
      else { out' := out + ShortEscape(c); }
    } else if c == 0x2028 || c == 0x2029 {
      out' := out + [0x5c, 0x75, 0x32, 0x30, 0x32, HexDigit(c % 16)];
    } else if 0xd800 <= c <= 0xdbff {
      if i + 1 < |s| && 0xdc00 <= s[i + 1] <= 0xdfff {
        out' := out + [c, s[i + 1]];
        next := next + 1;
      } else {
        out' := out + [0x5c, 0x75, 0x66, 0x66, 0x66, 0x64];
      }
    } else if 0xdc00 <= c <= 0xdfff {
      out' := out + [0x5c, 0x75, 0x66, 0x66, 0x66, 0x64];
    } else {
      out' := out + [c];
    }
    next := next + 1;
  }

  /** `goJsonString` as the source writes it, appending to `out`. */
  method GoJsonStringLoop(s: Text, html: bool) returns (out: Text)
    ensures out == GoJsonString(s, html)
  {
    ghost var whole := [QUOTE] + EscapedFrom(s, 0, html);
    out := [QUOTE];
    var i := 0;
    while i < |s|
      invariant i <= |s|
      invariant out + EscapedFrom(s, i, html) == whole
    {
      EscapedStep(s, i, html, out, whole);
      out, i := AppendCharacter(out, s, i, html);
    }
    assert out == whole;
    out := out + [QUOTE];
  }

  lemma EscapedStep(s: Text, i: nat, html: bool, out: Text, whole: Text)
    requires i < |s| && out + EscapedFrom(s, i, html) == whole
    ensures out + Escaped(s, i, html) + EscapedFrom(s, i + Width(s, i), html) == whole
  {
  }

  // ---- Numbers ----

  function NatText(n: nat): (t: Text)
    ensures |t| > 0
  {
    if n < 10 then [0x30 + n] else NatText(n / 10) + [0x30 + n % 10]
  }

  function Zeros(k: nat): (t: Text)
    ensures |t| == k
  {
    if k == 0 then [] else Zeros(k - 1) + [0x30]
  }

  function Abs(n: int): nat {
    if n < 0 then -n else n
  }

  /** A digit, the other digits after a point, and an exponent. */
  function PointText(first: Text, rest: Text, exponent: Text): Text {
    first + ([POINT] + (rest + ([LETTER_E, PLUS] + exponent)))
  }

  function Scientific(digits: Text, exponent: Text): Text
    requires |digits| > 0
  {
    if |digits| == 1 then digits + ([LETTER_E, PLUS] + exponent) else PointText(digits[..1], digits[1..], exponent)
  }

  /**
   * `String` of an integral number: plain digits up to 21 of them, else with an exponent (Number::toString of
   * ECMA-262).
   */
  function MagnitudeText(digits: Text, exp: nat): Text
    requires |digits| > 0
  {
    if |digits| + exp <= 21 then digits + Zeros(exp) else Scientific(digits, NatText(|digits| + exp - 1))
  }

  function NumberText(n: Number): Text
    requires n.Integer()
  {
    (if n.coeff < 0 then [MINUS] else []) + MagnitudeText(NatText(Abs(n.coeff)), n.exp)
  }

  // ---- Values ----

  /** The text, or the number `goMarshal` throws on. */
  datatype Printed = Text(text: Text) | Unsupported(n: Number)
  {
    /** This text inside others, or this failure. */
    function Between(before: Text, after: Text): Printed {
      if Text? then Text(before + text + after) else this
    }
  }

  /** One text after another; the first failure wins. */
  function Joined(a: Printed, separator: Text, b: Printed): Printed {
    if a.Unsupported? then a else if b.Unsupported? then b else Text(a.text + separator + b.text)
  }

  function GoMarshal(v: Value, html: bool): Printed
    decreases Depth(v), 0
  {
    match v
    case Null => Text(NULL_TEXT)
    case Bool(b) => Text(if b then TRUE_TEXT else FALSE_TEXT)
    case Num(n) => if n.Integer() then Text(NumberText(n)) else Unsupported(n)
    case Str(s) => Text(GoJsonString(s, html))
    case Arr(items) => MarshalArray(items, html)
    case Struct(fields) => MarshalFields(fields, html)
    case Obj(entries) => MarshalObject(entries, html)
  }

  function MarshalArray(items: seq<Value>, html: bool): Printed
    decreases DepthOf(items), |items| + 2
  {
    MarshalItems(items, html).Between([OPEN_BRACKET], [CLOSE_BRACKET])
  }

  function MarshalFields(fields: seq<Entry>, html: bool): Printed
    decreases EntryDepth(fields), |fields| + 2
  {
    MarshalMembers(fields, html).Between([OPEN_BRACE], [CLOSE_BRACE])
  }

  /** The entries by key. */
  function MarshalObject(entries: seq<Entry>, html: bool): Printed
    decreases EntryDepth(entries), |entries| + 3
  {
    AmongDepth(SortEntries(entries), entries);
    MarshalFields(SortEntries(entries), html)
  }

  /** One element, as `map` hands it on. */
  function MarshalItem(v: Value, html: bool): Printed
    decreases Depth(v), 1
  {
    GoMarshal(v, html)
  }

  function MarshalItems(items: seq<Value>, html: bool): Printed
    decreases DepthOf(items), |items| + 1
  {
    if |items| == 0 then Text([])
    else if |items| == 1 then MarshalItem(items[0], html)
    else Joined(MarshalItem(items[0], html), [COMMA], MarshalItems(items[1..], html))
  }

  function MarshalMember(e: Entry, html: bool): Printed
    decreases Depth(e.value), 1
  {
    GoMarshal(e.value, html).Between(GoJsonString(e.key, html) + [COLON], [])
  }

  function MarshalMembers(entries: seq<Entry>, html: bool): Printed
    decreases EntryDepth(entries), |entries| + 1
  {
    if |entries| == 0 then Text([])
    else if |entries| == 1 then MarshalMember(entries[0], html)
    else Joined(MarshalMember(entries[0], html), [COMMA], MarshalMembers(entries[1..], html))
  }
}
