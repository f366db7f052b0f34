/**
 * What the printed text itself looks like (src/core/gojson.ts:17-25, 98-125), which a reader does not tell: Go hashes
 * the bytes, and a reader takes `<` and `\u003c` alike. Code units are written as numbers here.
 */
module JsonEscapes {
  import opened Basics
  import opened JsonText
  import opened GoJson

  // ---- One character ----

  /** What stands between the quotes. */
  function Inside(s: Text, html: bool): Text {
    var t := GoJsonString(s, html);
    if |t| >= 2 then t[1..|t| - 1] else []
  }

  lemma InsideIs(s: Text, html: bool)
    ensures GoJsonString(s, html) == [0x22] + Inside(s, html) + [0x22] && Inside(s, html) == EscapedFrom(s, 0, html)
  {
    var e := EscapedFrom(s, 0, html);
    assert GoJsonString(s, html) == [0x22] + e + [0x22];
    assert ([0x22] + e + [0x22])[1..|e| + 1] == e;
  }

  /** The letter of a short form, for the seven units that have one. */
  predicate ShortForm(c: Code, letter: Code) {
    || (c == 0x08 && letter == 0x62) || (c == 0x09 && letter == 0x74) || (c == 0x0a && letter == 0x6e)
    || (c == 0x0c && letter == 0x66) || (c == 0x0d && letter == 0x72) || (c == 0x22 && letter == 0x22)
    || (c == 0x5c && letter == 0x5c)
  }

  predicate HasShortForm(c: Code) {
    c in {0x08, 0x09, 0x0a, 0x0c, 0x0d, 0x22, 0x5c}
  }

  /** The other units that must not stand as they are; DEL may. */
  predicate NeedsHex(c: Code, html: bool) {
    || (c < 0x20 && !HasShortForm(c))
    || (html && c in {0x26, 0x3c, 0x3e})
    || c in {0x2028, 0x2029}
    || 0xd800 <= c <= 0xdfff
  }

  predicate IsLowerHex(c: Code) {
    0x30 <= c <= 0x39 || 0x61 <= c <= 0x66
  }

  function HexValue(c: Code): nat {
    if c < 0x61 then if c < 0x30 then 0 else c - 0x30 else c - 0x57
  }

  /** A backslash, a `u` and four lower-case hexadecimal digits of this value. */
  predicate HexForm(t: Text, value: nat) {
    && |t| == 6 && t[0] == 0x5c && t[1] == 0x75
    && (forall k :: 2 <= k < 6 ==> IsLowerHex(t[k]))
    && HexValue(t[2]) * 0x1000 + HexValue(t[3]) * 0x100 + HexValue(t[4]) * 0x10 + HexValue(t[5]) == value
  }

  lemma OneUnit(c: Code, html: bool)
    ensures Inside([c], html) == Escaped([c], 0, html)
  {
    InsideIs([c], html);
    assert EscapedFrom([c], 1, html) == [];
  }

  /**
   * A single code unit is written as its short form exactly if it has one, in hexadecimal exactly if it must be, a lone
   * surrogate as U+FFFD, and otherwise as it is.
   */
  lemma UnitText(c: Code, html: bool)
    ensures if HasShortForm(c) then
              |Inside([c], html)| == 2 && Inside([c], html)[0] == 0x5c && ShortForm(c, Inside([c], html)[1])
            else if NeedsHex(c, html) then HexForm(Inside([c], html), if 0xd800 <= c <= 0xdfff then 0xfffd else c)
            else Inside([c], html) == [c]
  {
    OneUnit(c, html);
  }

  // ---- Texts ----

  /** A high surrogate and the low one after it. */
  predicate PairStands(s: Text, i: nat) {
    i + 1 < |s| && 0xd800 <= s[i] <= 0xdbff && 0xdc00 <= s[i + 1] <= 0xdfff
  }

  /** Surrogate pairs as they stand, and every other code unit as it is written alone. */
  function Spelled(s: Text, i: nat, html: bool): Text
    requires i <= |s|
    decreases |s| - i
  {
    if i == |s| then []
    else if PairStands(s, i) then [s[i], s[i + 1]] + Spelled(s, i + 2, html)
    else Inside([s[i]], html) + Spelled(s, i + 1, html)
  }

  lemma AloneIsSame(s: Text, i: nat, html: bool)
    requires i < |s| && !PairStands(s, i)
    ensures Escaped(s, i, html) == Inside([s[i]], html) && Width(s, i) == 1
  {
    OneUnit(s[i], html);
  }

  lemma {:induction false} SpelledFrom(s: Text, i: nat, html: bool)
    requires i <= |s|
    ensures EscapedFrom(s, i, html) == Spelled(s, i, html)
    decreases |s| - i
  {
    if i < |s| {
      if PairStands(s, i) {
        SpelledFrom(s, i + 2, html);
      } else {
        AloneIsSame(s, i, html);
        SpelledFrom(s, i + 1, html);
      }
    }
  }

  /** A text is written character by character between two quotes. */
  lemma SpelledOut(s: Text, html: bool)
    ensures GoJsonString(s, html) == [0x22] + Spelled(s, 0, html) + [0x22]
  {
    SpelledFrom(s, 0, html);
  }

  // ---- What never stands in a text ----

  /** No control character, no U+2028 or U+2029, and with HTML escaping none of its three characters. */
  predicate Escapes(t: Text, html: bool) {
    forall k :: 0 <= k < |t| ==>
      && t[k] >= 0x20 && t[k] != 0x2028 && t[k] != 0x2029
      && (html ==> t[k] != 0x3c && t[k] != 0x3e && t[k] != 0x26)
  }

  /** The unit at position k is no lone surrogate. */
  predicate PairedAt(t: Text, k: nat)
    requires k < |t|
  {
    && (IsHigh(t[k]) ==> k + 1 < |t| && IsLow(t[k + 1]))
    && (IsLow(t[k]) ==> k > 0 && IsHigh(t[k - 1]))
  }

  predicate Paired(t: Text) {
    forall k :: 0 <= k < |t| ==> PairedAt(t, k)
  }

  predicate Clean(t: Text, html: bool) {
    Escapes(t, html) && Paired(t)
  }

  lemma PairedLeft(a: Text, b: Text, k: nat)
    requires k < |a| && PairedAt(a, k)
    ensures PairedAt(a + b, k)
  {
    assert (a + b)[k] == a[k] && (k + 1 < |a| ==> (a + b)[k + 1] == a[k + 1]);
  }

  lemma PairedRight(a: Text, b: Text, k: nat)
    requires k < |b| && PairedAt(b, k)
    ensures PairedAt(a + b, |a| + k)
  {
    assert (a + b)[|a| + k] == b[k] && (k + 1 < |b| ==> (a + b)[|a| + k + 1] == b[k + 1]);
    assert k > 0 ==> (a + b)[|a| + k - 1] == b[k - 1];
  }

  lemma PairedConcat(a: Text, b: Text)
    requires Paired(a) && Paired(b)
    ensures Paired(a + b)
  {
    forall k | 0 <= k < |a + b| ensures PairedAt(a + b, k) {
      if k < |a| { PairedLeft(a, b, k); } else { PairedRight(a, b, k - |a|); }
    }
  }

  lemma CleanConcat(a: Text, b: Text, html: bool)
    requires Clean(a, html) && Clean(b, html)
    ensures Clean(a + b, html)
  {
    PairedConcat(a, b);
  }

  /** Of a text below the surrogates only its units have to be looked at. */
  lemma PlainClean(t: Text, html: bool)
    requires forall k :: 0 <= k < |t| ==> 0x20 <= t[k] < 0x80 && t[k] != 0x3c && t[k] != 0x3e && t[k] != 0x26
    ensures Clean(t, html)
  {
  }

  lemma SeparatorsClean(html: bool)
    ensures Clean([0x22], html) && Clean([0x2c], html) && Clean([0x3a], html) && Clean([], html)
    ensures Clean([0x5b], html) && Clean([0x5d], html) && Clean([0x7b], html) && Clean([0x7d], html)
  {
    PlainClean([0x22], html);
    PlainClean([0x2c], html);
    PlainClean([0x3a], html);
    PlainClean([], html);
    PlainClean([0x5b], html);
    PlainClean([0x5d], html);
    PlainClean([0x7b], html);
    PlainClean([0x7d], html);
  }

  lemma {:induction false} EscapedClean(s: Text, i: nat, html: bool)
    requires i <= |s|
    ensures Clean(EscapedFrom(s, i, html), html)
    decreases |s| - i
  {
    if i < |s| {
      EscapedClean(s, i + Width(s, i), html);
      CharacterClean(s, i, html);
      CleanConcat(Escaped(s, i, html), EscapedFrom(s, i + Width(s, i), html), html);
    }
  }

  lemma CharacterClean(s: Text, i: nat, html: bool)
    requires i < |s|
    ensures Clean(Escaped(s, i, html), html)
  {
    CharacterEscapes(s, i, html);
    CharacterPaired(s, i, html);
  }

  lemma CharacterEscapes(s: Text, i: nat, html: bool)
    requires i < |s|
    ensures Escapes(Escaped(s, i, html), html)
  {
  }

  lemma CharacterPaired(s: Text, i: nat, html: bool)
    requires i < |s|
    ensures Paired(Escaped(s, i, html))
  {
  }

  lemma StringClean(s: Text, html: bool)
    ensures Clean(GoJsonString(s, html), html)
  {
    EscapedClean(s, 0, html);
    SeparatorsClean(html);
    CleanConcat([0x22], EscapedFrom(s, 0, html), html);
    CleanConcat([0x22] + EscapedFrom(s, 0, html), [0x22], html);
  }

  // ---- Numbers ----

  /** A digit, a sign, a point or an `e`. */
  predicate NumberUnit(c: Code) {
    c == 0x2b || c == 0x2d || c == 0x2e || 0x30 <= c <= 0x39 || c == 0x65
  }

  predicate NumberUnits(t: Text) {
    forall k :: 0 <= k < |t| ==> NumberUnit(t[k])
  }

  lemma {:induction false} NatTextUnits(n: nat)
    ensures NumberUnits(NatText(n))
  {
    if n >= 10 { NatTextUnits(n / 10); }
  }

  lemma {:induction false} ZerosUnits(k: nat)
    ensures NumberUnits(Zeros(k))
  {
    if k > 0 { ZerosUnits(k - 1); }
  }

  lemma ScientificUnits(digits: Text, x: Text)
    requires |digits| > 0 && NumberUnits(digits) && NumberUnits(x)
    ensures NumberUnits(Scientific(digits, x))
  {
    assert NumberUnits([0x65, 0x2b] + x);
    assert NumberUnits(digits[1..] + ([0x65, 0x2b] + x));
    assert NumberUnits([0x2e] + (digits[1..] + ([0x65, 0x2b] + x)));
  }

  lemma NumberTextUnits(n: Number)
    requires n.Integer()
    ensures NumberUnits(NumberText(n))
  {
    var digits := NatText(Abs(n.coeff));
    NatTextUnits(Abs(n.coeff));
    ZerosUnits(n.exp);
    NatTextUnits(|digits| + n.exp - 1);
    ScientificUnits(digits, NatText(|digits| + n.exp - 1));
    assert NumberUnits(MagnitudeText(digits, n.exp));
  }

  lemma NumberClean(n: Number, html: bool)
    requires n.Integer()
    ensures Clean(NumberText(n), html)
  {
    NumberTextUnits(n);
    PlainClean(NumberText(n), html);
  }

  predicate CleanText(p: Printed, html: bool) {
    p.Text? ==> Clean(p.text, html)
  }

  /** None of them stands in any printed value, in keys and strings at any depth. */
  lemma {:induction false} MarshalClean(v: Value, html: bool)
    ensures CleanText(GoMarshal(v, html), html)
    decreases Depth(v), 0
  {
    match v
    case Null =>
    case Bool(b) =>
    case Num(n) => if n.Integer() { NumberClean(n, html); }
    case Str(s) => StringClean(s, html);
    case Arr(items) =>
      ItemsClean(items, html);
      SeparatorsClean(html);
      BetweenClean(MarshalItems(items, html), [0x5b], [0x5d], html);
    case Struct(fields) => FieldsClean(fields, html);
    case Obj(entries) =>
      ObjectClean(entries, html);
  }

  lemma {:induction false} ObjectClean(entries: seq<Entry>, html: bool)
    ensures CleanText(MarshalObject(entries, html), html)
    decreases EntryDepth(entries), |entries| + 3
  {
    AmongDepth(SortEntries(entries), entries);
    FieldsClean(SortEntries(entries), html);
  }

  lemma {:induction false} FieldsClean(fields: seq<Entry>, html: bool)
    ensures CleanText(MarshalFields(fields, html), html)
    decreases EntryDepth(fields), |fields| + 2
  {
    MembersClean(fields, html);
    SeparatorsClean(html);
    BetweenClean(MarshalMembers(fields, html), [0x7b], [0x7d], html);
  }

  lemma BetweenClean(p: Printed, before: Text, after: Text, html: bool)
    requires CleanText(p, html) && Clean(before, html) && Clean(after, html)
    ensures CleanText(p.Between(before, after), html)
  {
    if p.Text? {
      CleanConcat(before, p.text, html);
      CleanConcat(before + p.text, after, html);
    }
  }

  lemma JoinedClean(a: Printed, separator: Text, b: Printed, html: bool)
    requires CleanText(a, html) && Clean(separator, html) && CleanText(b, html)
    ensures CleanText(Joined(a, separator, b), html)
  {
    if a.Text? && b.Text? {
      CleanConcat(a.text, separator, html);
      CleanConcat(a.text + separator, b.text, html);
    }
  }

  lemma {:induction false} ItemsClean(items: seq<Value>, html: bool)
    ensures CleanText(MarshalItems(items, html), html)
    decreases DepthOf(items), |items| + 1
  {
    if |items| > 0 {
      MarshalClean(items[0], html);
      if |items| > 1 {
        ItemsClean(items[1..], html);
        SeparatorsClean(html);
        JoinedClean(MarshalItem(items[0], html), [0x2c], MarshalItems(items[1..], html), html);
      }
    }
  }

  lemma {:induction false} MembersClean(entries: seq<Entry>, html: bool)
    ensures CleanText(MarshalMembers(entries, html), html)
    decreases EntryDepth(entries), |entries| + 1
  {
    if |entries| > 0 {
      MemberClean(entries[0], html);
      if |entries| > 1 {
        MembersClean(entries[1..], html);
        SeparatorsClean(html);
        JoinedClean(MarshalMember(entries[0], html), [0x2c], MarshalMembers(entries[1..], html), html);
      }
    }
  }

  lemma {:induction false} MemberClean(e: Entry, html: bool)
    ensures CleanText(MarshalMember(e, html), html)
    decreases Depth(e.value), 1
  {
    MarshalClean(e.value, html);
    StringClean(e.key, html);
    SeparatorsClean(html);
    CleanConcat(GoJsonString(e.key, html), [0x3a], html);
    BetweenClean(GoMarshal(e.value, html), GoJsonString(e.key, html) + [0x3a], [], html);
  }
}
