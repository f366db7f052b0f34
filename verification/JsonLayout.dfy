/**
 * The layout of printed values (src/core/gojson.ts:106-125): nothing stands between the parts but single separators,
 * objects come in key order, and large numbers in the exponent form of `String` (Number::toString of ECMA-262). A
 * reader would skip white space and take either form of a number; a hash does not.
 */
module JsonLayout {
  import opened Basics
  import opened JsonText
  import opened GoJson
  import opened JsonReader
  import opened JsonRoundTrip
  import opened JsonCanonical

  // ---- Lists ----

  /** The lengths of the elements' texts, added up. */
  function ItemsLength(items: seq<Value>, html: bool): nat
    requires forall i :: 0 <= i < |items| ==> GoMarshal(items[i], html).Text?
  {
    if |items| == 0 then 0 else |GoMarshal(items[0], html).text| + ItemsLength(items[1..], html)
  }

  lemma {:induction false} ItemsText(items: seq<Value>, html: bool)
    requires |items| > 0 && forall i :: 0 <= i < |items| ==> GoMarshal(items[i], html).Text?
    ensures MarshalItems(items, html).Text?
    ensures |MarshalItems(items, html).text| == ItemsLength(items, html) + |items| - 1
  {
    if |items| > 1 {
      ItemsText(items[1..], html);
    } else {
      assert ItemsLength(items[1..], html) == 0;
    }
  }

  /** An array's text is a bracket, the elements' texts with one comma between two, and a bracket, and no more. */
  lemma ArrayLayout(items: seq<Value>, html: bool)
    requires forall i :: 0 <= i < |items| ==> GoMarshal(items[i], html).Text?
    ensures var r := GoMarshal(Arr(items), html);
            && r.Text?
            && |r.text| == (if |items| == 0 then 2 else ItemsLength(items, html) + |items| + 1)
            && r.text[0] == 0x5b && r.text[|r.text| - 1] == 0x5d
  {
    if |items| > 0 { ItemsText(items, html); }
  }

  /** The lengths of names and values, added up. */
  function MembersLength(fields: seq<Entry>, html: bool): nat
    requires forall i :: 0 <= i < |fields| ==> GoMarshal(fields[i].value, html).Text?
  {
    if |fields| == 0 then 0
    else
      |GoJsonString(fields[0].key, html)| + |GoMarshal(fields[0].value, html).text| + MembersLength(fields[1..], html)
  }

  lemma {:induction false} MembersText(fields: seq<Entry>, html: bool)
    requires |fields| > 0 && forall i :: 0 <= i < |fields| ==> GoMarshal(fields[i].value, html).Text?
    ensures MarshalMembers(fields, html).Text?
    ensures |MarshalMembers(fields, html).text| == MembersLength(fields, html) + 2 * |fields| - 1
  {
    if |fields| > 1 {
      MembersText(fields[1..], html);
    } else {
      assert MembersLength(fields[1..], html) == 0;
    }
  }

  /**
   * A struct's text is a brace, names and values with a colon in each and a comma between two, and a brace, and no
   * more.
   */
  lemma StructLayout(fields: seq<Entry>, html: bool)
    requires forall i :: 0 <= i < |fields| ==> GoMarshal(fields[i].value, html).Text?
    ensures var r := GoMarshal(Struct(fields), html);
            && r.Text?
            && |r.text| == (if |fields| == 0 then 2 else MembersLength(fields, html) + 2 * |fields| + 1)
            && r.text[0] == 0x7b && r.text[|r.text| - 1] == 0x7d
  {
    if |fields| > 0 { MembersText(fields, html); }
  }

  /** A plain object prints as the struct of its entries in increasing order of their keys. */
  lemma ObjectLayout(entries: seq<Entry>, fields: seq<Entry>, html: bool)
    requires DistinctKeys(entries) && Sorted(fields) && Among(entries, fields) && Among(fields, entries)
    ensures GoMarshal(Obj(entries), html) == GoMarshal(Struct(fields), html)
  {
    SortedAgain(entries, fields);
  }

  lemma SortedAgain(entries: seq<Entry>, fields: seq<Entry>)
    requires DistinctKeys(entries) && Sorted(fields) && Among(entries, fields) && Among(fields, entries)
    ensures SortEntries(entries) == fields
  {
    var s := SortEntries(entries);
    SortEntriesSorted(entries);
    forall i | 0 <= i < |s| ensures HasKey(fields, s[i].key) { assert s[i] in entries && s[i] in fields; }
    forall i | 0 <= i < |fields| ensures HasKey(s, fields[i].key) { assert fields[i] in entries && fields[i] in s; }
    SortedKeysUnique(s, fields);
    forall i | 0 <= i < |s| ensures s[i] == fields[i] {
      assert s[i] in entries && fields[i] in entries && s[i].key == fields[i].key;
    }
  }

  // ---- Numbers ----

  lemma {:induction false} PowersAdd(a: nat, b: nat)
    ensures Pow10(a + b) == Pow10(a) * Pow10(b)
  {
    if a > 0 {
      PowersAdd(a - 1, b);
      assert Pow10(a - 1 + b) == Pow10(a - 1) * Pow10(b);
      Tenfold(Pow10(b), Pow10(a - 1));
    }
  }

  lemma {:induction false} PowersGrow(a: nat, b: nat)
    requires a <= b
    ensures Pow10(a) <= Pow10(b)
  {
    if a < b { PowersGrow(a, b - 1); }
  }

  lemma {:induction false} DigitCount(n: nat)
    ensures n < Pow10(|NatText(n)|)
    ensures n > 0 ==> Pow10(|NatText(n)| - 1) <= n
  {
    if n >= 10 {
      DigitCount(n / 10);
      var k := |NatText(n / 10)|;
      assert Pow10(k + 1) == 10 * Pow10(k) && Pow10(k) == 10 * Pow10(k - 1);
    } else {
      assert Pow10(1) == 10 * Pow10(0) == 10;
    }
  }

  lemma ScaleUp(c: nat, low: nat, high: nat, p: nat)
    requires low <= c < high && p > 0
    ensures low * p <= c * p < high * p
  {
  }

  lemma Bracketed(c: nat, exp: nat, k: nat)
    requires c > 0 && k == |NatText(c)|
    ensures Pow10(k - 1 + exp) <= c * Pow10(exp) < Pow10(k + exp)
  {
    DigitCount(c);
    ScaleUp(c, Pow10(k - 1), Pow10(k), Pow10(exp));
    PowersAdd(k, exp);
    PowersAdd(k - 1, exp);
  }

  lemma PowerBelow(m: nat, k: nat, limit: nat)
    requires k > 0 && Pow10(k - 1) <= m < Pow10(k)
    ensures k <= limit <==> m < Pow10(limit)
  {
    if k <= limit { PowersGrow(k, limit); } else { PowersGrow(limit, k - 1); }
  }

  /** So many digits and zeros are as many as the number's power of ten says. */
  lemma DigitsIff(c: nat, exp: nat, limit: nat)
    requires c > 0
    ensures |NatText(c)| + exp <= limit <==> c * Pow10(exp) < Pow10(limit)
  {
    Bracketed(c, exp, |NatText(c)|);
    PowerBelow(c * Pow10(exp), |NatText(c)| + exp, limit);
  }

  /** An integer below 10^21 prints as its sign, its digits and its zeros. */
  lemma PlainNumberText(n: Number)
    requires n.Integer() && Abs(n.coeff) * Pow10(n.exp) < Pow10(21)
    ensures NumberText(n) == (if n.coeff < 0 then [0x2d] else []) + NatText(Abs(n.coeff)) + Zeros(n.exp)
  {
    if n.coeff == 0 {
      assert NatText(0) == [0x30];
    } else {
      DigitsIff(Abs(n.coeff), n.exp, 21);
    }
  }

  /**
   * A larger one prints with a point after its first digit, if there are more, and a signed exponent after a small `e`.
   */
  lemma LargeNumberText(n: Number)
    requires n.Integer() && Abs(n.coeff) * Pow10(n.exp) >= Pow10(21)
    ensures var digits := NatText(Abs(n.coeff));
            NumberText(n) == (if n.coeff < 0 then [0x2d] else []) + digits[..1]
              + (if |digits| > 1 then [0x2e] + digits[1..] else []) + [0x65, 0x2b] + NatText(|digits| + n.exp - 1)
  {
    var digits := NatText(Abs(n.coeff));
    assert n.coeff != 0 by { assert Pow10(21) > 0; }
    DigitsIff(Abs(n.coeff), n.exp, 21);
    var x := NatText(|digits| + n.exp - 1);
    var sign: Text := if n.coeff < 0 then [0x2d] else [];
    LargeLayout(sign, digits, x);
  }

  lemma LargeLayout(sign: Text, digits: Text, x: Text)
    requires |digits| > 0
    ensures sign + Scientific(digits, x)
         == sign + digits[..1] + (if |digits| > 1 then [0x2e] + digits[1..] else []) + [0x65, 0x2b] + x
  {
    assert digits[..1] == digits || |digits| > 1;
  }
}
