/**
 * JavaScript strings as sequences of UTF-16 code units, the values `goMarshal` takes (src/core/gojson.ts:81-89),
 * and the code unit order in which it sorts keys.
 */
module JsonText {
  import opened Basics

  /** A UTF-16 code unit. */
  type Code = c: int | 0 <= c < 0x10000

  type Text = seq<Code>

  predicate IsHigh(c: Code) { 0xd800 <= c <= 0xdbff }

  predicate IsLow(c: Code) { 0xdc00 <= c <= 0xdfff }

  /** A surrogate pair starts at position i. */
  predicate PairAt(s: Text, i: nat)
    requires i < |s|
  {
    IsHigh(s[i]) && i + 1 < |s| && IsLow(s[i + 1])
  }

  /** How many code units the character at position i takes; a lone surrogate takes one. */
  function Width(s: Text, i: nat): (w: nat)
    requires i < |s|
    ensures 1 <= w <= 2 && i + w <= |s|
  {
    if PairAt(s, i) then 2 else 1
  }

  /** The character at position i, U+FFFD for a lone surrogate. */
  function RepairedAt(s: Text, i: nat): (r: Text)
    requires i < |s|
    ensures |r| == Width(s, i)
  {
    if PairAt(s, i) then [s[i], s[i + 1]]
    else if IsHigh(s[i]) || IsLow(s[i]) then [0xfffd]
    else [s[i]]
  }

  function RepairFrom(s: Text, i: nat): Text
    requires i <= |s|
    decreases |s| - i
  {
    if i == |s| then [] else RepairedAt(s, i) + RepairFrom(s, i + Width(s, i))
  }

  /** The text with each lone surrogate replaced by U+FFFD. */
  function Repair(s: Text): Text {
    RepairFrom(s, 0)
  }

  /** No lone surrogate: the text is well-formed UTF-16. */
  predicate WellFormedFrom(s: Text, i: nat)
    requires i <= |s|
    decreases |s| - i
  {
    i == |s| || ((PairAt(s, i) || !(IsHigh(s[i]) || IsLow(s[i]))) && WellFormedFrom(s, i + Width(s, i)))
  }

  predicate WellFormed(s: Text) {
    WellFormedFrom(s, 0)
  }

  lemma {:induction false} RepairFromWellFormed(s: Text, i: nat)
    requires i <= |s| && WellFormedFrom(s, i)
    ensures RepairFrom(s, i) == s[i..]
    decreases |s| - i
  {
    if i < |s| {
      RepairFromWellFormed(s, i + Width(s, i));
      assert s[i..] == s[i..i + Width(s, i)] + s[i + Width(s, i)..];
      assert RepairedAt(s, i) == s[i..i + Width(s, i)];
    }
  }

  lemma RepairWellFormed(s: Text)
    requires WellFormed(s)
    ensures Repair(s) == s
  {
    RepairFromWellFormed(s, 0);
    assert s[0..] == s;
  }

  // ---- Values ----

  /**
   * A JavaScript number. A finite one is given by the decimal its printed form is made from, coefficient times a power
   * of ten, where the coefficient has no trailing zero; it is an integer exactly when the exponent is not negative.
   */
  datatype Decimal = NotFinite | Finite(coeff: int, exp: int)
  {
    predicate Normal() { Finite? && (coeff == 0 ==> exp == 0) && (coeff != 0 ==> coeff % 10 != 0) }

    predicate Integer() { Finite? && exp >= 0 }
  }

  type Number = n: Decimal | n.NotFinite? || n.Normal() witness NotFinite

  datatype Entry = Entry(key: Text, value: Value)

  /** `Obj` is a plain object with its entries in insertion order, `Struct` a `GoStruct`. */
  datatype Value =
    | Null
    | Bool(b: bool)
    | Num(n: Number)
    | Str(s: Text)
    | Arr(items: seq<Value>)
    | Obj(entries: seq<Entry>)
    | Struct(fields: seq<Entry>)

  function Depth(v: Value): nat {
    match v
    case Arr(items) => 1 + DepthOf(items)
    case Obj(entries) => 1 + EntryDepth(entries)
    case Struct(fields) => 1 + EntryDepth(fields)
    case _ => 0
  }

  function DepthOf(items: seq<Value>): nat {
    if |items| == 0 then 0 else Max(Depth(items[0]), DepthOf(items[1..]))
  }

  function EntryDepth(entries: seq<Entry>): nat {
    if |entries| == 0 then 0 else Max(Depth(entries[0].value), EntryDepth(entries[1..]))
  }

  // ---- The order of keys ----

  /** Code unit order, a prefix first. */
  predicate Less(a: Text, b: Text) {
    |b| > 0 && (|a| == 0 || a[0] < b[0] || (a[0] == b[0] && Less(a[1..], b[1..])))
  }

  lemma {:induction false} LessTrans(a: Text, b: Text, c: Text)
    requires Less(a, b) && Less(b, c)
    ensures Less(a, c)
  {
    if |a| > 0 && a[0] == b[0] == c[0] {
      LessTrans(a[1..], b[1..], c[1..]);
    }
  }

  lemma {:induction false} LessTotal(a: Text, b: Text)
    ensures a == b || Less(a, b) || Less(b, a)
  {
    if |a| > 0 && |b| > 0 && a[0] == b[0] {
      LessTotal(a[1..], b[1..]);
      assert a == [a[0]] + a[1..] && b == [b[0]] + b[1..];
    }
  }

  lemma {:induction false} LessIrreflexive(a: Text)
    ensures !Less(a, a)
  {
    if |a| > 0 {
      LessIrreflexive(a[1..]);
    }
  }

  predicate Sorted(entries: seq<Entry>) {
    forall i, j :: 0 <= i < j < |entries| ==> Less(entries[i].key, entries[j].key)
  }

  predicate DistinctKeys(entries: seq<Entry>) {
    forall i, j :: 0 <= i < j < |entries| ==> entries[i].key != entries[j].key
  }

  /** Nothing but what the other one holds. */
  predicate Among(a: seq<Entry>, b: seq<Entry>) {
    forall i :: 0 <= i < |a| ==> a[i] in b
  }

  function Insert(e: Entry, entries: seq<Entry>): (r: seq<Entry>)
    ensures |r| == |entries| + 1
    ensures Among(r, [e] + entries) && e in r && Among(entries, r)
  {
    if |entries| > 0 && Less(entries[0].key, e.key) then
      var r := Insert(e, entries[1..]);
      assert forall i :: 0 <= i < |entries| - 1 ==> entries[1..][i] == entries[i + 1];
      [entries[0]] + r
    else [e] + entries
  }

  /** The entries by key, as `Object.keys(v).sort()` visits them. */
  function SortEntries(entries: seq<Entry>): (r: seq<Entry>)
    ensures |r| == |entries| && Among(r, entries) && Among(entries, r)
  {
    if |entries| == 0 then []
    else
      var r := SortEntries(entries[1..]);
      assert forall i :: 0 <= i < |entries| - 1 ==> entries[1..][i] == entries[i + 1];
      Insert(entries[0], r)
  }

  lemma BelowRest(first: Entry, e: Entry, more: seq<Entry>, rest: seq<Entry>)
    requires Less(first.key, e.key) && Among(rest, [e] + more)
    requires forall i :: 0 <= i < |more| ==> Less(first.key, more[i].key)
    ensures forall i :: 0 <= i < |rest| ==> Less(first.key, rest[i].key)
  {
    forall i | 0 <= i < |rest| ensures Less(first.key, rest[i].key) {
      assert rest[i] == e || rest[i] in more;
    }
  }

  lemma BelowAll(e: Entry, entries: seq<Entry>)
    requires |entries| > 0 && Sorted(entries) && Less(e.key, entries[0].key)
    ensures forall i :: 0 <= i < |entries| ==> Less(e.key, entries[i].key)
  {
    forall i | 0 <= i < |entries| ensures Less(e.key, entries[i].key) {
      if i > 0 { LessTrans(e.key, entries[0].key, entries[i].key); }
    }
  }

  lemma {:induction false} InsertSorted(e: Entry, entries: seq<Entry>)
    requires Sorted(entries) && forall i :: 0 <= i < |entries| ==> entries[i].key != e.key
    ensures Sorted(Insert(e, entries))
  {
    if |entries| > 0 {
      LessTotal(entries[0].key, e.key);
      if Less(entries[0].key, e.key) {
        var rest := Insert(e, entries[1..]);
        InsertSorted(e, entries[1..]);
        BelowRest(entries[0], e, entries[1..], rest);
        ConsSorted(entries[0], rest);
      } else {
        BelowAll(e, entries);
        ConsSorted(e, entries);
      }
    }
  }

  lemma ConsSorted(e: Entry, rest: seq<Entry>)
    requires Sorted(rest) && forall i :: 0 <= i < |rest| ==> Less(e.key, rest[i].key)
    ensures Sorted([e] + rest)
  {
  }

  /** With distinct keys, the result is in strictly increasing order. */
  lemma {:induction false} SortEntriesSorted(entries: seq<Entry>)
    requires DistinctKeys(entries)
    ensures Sorted(SortEntries(entries))
  {
    if |entries| > 0 {
      var rest := SortEntries(entries[1..]);
      SortEntriesSorted(entries[1..]);
      forall i | 0 <= i < |rest| ensures rest[i].key != entries[0].key {
        assert rest[i] in entries[1..];
      }
      InsertSorted(entries[0], rest);
    }
  }

  lemma {:induction false} EntryDepthBound(entries: seq<Entry>, e: Entry)
    requires e in entries
    ensures Depth(e.value) <= EntryDepth(entries)
  {
    if entries[0] != e {
      EntryDepthBound(entries[1..], e);
    }
  }

  lemma {:induction false} AmongDepth(a: seq<Entry>, b: seq<Entry>)
    requires Among(a, b)
    ensures EntryDepth(a) <= EntryDepth(b)
  {
    if |a| > 0 {
      assert forall i :: 0 <= i < |a| - 1 ==> a[1..][i] == a[i + 1];
      EntryDepthBound(b, a[0]);
      AmongDepth(a[1..], b);
    }
  }

  predicate HasKey(entries: seq<Entry>, key: Text) {
    exists i :: 0 <= i < |entries| && entries[i].key == key
  }

  predicate KeysWithin(a: seq<Entry>, b: seq<Entry>) {
    forall i :: 0 <= i < |a| ==> HasKey(b, a[i].key)
  }

  /** The same keys in strictly increasing order are the same list of keys. */
  lemma {:induction false} SortedKeysUnique(a: seq<Entry>, b: seq<Entry>)
    requires Sorted(a) && Sorted(b) && KeysWithin(a, b) && KeysWithin(b, a)
    ensures |a| == |b| && forall i :: 0 <= i < |a| ==> a[i].key == b[i].key
  {
    assert |a| > 0 ==> HasKey(b, a[0].key);
    assert |b| > 0 ==> HasKey(a, b[0].key);
    if |a| > 0 {
      FirstKeysEqual(a, b);
      RestWithin(a, b);
      RestWithin(b, a);
      SortedKeysUnique(a[1..], b[1..]);
      forall i | 0 <= i < |a| ensures a[i].key == b[i].key {
        if i > 0 { assert a[1..][i - 1].key == b[1..][i - 1].key; }
      }
    }
  }

  lemma RestWithin(a: seq<Entry>, b: seq<Entry>)
    requires Sorted(a) && |a| > 0 && |b| > 0 && KeysWithin(a, b) && a[0].key == b[0].key
    ensures KeysWithin(a[1..], b[1..])
  {
    LessIrreflexive(a[0].key);
    forall i | 0 <= i < |a| - 1 ensures HasKey(b[1..], a[1..][i].key) {
      assert HasKey(b, a[i + 1].key);
      var j :| 0 <= j < |b| && b[j].key == a[i + 1].key;
      assert b[1..][j - 1] == b[j];
    }
  }

  lemma FirstKeysEqual(a: seq<Entry>, b: seq<Entry>)
    requires Sorted(a) && Sorted(b) && |a| > 0 && |b| > 0 && HasKey(b, a[0].key) && HasKey(a, b[0].key)
    ensures a[0].key == b[0].key
  {
    var j :| 0 <= j < |b| && b[j].key == a[0].key;
    var i :| 0 <= i < |a| && a[i].key == b[0].key;
    if j > 0 && i > 0 {
      LessTrans(a[0].key, b[0].key, a[0].key);
      LessIrreflexive(a[0].key);
    }
  }
}
