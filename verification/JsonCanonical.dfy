/**
 * The printed form is canonical: values equal up to the order of object entries print the same text, and the text
 * determines the value (src/core/gojson.ts:92-125).
 */
module JsonCanonical {
  import opened Basics
  import opened JsonText
  import opened GoJson
  import opened JsonRoundTrip

  /** The same value, whatever the order in which plain objects hold their entries. */
  predicate Same(v: Value, w: Value)
    decreases Depth(v), 0
  {
    match v
    case Arr(items) => w.Arr? && SameItems(items, w.items)
    case Struct(fields) => w.Struct? && SameFields(fields, w.fields)
    case Obj(entries) => w.Obj? && SameEntries(entries, w.entries) && KeysWithin(w.entries, entries)
    case _ => v == w
  }

  predicate SameItems(a: seq<Value>, b: seq<Value>)
    decreases DepthOf(a), |a|
  {
    |a| == |b| && (|a| > 0 ==> Same(a[0], b[0]) && SameItems(a[1..], b[1..]))
  }

  predicate SameFields(a: seq<Entry>, b: seq<Entry>)
    decreases EntryDepth(a), |a|
  {
    |a| == |b| && (|a| > 0 ==> a[0].key == b[0].key && Same(a[0].value, b[0].value) && SameFields(a[1..], b[1..]))
  }

  predicate HasSame(e: Entry, entries: seq<Entry>)
    decreases Depth(e.value), 1
  {
    exists j :: 0 <= j < |entries| && entries[j].key == e.key && Same(e.value, entries[j].value)
  }

  /** Each entry of a has its like in b. */
  predicate SameEntries(a: seq<Entry>, b: seq<Entry>)
    decreases EntryDepth(a), |a| + 1
  {
    |a| > 0 ==> HasSame(a[0], b) && SameEntries(a[1..], b)
  }

  /** Every plain object inside has distinct keys, as JavaScript objects have. */
  predicate Proper(v: Value)
    decreases Depth(v), 0
  {
    match v
    case Arr(items) => ProperItems(items)
    case Struct(fields) => ProperEntries(fields)
    case Obj(entries) => DistinctKeys(entries) && ProperEntries(entries)
    case _ => true
  }

  predicate ProperItems(items: seq<Value>)
    decreases DepthOf(items), |items|
  {
    |items| > 0 ==> Proper(items[0]) && ProperItems(items[1..])
  }

  predicate ProperEntries(entries: seq<Entry>)
    decreases EntryDepth(entries), |entries|
  {
    |entries| > 0 ==> Proper(entries[0].value) && ProperEntries(entries[1..])
  }

  lemma {:induction false} ProperIn(entries: seq<Entry>, e: Entry)
    requires ProperEntries(entries) && e in entries
    ensures Proper(e.value)
  {
    if entries[0] != e { ProperIn(entries[1..], e); }
  }

  lemma {:induction false} AmongProper(a: seq<Entry>, b: seq<Entry>)
    requires Among(a, b) && ProperEntries(b)
    ensures ProperEntries(a)
  {
    if |a| > 0 {
      ProperIn(b, a[0]);
      assert forall i :: 0 <= i < |a| - 1 ==> a[1..][i] == a[i + 1];
      AmongProper(a[1..], b);
    }
  }

  lemma {:induction false} SameEntriesIn(a: seq<Entry>, b: seq<Entry>, e: Entry)
    requires SameEntries(a, b) && e in a
    ensures HasSame(e, b)
  {
    if a[0] != e { SameEntriesIn(a[1..], b, e); }
  }

  /** Sorted, the entries correspond position by position. */
  lemma SortedCorrespond(a: seq<Entry>, b: seq<Entry>)
    requires DistinctKeys(a) && DistinctKeys(b) && SameEntries(a, b) && KeysWithin(b, a)
    ensures |SortEntries(a)| == |SortEntries(b)|
    ensures forall i :: 0 <= i < |a| ==>
              SortEntries(a)[i].key == SortEntries(b)[i].key && Same(SortEntries(a)[i].value, SortEntries(b)[i].value)
  {
    var x, y := SortEntries(a), SortEntries(b);
    SortEntriesSorted(a);
    SortEntriesSorted(b);
    forall i | 0 <= i < |x| ensures HasKey(y, x[i].key) {
      SameEntriesIn(a, b, x[i]);
      var j :| 0 <= j < |b| && b[j].key == x[i].key;
      assert b[j] in y;
    }
    forall j | 0 <= j < |y| ensures HasKey(x, y[j].key) {
      KeyOfSorted(b, a, y[j]);
    }
    SortedKeysUnique(x, y);
    forall i | 0 <= i < |a| ensures Same(x[i].value, y[i].value) {
      SameEntriesIn(a, b, x[i]);
      SameAtKey(x[i], b, y[i]);
    }
  }

  lemma KeyOfSorted(b: seq<Entry>, a: seq<Entry>, e: Entry)
    requires KeysWithin(b, a) && e in b
    ensures HasKey(SortEntries(a), e.key)
  {
    var k :| 0 <= k < |b| && b[k] == e;
    assert HasKey(a, b[k].key);
    var i :| 0 <= i < |a| && a[i].key == e.key;
    assert a[i] in SortEntries(a);
  }

  lemma SameAtKey(e: Entry, entries: seq<Entry>, f: Entry)
    requires DistinctKeys(entries) && HasSame(e, entries) && f in entries && f.key == e.key
    ensures Same(e.value, f.value)
  {
    var j :| 0 <= j < |entries| && entries[j].key == e.key && Same(e.value, entries[j].value);
    var k :| 0 <= k < |entries| && entries[k] == f;
    assert j == k;
  }

  /** Insertion order leaves no trace in the printed text. */
  lemma {:induction false} SamePrintSame(v: Value, w: Value, html: bool)
    requires Proper(v) && Proper(w) && Same(v, w)
    ensures GoMarshal(v, html) == GoMarshal(w, html)
    decreases Depth(v), 0
  {
    match v
    case Arr(items) => ItemsPrintSame(items, w.items, html);
    case Struct(fields) => FieldsPrintSame(fields, w.fields, html);
    case Obj(entries) => ObjectsPrintSame(entries, w.entries, html);
    case _ =>
  }

  lemma {:induction false} ObjectsPrintSame(a: seq<Entry>, b: seq<Entry>, html: bool)
    requires Proper(Obj(a)) && Proper(Obj(b)) && Same(Obj(a), Obj(b))
    ensures MarshalObject(a, html) == MarshalObject(b, html)
    decreases EntryDepth(a), |a| + 1
  {
    var x, y := SortEntries(a), SortEntries(b);
    SortedCorrespond(a, b);
    AmongProper(x, a);
    AmongProper(y, b);
    AmongDepth(x, a);
    PairwiseFields(x, y);
    FieldsPrintSame(x, y, html);
  }

  lemma {:induction false} PairwiseFields(a: seq<Entry>, b: seq<Entry>)
    requires |a| == |b| && forall i :: 0 <= i < |a| ==> a[i].key == b[i].key && Same(a[i].value, b[i].value)
    ensures SameFields(a, b)
  {
    if |a| > 0 {
      PairwiseFields(a[1..], b[1..]);
    }
  }

  lemma {:induction false} ItemsPrintSame(a: seq<Value>, b: seq<Value>, html: bool)
    requires ProperItems(a) && ProperItems(b) && SameItems(a, b)
    ensures MarshalItems(a, html) == MarshalItems(b, html)
    decreases DepthOf(a), |a|
  {
    if |a| > 0 {
      SamePrintSame(a[0], b[0], html);
      ItemsPrintSame(a[1..], b[1..], html);
    }
  }

  lemma {:induction false} FieldsPrintSame(a: seq<Entry>, b: seq<Entry>, html: bool)
    requires ProperEntries(a) && ProperEntries(b) && SameFields(a, b)
    ensures MarshalMembers(a, html) == MarshalMembers(b, html)
    decreases EntryDepth(a), |a|
  {
    if |a| > 0 {
      SamePrintSame(a[0].value, b[0].value, html);
      FieldsPrintSame(a[1..], b[1..], html);
    }
  }

  /** Equal texts come from values equal up to key order and repaired surrogates. */
  lemma TextDeterminesValue(v: Value, w: Value, html: bool)
    requires GoMarshal(v, html).Text? && GoMarshal(v, html) == GoMarshal(w, html)
    ensures Norm(v) == Norm(w)
  {
    MarshalReadsBack(v, html);
    MarshalReadsBack(w, html);
  }

  // ---- What cannot be printed ----

  predicate AllIntegers(v: Value)
    decreases Depth(v), 0
  {
    match v
    case Num(n) => n.Integer()
    case Arr(items) => IntegerItems(items)
    case Struct(fields) => IntegerEntries(fields)
    case Obj(entries) => IntegerEntries(entries)
    case _ => true
  }

  predicate IntegerItems(items: seq<Value>)
    decreases DepthOf(items), |items|
  {
    |items| > 0 ==> AllIntegers(items[0]) && IntegerItems(items[1..])
  }

  predicate IntegerEntries(entries: seq<Entry>)
    decreases EntryDepth(entries), |entries|
  {
    |entries| > 0 ==> AllIntegers(entries[0].value) && IntegerEntries(entries[1..])
  }

  lemma {:induction false} IntegerIn(entries: seq<Entry>, e: Entry)
    requires IntegerEntries(entries) && e in entries
    ensures AllIntegers(e.value)
  {
    if entries[0] != e { IntegerIn(entries[1..], e); }
  }

  lemma {:induction false} AmongIntegers(a: seq<Entry>, b: seq<Entry>)
    requires Among(a, b) && IntegerEntries(b)
    ensures IntegerEntries(a)
  {
    if |a| > 0 {
      IntegerIn(b, a[0]);
      assert forall i :: 0 <= i < |a| - 1 ==> a[1..][i] == a[i + 1];
      AmongIntegers(a[1..], b);
    }
  }

  /** The printer refuses exactly the values with a number inside that is not an integer. */
  lemma {:induction false} PrintableIff(v: Value, html: bool)
    ensures GoMarshal(v, html).Text? <==> AllIntegers(v)
    decreases Depth(v), 0
  {
    match v
    case Arr(items) => ItemsPrintableIff(items, html);
    case Struct(fields) => MembersPrintableIff(fields, html);
    case Obj(entries) =>
      var sorted := SortEntries(entries);
      AmongDepth(sorted, entries);
      MembersPrintableIff(sorted, html);
      if IntegerEntries(entries) { AmongIntegers(sorted, entries); }
      if IntegerEntries(sorted) { AmongIntegers(entries, sorted); }
      ObjectUnfold(entries, html);
    case _ =>
  }

  lemma {:induction false} ItemsPrintableIff(items: seq<Value>, html: bool)
    ensures MarshalItems(items, html).Text? <==> IntegerItems(items)
    decreases DepthOf(items), |items|
  {
    if |items| > 0 {
      PrintableIff(items[0], html);
      ItemsPrintableIff(items[1..], html);
    }
  }

  lemma {:induction false} MembersPrintableIff(entries: seq<Entry>, html: bool)
    ensures MarshalMembers(entries, html).Text? <==> IntegerEntries(entries)
    decreases EntryDepth(entries), |entries|
  {
    if |entries| > 0 {
      PrintableIff(entries[0].value, html);
      MembersPrintableIff(entries[1..], html);
    }
  }
}
