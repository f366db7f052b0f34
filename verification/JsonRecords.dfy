/**
 * Printed objects read back as records, where a name has one value (src/core/gojson.ts:106-125): when no member is
 * lost, and that the record is then the printed one with its texts repaired.
 */
module JsonRecords {
  import opened Basics
  import opened JsonText
  import opened GoJson
  import opened JsonReader
  import opened JsonRoundTrip
  import opened JsonCanonical

  /** A JSON value whose objects are records. */
  datatype Rec =
    | RNull
    | RBool(b: bool)
    | RNum(n: Number)
    | RStr(s: Text)
    | RArr(items: seq<Rec>)
    | RObj(members: map<Text, Rec>)

  /** The last member of a name counts, as with `JSON.parse`. */
  function ToRec(v: Value): Rec
    decreases Depth(v), 0
  {
    match v
    case Null => RNull
    case Bool(b) => RBool(b)
    case Num(n) => RNum(n)
    case Str(s) => RStr(s)
    case Arr(items) => RArr(RecItems(items))
    case Obj(entries) => RObj(RecMembers(entries))
    case Struct(fields) => RObj(RecMembers(fields))
  }

  function RecItems(items: seq<Value>): seq<Rec>
    decreases DepthOf(items), |items| + 1
  {
    if |items| == 0 then [] else [ToRec(items[0])] + RecItems(items[1..])
  }

  function RecMembers(entries: seq<Entry>): map<Text, Rec>
    decreases EntryDepth(entries), |entries| + 1
  {
    if |entries| == 0 then map[] else map[entries[0].key := ToRec(entries[0].value)] + RecMembers(entries[1..])
  }

  /** The record of the value with each text repaired. */
  function Repaired(v: Value): Rec
    decreases Depth(v), 0
  {
    match v
    case Null => RNull
    case Bool(b) => RBool(b)
    case Num(n) => RNum(n)
    case Str(s) => RStr(Repair(s))
    case Arr(items) => RArr(RepairedItems(items))
    case Obj(entries) => RObj(RepairedMembers(entries))
    case Struct(fields) => RObj(RepairedMembers(fields))
  }

  function RepairedItems(items: seq<Value>): seq<Rec>
    decreases DepthOf(items), |items| + 1
  {
    if |items| == 0 then [] else [Repaired(items[0])] + RepairedItems(items[1..])
  }

  function RepairedMembers(entries: seq<Entry>): map<Text, Rec>
    decreases EntryDepth(entries), |entries| + 1
  {
    if |entries| == 0 then map[]
    else map[Repair(entries[0].key) := Repaired(entries[0].value)] + RepairedMembers(entries[1..])
  }

  // ---- When keys stay apart ----

  predicate KeysApart(entries: seq<Entry>) {
    forall i, j :: 0 <= i < j < |entries| ==> Repair(entries[i].key) != Repair(entries[j].key)
  }

  /** At every object inside the repaired keys are still distinct. */
  predicate KeysSurvive(v: Value)
    decreases Depth(v), 0
  {
    match v
    case Arr(items) => ItemsSurvive(items)
    case Obj(entries) => KeysApart(entries) && EntriesSurvive(entries)
    case Struct(fields) => KeysApart(fields) && EntriesSurvive(fields)
    case _ => true
  }

  predicate ItemsSurvive(items: seq<Value>)
    decreases DepthOf(items), |items|
  {
    |items| > 0 ==> KeysSurvive(items[0]) && ItemsSurvive(items[1..])
  }

  predicate EntriesSurvive(entries: seq<Entry>)
    decreases EntryDepth(entries), |entries|
  {
    |entries| > 0 ==> KeysSurvive(entries[0].value) && EntriesSurvive(entries[1..])
  }

  lemma {:induction false} SurvivesIn(entries: seq<Entry>, e: Entry)
    requires EntriesSurvive(entries) && e in entries
    ensures KeysSurvive(e.value)
  {
    if entries[0] != e { SurvivesIn(entries[1..], e); }
  }

  lemma {:induction false} AmongSurvive(a: seq<Entry>, b: seq<Entry>)
    requires Among(a, b) && EntriesSurvive(b)
    ensures EntriesSurvive(a)
  {
    if |a| > 0 {
      SurvivesIn(b, a[0]);
      assert forall i :: 0 <= i < |a| - 1 ==> a[1..][i] == a[i + 1];
      AmongSurvive(a[1..], b);
    }
  }

  /** Reordering objects with distinct keys keeps their repaired keys apart. */
  lemma AmongApart(a: seq<Entry>, b: seq<Entry>)
    requires DistinctKeys(a) && Among(a, b) && KeysApart(b)
    ensures KeysApart(a)
  {
    forall i, j | 0 <= i < j < |a| ensures Repair(a[i].key) != Repair(a[j].key) {
      assert a[i] in b && a[j] in b && a[i].key != a[j].key;
      var p :| 0 <= p < |b| && b[p] == a[i];
      var q :| 0 <= q < |b| && b[q] == a[j];
      assert p != q;
    }
  }

  lemma SortedDistinct(entries: seq<Entry>)
    requires DistinctKeys(entries)
    ensures DistinctKeys(SortEntries(entries))
  {
    SortEntriesSorted(entries);
    var s := SortEntries(entries);
    forall i, j | 0 <= i < j < |s| ensures s[i].key != s[j].key {
      LessIrreflexive(s[i].key);
    }
  }

  lemma {:induction false} NormKeys(entries: seq<Entry>)
    ensures |NormEntries(entries)| == |entries|
    ensures forall i :: 0 <= i < |entries| ==> NormEntries(entries)[i] == NormEntry(entries[i])
  {
    if |entries| > 0 {
      NormKeys(entries[1..]);
      assert forall i :: 0 < i < |entries| ==> NormEntries(entries)[i] == NormEntries(entries[1..])[i - 1];
    }
  }

  lemma ApartIffNormDistinct(entries: seq<Entry>)
    ensures DistinctKeys(NormEntries(entries)) <==> KeysApart(entries)
  {
    NormKeys(entries);
    assert forall i :: 0 <= i < |entries| ==> NormEntries(entries)[i].key == Repair(entries[i].key);
  }

  // ---- No member lost ----

  /** At every object the record has as many members as were read. */
  predicate NothingLost(v: Value)
    decreases Depth(v), 0
  {
    match v
    case Arr(items) => NoneLostIn(items)
    case Obj(entries) => |RecMembers(entries)| == |entries| && NoneLostAmong(entries)
    case Struct(fields) => |RecMembers(fields)| == |fields| && NoneLostAmong(fields)
    case _ => true
  }

  predicate NoneLostIn(items: seq<Value>)
    decreases DepthOf(items), |items|
  {
    |items| > 0 ==> NothingLost(items[0]) && NoneLostIn(items[1..])
  }

  predicate NoneLostAmong(entries: seq<Entry>)
    decreases EntryDepth(entries), |entries|
  {
    |entries| > 0 ==> NothingLost(entries[0].value) && NoneLostAmong(entries[1..])
  }

  /** The names of a record are the names read. */
  lemma {:induction false} RecKeys(entries: seq<Entry>, key: Text)
    ensures key in RecMembers(entries) <==> HasKey(entries, key)
  {
    if |entries| > 0 {
      RecKeys(entries[1..], key);
      HasKeyStep(entries, key);
    }
  }

  lemma HasKeyStep(entries: seq<Entry>, key: Text)
    requires |entries| > 0
    ensures HasKey(entries, key) <==> entries[0].key == key || HasKey(entries[1..], key)
  {
    if HasKey(entries, key) && entries[0].key != key {
      var i :| 0 <= i < |entries| && entries[i].key == key;
      assert entries[1..][i - 1].key == key;
    }
    if HasKey(entries[1..], key) {
      var i :| 0 <= i < |entries[1..]| && entries[1..][i].key == key;
      assert entries[i + 1].key == key;
    }
  }

  lemma AddedKeys(k: Text, x: Rec, m: map<Text, Rec>)
    ensures (map[k := x] + m).Keys == m.Keys + {k}
  {
  }

  lemma AddedSize(k: Text, x: Rec, m: map<Text, Rec>)
    ensures |map[k := x] + m| == if k in m then |m| else |m| + 1
  {
    var n := map[k := x] + m;
    AddedKeys(k, x, m);
    if k in m { assert m.Keys + {k} == m.Keys; }
    assert |n| == |n.Keys| && |m| == |m.Keys|;
  }

  lemma DistinctStep(entries: seq<Entry>)
    requires |entries| > 0
    ensures DistinctKeys(entries) <==> DistinctKeys(entries[1..]) && !HasKey(entries[1..], entries[0].key)
  {
    var rest := entries[1..];
    assert forall i :: 0 <= i < |rest| ==> rest[i] == entries[i + 1];
    if DistinctKeys(rest) && !HasKey(rest, entries[0].key) {
      forall i, j | 0 <= i < j < |entries| ensures entries[i].key != entries[j].key {
        assert entries[j] == rest[j - 1];
        if i > 0 { assert entries[i] == rest[i - 1]; }
      }
    }
  }

  lemma {:induction false} SizeIffDistinct(entries: seq<Entry>)
    ensures |RecMembers(entries)| <= |entries|
    ensures |RecMembers(entries)| == |entries| <==> DistinctKeys(entries)
  {
    if |entries| > 0 {
      SizeIffDistinct(entries[1..]);
      RecKeys(entries[1..], entries[0].key);
      AddedSize(entries[0].key, ToRec(entries[0].value), RecMembers(entries[1..]));
      DistinctStep(entries);
    }
  }

  /**
   * Reading the printed value into records loses no member, at any depth, exactly when its keys survive their repair.
   */
  lemma {:induction false} NothingLostIff(v: Value)
    requires Proper(v)
    ensures NothingLost(Norm(v)) <==> KeysSurvive(v)
    decreases Depth(v), 0
  {
    match v
    case Arr(items) => ItemsLostIff(items);
    case Struct(fields) => FieldsLostIff(fields);
    case Obj(entries) => SortedLostIff(entries);
    case _ =>
  }

  lemma {:induction false} SortedLostIff(entries: seq<Entry>)
    requires DistinctKeys(entries) && ProperEntries(entries)
    ensures NothingLost(Obj(NormSorted(entries))) <==> KeysApart(entries) && EntriesSurvive(entries)
    decreases EntryDepth(entries), |entries| + 3
  {
    var sorted := SortEntries(entries);
    ObjectUnfold(entries, false);
    AmongDepth(sorted, entries);
    AmongProper(sorted, entries);
    FieldsLostIff(sorted);
    SortedSurvive(entries);
  }

  lemma {:induction false} FieldsLostIff(fields: seq<Entry>)
    requires ProperEntries(fields)
    ensures NothingLost(Obj(NormEntries(fields))) <==> KeysApart(fields) && EntriesSurvive(fields)
    decreases EntryDepth(fields), |fields| + 2
  {
    EntriesLostIff(fields);
    SizeIffDistinct(NormEntries(fields));
    ApartIffNormDistinct(fields);
  }

  lemma SortedSurvive(entries: seq<Entry>)
    requires DistinctKeys(entries)
    ensures KeysApart(SortEntries(entries)) <==> KeysApart(entries)
    ensures EntriesSurvive(SortEntries(entries)) <==> EntriesSurvive(entries)
  {
    var sorted := SortEntries(entries);
    SortedDistinct(entries);
    if KeysApart(entries) { AmongApart(sorted, entries); }
    if KeysApart(sorted) { AmongApart(entries, sorted); }
    if EntriesSurvive(entries) { AmongSurvive(sorted, entries); }
    if EntriesSurvive(sorted) { AmongSurvive(entries, sorted); }
  }

  lemma {:induction false} ItemsLostIff(items: seq<Value>)
    requires ProperItems(items)
    ensures NoneLostIn(NormItems(items)) <==> ItemsSurvive(items)
    decreases DepthOf(items), |items| + 1
  {
    if |items| > 0 {
      NothingLostIff(items[0]);
      ItemsLostIff(items[1..]);
      assert NormItems(items)[1..] == NormItems(items[1..]);
    }
  }

  lemma {:induction false} EntriesLostIff(entries: seq<Entry>)
    requires ProperEntries(entries)
    ensures NoneLostAmong(NormEntries(entries)) <==> EntriesSurvive(entries)
    decreases EntryDepth(entries), |entries| + 1
  {
    if |entries| > 0 {
      NothingLostIff(entries[0].value);
      EntriesLostIff(entries[1..]);
      assert NormEntries(entries)[1..] == NormEntries(entries[1..]);
    }
  }

  // ---- The record read ----

  predicate HasRepaired(entries: seq<Entry>, key: Text, x: Rec) {
    exists i :: 0 <= i < |entries| && Repair(entries[i].key) == key && Repaired(entries[i].value) == x
  }

  /** With the repaired keys apart, the record holds each member's value, and nothing else. */
  lemma {:induction false} RepairedLookup(entries: seq<Entry>, key: Text, x: Rec)
    requires KeysApart(entries)
    ensures key in RepairedMembers(entries) && RepairedMembers(entries)[key] == x <==> HasRepaired(entries, key, x)
  {
    if |entries| > 0 {
      var rest := entries[1..];
      assert forall i :: 0 <= i < |rest| ==> rest[i] == entries[i + 1];
      RepairedLookup(rest, key, x);
      RepairedNames(rest, key);
      RepairedStep(entries, key, x);
    }
  }

  lemma {:induction false} RepairedNames(entries: seq<Entry>, key: Text)
    ensures key in RepairedMembers(entries) <==> exists i :: 0 <= i < |entries| && Repair(entries[i].key) == key
  {
    if |entries| > 0 {
      var rest := entries[1..];
      RepairedNames(rest, key);
      assert forall i :: 0 <= i < |rest| ==> rest[i] == entries[i + 1];
      if i :| 0 < i < |entries| && Repair(entries[i].key) == key {
        assert Repair(rest[i - 1].key) == key;
      }
    }
  }

  lemma RepairedStep(entries: seq<Entry>, key: Text, x: Rec)
    requires |entries| > 0
    ensures HasRepaired(entries, key, x) <==>
            (Repair(entries[0].key) == key && Repaired(entries[0].value) == x) || HasRepaired(entries[1..], key, x)
  {
    var rest := entries[1..];
    assert forall i :: 0 <= i < |rest| ==> rest[i] == entries[i + 1];
    if HasRepaired(rest, key, x) {
      var i :| 0 <= i < |rest| && Repair(rest[i].key) == key && Repaired(rest[i].value) == x;
      assert Repair(entries[i + 1].key) == key && Repaired(entries[i + 1].value) == x;
    }
    if i :| 0 < i < |entries| && Repair(entries[i].key) == key && Repaired(entries[i].value) == x {
      assert Repair(rest[i - 1].key) == key && Repaired(rest[i - 1].value) == x;
    }
  }

  lemma HasRepairedAmong(a: seq<Entry>, b: seq<Entry>, key: Text, x: Rec)
    requires Among(a, b) && HasRepaired(a, key, x)
    ensures HasRepaired(b, key, x)
  {
    var i :| 0 <= i < |a| && Repair(a[i].key) == key && Repaired(a[i].value) == x;
    assert a[i] in b;
    var j :| 0 <= j < |b| && b[j] == a[i];
  }

  /** Order does not show in a record. */
  lemma SameRecord(a: seq<Entry>, b: seq<Entry>)
    requires KeysApart(a) && KeysApart(b) && Among(a, b) && Among(b, a)
    ensures RepairedMembers(a) == RepairedMembers(b)
  {
    var m, n := RepairedMembers(a), RepairedMembers(b);
    forall key | key in m ensures key in n && n[key] == m[key] {
      RepairedLookup(a, key, m[key]);
      HasRepairedAmong(a, b, key, m[key]);
      RepairedLookup(b, key, m[key]);
    }
    forall key | key in n ensures key in m {
      RepairedLookup(b, key, n[key]);
      HasRepairedAmong(b, a, key, n[key]);
      RepairedLookup(a, key, n[key]);
    }
  }

  lemma {:induction false} NormRecord(v: Value)
    requires Proper(v) && KeysSurvive(v)
    ensures ToRec(Norm(v)) == Repaired(v)
    decreases Depth(v), 0
  {
    match v
    case Arr(items) => NormRecordItems(items);
    case Struct(fields) => NormRecordMembers(fields);
    case Obj(entries) => NormRecordSorted(entries);
    case _ =>
  }

  lemma {:induction false} NormRecordSorted(entries: seq<Entry>)
    requires DistinctKeys(entries) && ProperEntries(entries) && KeysApart(entries) && EntriesSurvive(entries)
    ensures RecMembers(NormSorted(entries)) == RepairedMembers(entries)
    decreases EntryDepth(entries), |entries| + 2
  {
    var sorted := SortEntries(entries);
    ObjectUnfold(entries, false);
    AmongDepth(sorted, entries);
    AmongProper(sorted, entries);
    AmongSurvive(sorted, entries);
    SortedDistinct(entries);
    AmongApart(sorted, entries);
    NormRecordMembers(sorted);
    SameRecord(sorted, entries);
  }

  lemma {:induction false} NormRecordItems(items: seq<Value>)
    requires ProperItems(items) && ItemsSurvive(items)
    ensures RecItems(NormItems(items)) == RepairedItems(items)
    decreases DepthOf(items), |items| + 1
  {
    if |items| > 0 {
      NormRecord(items[0]);
      NormRecordItems(items[1..]);
      assert NormItems(items)[1..] == NormItems(items[1..]);
    }
  }

  lemma {:induction false} NormRecordMembers(entries: seq<Entry>)
    requires ProperEntries(entries) && EntriesSurvive(entries)
    ensures RecMembers(NormEntries(entries)) == RepairedMembers(entries)
    decreases EntryDepth(entries), |entries| + 1
  {
    if |entries| > 0 {
      NormRecord(entries[0].value);
      NormRecordMembers(entries[1..]);
      assert NormEntries(entries)[1..] == NormEntries(entries[1..]);
    }
  }

  // ---- Main results ----

  /**
   * Reading a printed value back into records loses a member at some object exactly when two of its keys are the same
   * after repair.
   */
  lemma MembersReadBackIff(v: Value, html: bool)
    requires Proper(v) && GoMarshal(v, html).Text?
    ensures var p := Parse(GoMarshal(v, html).text); p.Some? && (NothingLost(p.value) <==> KeysSurvive(v))
  {
    MarshalReadsBack(v, html);
    NothingLostIff(v);
  }

  /** Otherwise the record read is the one printed, with each text repaired. */
  lemma RecordReadsBack(v: Value, html: bool)
    requires Proper(v) && KeysSurvive(v) && GoMarshal(v, html).Text?
    ensures var p := Parse(GoMarshal(v, html).text); p.Some? && ToRec(p.value) == Repaired(v)
  {
    MarshalReadsBack(v, html);
    NormRecord(v);
  }

  // ---- Two keys that become one ----

  /** An object with the two halves of a surrogate pair as keys. */
  const HALVES := Obj([Entry([0xd800], Null), Entry([0xdc00], Null)])

  lemma HalvesCollide(html: bool)
    ensures Proper(HALVES) && GoMarshal(HALVES, html).Text? && !KeysSurvive(HALVES)
    ensures var p := Parse(GoMarshal(HALVES, html).text); p.Some? && !NothingLost(p.value)
  {
    var a, b := Entry([0xd800], Null), Entry([0xdc00], Null);
    assert [a, b][1..] == [b] && [b][1..] == [];
    assert Repair([0xd800]) == [0xfffd] + RepairFrom([0xd800], 1) == [0xfffd];
    assert Repair([0xdc00]) == [0xfffd] + RepairFrom([0xdc00], 1) == [0xfffd];
    assert Repair([a, b][0].key) == Repair([a, b][1].key);
    PrintableIff(HALVES, html);
    assert IntegerEntries([b]) && IntegerEntries([a, b]);
    assert ProperEntries([b]) && ProperEntries([a, b]);
    MembersReadBackIff(HALVES, html);
  }

  // ---- Well-formed values ----

  /** No text inside has a lone surrogate. */
  predicate AllWellFormed(v: Value)
    decreases Depth(v), 0
  {
    match v
    case Str(s) => WellFormed(s)
    case Arr(items) => ItemsWellFormed(items)
    case Obj(entries) => EntriesWellFormed(entries)
    case Struct(fields) => EntriesWellFormed(fields)
    case _ => true
  }

  predicate ItemsWellFormed(items: seq<Value>)
    decreases DepthOf(items), |items|
  {
    |items| > 0 ==> AllWellFormed(items[0]) && ItemsWellFormed(items[1..])
  }

  predicate EntriesWellFormed(entries: seq<Entry>)
    decreases EntryDepth(entries), |entries|
  {
    |entries| > 0 ==> WellFormed(entries[0].key) && AllWellFormed(entries[0].value) && EntriesWellFormed(entries[1..])
  }

  lemma {:induction false} RepairKeepsWellFormed(v: Value)
    requires AllWellFormed(v)
    ensures Repaired(v) == ToRec(v)
    decreases Depth(v), 0
  {
    match v
    case Str(s) => RepairWellFormed(s);
    case Arr(items) => RepairKeepsItems(items);
    case Obj(entries) => RepairKeepsMembers(entries);
    case Struct(fields) => RepairKeepsMembers(fields);
    case _ =>
  }

  lemma {:induction false} RepairKeepsItems(items: seq<Value>)
    requires ItemsWellFormed(items)
    ensures RepairedItems(items) == RecItems(items)
    decreases DepthOf(items), |items|
  {
    if |items| > 0 {
      RepairKeepsWellFormed(items[0]);
      RepairKeepsItems(items[1..]);
    }
  }

  lemma {:induction false} RepairKeepsMembers(entries: seq<Entry>)
    requires EntriesWellFormed(entries)
    ensures RepairedMembers(entries) == RecMembers(entries)
    decreases EntryDepth(entries), |entries|
  {
    if |entries| > 0 {
      RepairWellFormed(entries[0].key);
      RepairKeepsWellFormed(entries[0].value);
      RepairKeepsMembers(entries[1..]);
    }
  }

  // ---- Distinct names ----

  /** Every object and every struct inside has distinct names. */
  predicate NamesDistinct(v: Value)
    decreases Depth(v), 0
  {
    match v
    case Arr(items) => ItemNamesDistinct(items)
    case Obj(entries) => DistinctKeys(entries) && EntryNamesDistinct(entries)
    case Struct(fields) => DistinctKeys(fields) && EntryNamesDistinct(fields)
    case _ => true
  }

  predicate ItemNamesDistinct(items: seq<Value>)
    decreases DepthOf(items), |items|
  {
    |items| > 0 ==> NamesDistinct(items[0]) && ItemNamesDistinct(items[1..])
  }

  predicate EntryNamesDistinct(entries: seq<Entry>)
    decreases EntryDepth(entries), |entries|
  {
    |entries| > 0 ==> NamesDistinct(entries[0].value) && EntryNamesDistinct(entries[1..])
  }

  lemma {:induction false} KeysWellFormed(entries: seq<Entry>, i: nat)
    requires EntriesWellFormed(entries) && i < |entries|
    ensures Repair(entries[i].key) == entries[i].key
  {
    if i == 0 {
      RepairWellFormed(entries[0].key);
    } else {
      KeysWellFormed(entries[1..], i - 1);
    }
  }

  lemma ApartIff(entries: seq<Entry>)
    requires EntriesWellFormed(entries)
    ensures KeysApart(entries) <==> DistinctKeys(entries)
  {
    forall i | 0 <= i < |entries| ensures Repair(entries[i].key) == entries[i].key {
      KeysWellFormed(entries, i);
    }
  }

  /** Well-formed names that are distinct stay apart: nothing has to be asked of what repair makes of them. */
  lemma {:induction false} DistinctSurvive(v: Value)
    requires AllWellFormed(v) && NamesDistinct(v)
    ensures KeysSurvive(v) && Proper(v)
    decreases Depth(v), 0
  {
    match v
    case Arr(items) => DistinctItemsSurvive(items);
    case Obj(entries) =>
      ApartIff(entries);
      DistinctEntriesSurvive(entries);
    case Struct(fields) =>
      ApartIff(fields);
      DistinctEntriesSurvive(fields);
    case _ =>
  }

  lemma {:induction false} DistinctItemsSurvive(items: seq<Value>)
    requires ItemsWellFormed(items) && ItemNamesDistinct(items)
    ensures ItemsSurvive(items) && ProperItems(items)
    decreases DepthOf(items), |items|
  {
    if |items| > 0 {
      DistinctSurvive(items[0]);
      DistinctItemsSurvive(items[1..]);
    }
  }

  lemma {:induction false} DistinctEntriesSurvive(entries: seq<Entry>)
    requires EntriesWellFormed(entries) && EntryNamesDistinct(entries)
    ensures EntriesSurvive(entries) && ProperEntries(entries)
    decreases EntryDepth(entries), |entries|
  {
    if |entries| > 0 {
      DistinctSurvive(entries[0].value);
      DistinctEntriesSurvive(entries[1..]);
    }
  }

  /** A printed value without lone surrogates, with distinct names in each object, reads back as the record it is. */
  lemma WellFormedReadsBack(v: Value, html: bool)
    requires AllWellFormed(v) && NamesDistinct(v) && GoMarshal(v, html).Text?
    ensures var p := Parse(GoMarshal(v, html).text); p.Some? && ToRec(p.value) == ToRec(v)
  {
    DistinctSurvive(v);
    RecordReadsBack(v, html);
    RepairKeepsWellFormed(v);
  }
}
