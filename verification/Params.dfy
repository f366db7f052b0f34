/**
 * Grid expansion for sweeps, `expandGrid` and `resolveMembers` of src/core/params.ts:48-96: the combinations are the
 * mixed-radix numerals over the sorted keys, the last key running fastest.
 */
module Params {
  import opened Basics
  import opened JsonText

  /** One named list of values: an entry whose value is an array. */
  predicate IsGrid(grid: seq<Entry>) {
    forall i :: 0 <= i < |grid| ==> grid[i].value.Arr?
  }

  type ParamSet = map<Text, Value>

  // ---- The loops, as functions ----

  /** One base with each of the first n values. */
  function WithValues(base: ParamSet, key: Text, values: seq<Value>, n: nat): (r: seq<ParamSet>)
    requires n <= |values|
    ensures |r| == n && forall v :: 0 <= v < n ==> r[v] == base[key := values[v]]
  {
    if n == 0 then [] else WithValues(base, key, values, n - 1) + [base[key := values[n - 1]]]
  }

  /** Each of the first m bases with each of the values. */
  function Extend(bases: seq<ParamSet>, key: Text, values: seq<Value>, m: nat): (r: seq<ParamSet>)
    requires m <= |bases|
    ensures |r| == m * |values|
  {
    if m == 0 then [] else Extend(bases, key, values, m - 1) + WithValues(bases[m - 1], key, values, |values|)
  }

  /** The combinations of the first n axes. */
  function Combos(axes: seq<Entry>, n: nat): seq<ParamSet>
    requires IsGrid(axes) && n <= |axes|
  {
    if n == 0 then [map[]]
    else Extend(Combos(axes, n - 1), axes[n - 1].key, axes[n - 1].value.items, |Combos(axes, n - 1)|)
  }

  lemma SortedIsGrid(grid: seq<Entry>)
    requires IsGrid(grid)
    ensures IsGrid(SortEntries(grid))
  {
    var s := SortEntries(grid);
    forall i | 0 <= i < |s| ensures s[i].value.Arr? {
      assert s[i] in grid;
    }
  }

  /** The two inner loops. */
  method ExtendLoop(combos: seq<ParamSet>, key: Text, values: seq<Value>) returns (next: seq<ParamSet>)
    ensures next == Extend(combos, key, values, |combos|)
  {
    next := [];
    for m := 0 to |combos|
      invariant next == Extend(combos, key, values, m)
    {
      ghost var before := next;
      for v := 0 to |values|
        invariant next == before + WithValues(combos[m], key, values, v)
      {
        next := next + [combos[m][key := values[v]]];
      }
    }
  }

  /** The loop over the keys. */
  method ExpandAxes(axes: seq<Entry>) returns (combos: seq<ParamSet>)
    requires IsGrid(axes)
    ensures combos == Combos(axes, |axes|)
  {
    combos := [map[]];
    for n := 0 to |axes|
      invariant combos == Combos(axes, n)
    {
      combos := ExtendLoop(combos, axes[n].key, axes[n].value.items);
    }
  }

  /** The expansion: nothing for no keys, else the combinations over the sorted keys. */
  function Expanded(grid: seq<Entry>): seq<ParamSet>
    requires IsGrid(grid)
  {
    SortedIsGrid(grid);
    if grid == [] then [] else Combos(SortEntries(grid), |grid|)
  }

  method ExpandGrid(grid: seq<Entry>) returns (combos: seq<ParamSet>)
    requires IsGrid(grid) && DistinctKeys(grid)
    ensures combos == Expanded(grid)
  {
    SortedIsGrid(grid);
    var axes := SortEntries(grid);
    if |axes| == 0 { return []; }
    combos := ExpandAxes(axes);
    SomeKey(axes);
    if |combos| == 1 && |combos[0]| == 0 { return []; }
  }

  lemma SomeKey(axes: seq<Entry>)
    requires IsGrid(axes) && |axes| > 0
    ensures forall c :: 0 <= c < |Combos(axes, |axes|)| ==> |Combos(axes, |axes|)[c]| > 0
  {
    var n := |axes| - 1;
    var bases, key, values := Combos(axes, n), axes[n].key, axes[n].value.items;
    forall c | 0 <= c < |Combos(axes, |axes|)| ensures |Combos(axes, |axes|)[c]| > 0 {
      ExtendAt(bases, key, values, |bases|, c);
      assert key in Combos(axes, |axes|)[c].Keys;
    }
  }

  // ---- Mixed radix ----

  function Quo(c: nat, size: nat): nat
    requires size > 0
  {
    c / size
  }

  function Rem(c: nat, size: nat): (r: nat)
    requires size > 0
    ensures r < size
  {
    c % size
  }

  function Size(axes: seq<Entry>, i: nat): nat
    requires IsGrid(axes) && i < |axes|
  {
    |axes[i].value.items|
  }

  /** The number of combinations of the first n axes. */
  function Product(axes: seq<Entry>, n: nat): nat
    requires IsGrid(axes) && n <= |axes|
  {
    if n == 0 then 1 else Product(axes, n - 1) * Size(axes, n - 1)
  }

  /** Which value of axis i combination c takes: the digit of c at that place. */
  function Digit(axes: seq<Entry>, i: nat, n: nat, c: nat): (d: nat)
    requires IsGrid(axes) && i < n <= |axes| && c < Product(axes, n)
    ensures d < Size(axes, i)
    decreases n
  {
    Bounded(axes, n, c);
    var size := Size(axes, n - 1);
    if i == n - 1 then Rem(c, size) else Digit(axes, i, n - 1, Quo(c, size))
  }

  lemma Bounded(axes: seq<Entry>, n: nat, c: nat)
    requires IsGrid(axes) && 0 < n <= |axes| && c < Product(axes, n)
    ensures Size(axes, n - 1) > 0 && Quo(c, Size(axes, n - 1)) < Product(axes, n - 1)
  {
    QuotientBound(c, Size(axes, n - 1), Product(axes, n - 1));
  }

  lemma QuotientBound(c: nat, size: nat, p: nat)
    requires c < p * size
    ensures size > 0 && Quo(c, size) < p
  {
    assert size == 0 ==> p * size == 0;
    if c / size >= p {
      MulMono(size, p, c / size);
    }
  }

  lemma MulMono(k: nat, a: nat, b: nat)
    requires a <= b
    ensures a * k <= b * k
  {
  }

  /** Element c of the extension: base c / size with value c % size. */
  lemma {:induction false} ExtendAt(bases: seq<ParamSet>, key: Text, values: seq<Value>, m: nat, c: nat)
    requires m <= |bases| && c < m * |values|
    ensures |values| > 0 && Quo(c, |values|) < m
    ensures Extend(bases, key, values, m)[c] == bases[Quo(c, |values|)][key := values[Rem(c, |values|)]]
  {
    QuotientBound(c, |values|, m);
    if c < (m - 1) * |values| {
      ExtendAt(bases, key, values, m - 1, c);
    } else {
      LastRow(c, m, |values|);
    }
  }

  lemma LastRow(c: nat, m: nat, size: nat)
    requires 0 < m && 0 < size && (m - 1) * size <= c < m * size
    ensures Quo(c, size) == m - 1 && Rem(c, size) == c - (m - 1) * size
  {
    var r := c - (m - 1) * size;
    assert m * size == (m - 1) * size + size;
    Division(c, m - 1, size, r);
  }

  lemma Division(c: nat, q: nat, size: nat, r: nat)
    requires c == q * size + r && r < size
    ensures c / size == q && c % size == r
  {
    var p, s := c / size, c % size;
    assert c == p * size + s;
    if p < q {
      MulMono(size, p + 1, q);
    } else if q < p {
      MulMono(size, q + 1, p);
    }
  }

  lemma CombosStepCount(axes: seq<Entry>, n: nat)
    requires IsGrid(axes) && 0 < n <= |axes|
    ensures |Combos(axes, n)| == |Combos(axes, n - 1)| * Size(axes, n - 1)
  {
  }

  /** As many combinations as the product of the list lengths. */
  lemma {:induction false} CombosCount(axes: seq<Entry>, n: nat)
    requires IsGrid(axes) && n <= |axes|
    ensures |Combos(axes, n)| == Product(axes, n)
  {
    if n > 0 {
      CombosCount(axes, n - 1);
      CombosStepCount(axes, n);
    }
  }

  /** Combination c is combination c / size of the earlier axes, with the last key at its value c % size. */
  lemma ComboStep(axes: seq<Entry>, n: nat, c: nat)
    requires IsGrid(axes) && 0 < n <= |axes| && c < |Combos(axes, n)| && Size(axes, n - 1) > 0
    ensures Quo(c, Size(axes, n - 1)) < |Combos(axes, n - 1)|
    ensures Combos(axes, n)[c] ==
      var size := Size(axes, n - 1);
      Combos(axes, n - 1)[Quo(c, size)][axes[n - 1].key := axes[n - 1].value.items[Rem(c, size)]]
  {
    CombosStepCount(axes, n);
    ExtendAt(Combos(axes, n - 1), axes[n - 1].key, axes[n - 1].value.items, |Combos(axes, n - 1)|, c);
  }

  /** The combination takes the value at the digit for each of the first n keys. */
  predicate TakesDigits(axes: seq<Entry>, n: nat, c: nat, combo: ParamSet)
    requires IsGrid(axes) && n <= |axes| && c < Product(axes, n)
  {
    forall i :: 0 <= i < n ==> axes[i].key in combo && combo[axes[i].key] == axes[i].value.items[Digit(axes, i, n, c)]
  }

  predicate OnlyKeys(axes: seq<Entry>, n: nat, combo: ParamSet)
    requires n <= |axes|
  {
    forall key :: key in combo ==> exists i :: 0 <= i < n && axes[i].key == key
  }

  lemma OneMoreDigit(axes: seq<Entry>, n: nat, c: nat, size: nat, base: ParamSet, combo: ParamSet)
    requires IsGrid(axes) && Sorted(axes) && 0 < n <= |axes| && c < Product(axes, n) && size == Size(axes, n - 1) > 0
    requires Quo(c, size) < Product(axes, n - 1) && TakesDigits(axes, n - 1, Quo(c, size), base)
    requires combo == base[axes[n - 1].key := axes[n - 1].value.items[Rem(c, size)]]
    ensures TakesDigits(axes, n, c, combo)
  {
    forall i | 0 <= i < n ensures axes[i].key in combo &&
      combo[axes[i].key] == axes[i].value.items[Digit(axes, i, n, c)] {
      if i < n - 1 {
        assert Less(axes[i].key, axes[n - 1].key);
        LessIrreflexive(axes[i].key);
      }
    }
  }

  /** Combination c holds, for each key, the value at the digit of c in that key's place, and nothing else. */
  lemma {:induction false} ComboAt(axes: seq<Entry>, n: nat, c: nat)
    requires IsGrid(axes) && Sorted(axes) && n <= |axes| && c < Product(axes, n)
    ensures c < |Combos(axes, n)|
    ensures TakesDigits(axes, n, c, Combos(axes, n)[c]) && OnlyKeys(axes, n, Combos(axes, n)[c])
  {
    CombosCount(axes, n);
    if n > 0 {
      var size := Size(axes, n - 1);
      Bounded(axes, n, c);
      ComboStep(axes, n, c);
      ComboAt(axes, n - 1, Quo(c, size));
      OneMoreDigit(axes, n, c, size, Combos(axes, n - 1)[Quo(c, size)], Combos(axes, n)[c]);
    }
  }

  // ---- What a grid expands to ----

  /** Equal entries in any order sort to the same list. */
  lemma SameSorted(a: seq<Entry>, b: seq<Entry>)
    requires DistinctKeys(a) && DistinctKeys(b) && Among(a, b) && Among(b, a)
    ensures SortEntries(a) == SortEntries(b)
  {
    var x, y := SortEntries(a), SortEntries(b);
    SortEntriesSorted(a);
    SortEntriesSorted(b);
    forall i | 0 <= i < |x| ensures HasKey(y, x[i].key) { AmongHasKey(a, b, x[i]); }
    forall i | 0 <= i < |y| ensures HasKey(x, y[i].key) { AmongHasKey(b, a, y[i]); }
    SortedKeysUnique(x, y);
    forall i | 0 <= i < |x| ensures x[i] == y[i] {
      SameEntry(a, b, x[i], y[i]);
    }
  }

  lemma SameEntry(a: seq<Entry>, b: seq<Entry>, e: Entry, f: Entry)
    requires DistinctKeys(b) && Among(a, b) && e in a && f in b && e.key == f.key
    ensures e == f
  {
    var j :| 0 <= j < |a| && a[j] == e;
    assert a[j] in b;
    SameAtKey(b, e, f);
  }

  lemma AmongHasKey(a: seq<Entry>, b: seq<Entry>, e: Entry)
    requires e in SortEntries(a) && Among(a, b)
    ensures HasKey(SortEntries(b), e.key)
  {
    var y := SortEntries(b);
    var k :| 0 <= k < |SortEntries(a)| && SortEntries(a)[k] == e;
    assert e in a;
    var j :| 0 <= j < |a| && a[j] == e;
    var i :| 0 <= i < |b| && b[i] == a[j];
    assert b[i] in y;
  }

  lemma SameAtKey(entries: seq<Entry>, e: Entry, f: Entry)
    requires DistinctKeys(entries) && e in entries && f in entries && e.key == f.key
    ensures e == f
  {
    var i :| 0 <= i < |entries| && entries[i] == e;
    var j :| 0 <= j < |entries| && entries[j] == f;
  }

  /**
   * A grid expands to one combination for each mixed-radix numeral over its sorted keys; the order in which the keys
   * were given does not matter, and an empty list leaves nothing.
   */
  lemma GridIsMixedRadix(grid: seq<Entry>, c: nat)
    requires IsGrid(grid) && DistinctKeys(grid) && grid != []
    ensures IsGrid(SortEntries(grid))
    ensures |Expanded(grid)| == Product(SortEntries(grid), |grid|)
    ensures c < |Expanded(grid)| ==>
              && TakesDigits(SortEntries(grid), |grid|, c, Expanded(grid)[c])
              && OnlyKeys(SortEntries(grid), |grid|, Expanded(grid)[c])
  {
    SortedIsGrid(grid);
    SortEntriesSorted(grid);
    CombosCount(SortEntries(grid), |grid|);
    if c < |Expanded(grid)| { ComboAt(SortEntries(grid), |grid|, c); }
  }

  lemma GridOrderIsIrrelevant(a: seq<Entry>, b: seq<Entry>)
    requires IsGrid(a) && IsGrid(b) && DistinctKeys(a) && DistinctKeys(b) && Among(a, b) && Among(b, a)
    ensures Expanded(a) == Expanded(b)
  {
    SameSorted(a, b);
    assert |SortEntries(a)| == |a| && |SortEntries(b)| == |b|;
  }

  lemma {:induction false} ProductZero(axes: seq<Entry>, i: nat, n: nat)
    requires IsGrid(axes) && i < n <= |axes| && axes[i].value.items == []
    ensures Product(axes, n) == 0
  {
    if i < n - 1 { ProductZero(axes, i, n - 1); }
  }

  lemma EmptyAxisLeavesNothing(grid: seq<Entry>, e: Entry)
    requires IsGrid(grid) && DistinctKeys(grid) && e in grid && e.value.items == []
    ensures Expanded(grid) == []
  {
    SortedIsGrid(grid);
    var axes := SortEntries(grid);
    assert e in axes by {
      var j :| 0 <= j < |grid| && grid[j] == e;
      assert grid[j] in axes;
    }
    var i :| 0 <= i < |axes| && axes[i] == e;
    ProductZero(axes, i, |axes|);
    CombosCount(axes, |axes|);
  }

  lemma {:induction false} ProductPositive(axes: seq<Entry>, n: nat)
    requires IsGrid(axes) && n <= |axes| && forall i :: 0 <= i < n ==> axes[i].value.items != []
    ensures Product(axes, n) > 0
  {
    if n > 0 {
      ProductPositive(axes, n - 1);
      assert Size(axes, n - 1) > 0;
    }
  }

  /** A grid leaves nothing exactly when it has no key, or a key with an empty list. */
  lemma NothingLeftIff(grid: seq<Entry>)
    requires IsGrid(grid) && DistinctKeys(grid)
    ensures Expanded(grid) == [] <==> |grid| == 0 || exists e :: e in grid && e.value.items == []
  {
    if e :| e in grid && e.value.items == [] {
      EmptyAxisLeavesNothing(grid, e);
    } else if |grid| > 0 {
      SortedIsGrid(grid);
      var axes := SortEntries(grid);
      forall i | 0 <= i < |axes| ensures axes[i].value.items != [] { assert axes[i] in grid; }
      ProductPositive(axes, |axes|);
      CombosCount(axes, |axes|);
    }
  }

  // ---- resolveMembers ----

  datatype Member = Member(index: nat, values: ParamSet)

  /** None where the source throws: nothing to launch. */
  method ResolveMembers(defaults: ParamSet, params: seq<ParamSet>, grid: seq<Entry>) returns (r: Option<seq<Member>>)
    requires IsGrid(grid) && DistinctKeys(grid)
    ensures r.None? <==> params + Expanded(grid) == []
    ensures r.Some? ==> |r.value| == |params + Expanded(grid)|
    ensures r.Some? ==> forall i :: 0 <= i < |r.value| ==>
              r.value[i] == Member(i, defaults + (params + Expanded(grid))[i])
  {
    var sets := params;
    if |grid| > 0 {
      var more := ExpandGrid(grid);
      sets := sets + more;
    }
    if |sets| == 0 { return None; }
    return Some(seq(|sets|, i requires 0 <= i < |sets| => Member(i, defaults + sets[i])));
  }
}
