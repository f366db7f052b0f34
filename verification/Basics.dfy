/** Small vocabulary shared by the model: optional values, counting and summing over sequences. */
module Basics {

  datatype Option<+T> = None | Some(value: T)

  datatype Result<+T, +E> = Ok(value: T) | Err(error: E)

  function Max(a: int, b: int): int {
    if a < b then b else a
  }

  function Min(a: int, b: int): int {
    if a < b then a else b
  }

  // ---- Rounding ----

  /** `Math.round`: halves upwards. */
  function Round(x: real): (n: int)
    ensures x >= 0.0 ==> n >= 0
  {
    (x + 0.5).Floor
  }

  predicate IsWhole(x: real) {
    x == x.Floor as real
  }

  /** The fraction of a number that rounding brings up. */
  predicate RoundsUp(x: real) {
    x - x.Floor as real >= 0.5
  }

  /** Towards zero, as `new Date` takes a number of milliseconds. */
  function Trunc(x: real): int {
    if x >= 0.0 then x.Floor else -(-x).Floor
  }

  lemma FloorAdd(n: int, x: real)
    ensures (n as real + x).Floor == n + x.Floor
  {
  }

  lemma TruncAdd(n: int, x: real)
    requires n >= 0 && x >= 0.0
    ensures Trunc(n as real + x) == n + x.Floor
  {
    FloorAdd(n, x);
  }

  lemma RoundAdd(n: int, x: real)
    ensures Round(n as real + x) == n + Round(x)
  {
  }

  lemma WholeNegated(x: real)
    ensures IsWhole(-x) <==> IsWhole(x)
  {
    if IsWhole(x) { FloorOfInt(-x.Floor); }
    if IsWhole(-x) { FloorOfInt(-(-x).Floor); }
  }

  lemma RoundFloor(x: real)
    ensures Round(x) == if RoundsUp(x) then x.Floor + 1 else x.Floor
  {
  }

  lemma FloorOfInt(n: int)
    ensures (n as real).Floor == n && IsWhole(n as real)
  {
  }

  lemma RoundWhole(x: real)
    ensures Round(x) as real == x <==> IsWhole(x)
  {
    RoundFloor(x);
    var f := x.Floor;
    if RoundsUp(x) {
      assert x < (f + 1) as real;
    }
  }

  // ---- Counting the elements of a sequence that satisfy a predicate ----

  function Count<T>(s: seq<T>, p: T -> bool): (n: nat)
    ensures n <= |s|
  {
    if |s| == 0 then 0 else Count(s[..|s| - 1], p) + (if p(s[|s| - 1]) then 1 else 0)
  }

  /** Replacing one element moves the count by that element alone. */
  lemma {:induction false} CountUpdate<T>(s: seq<T>, i: nat, x: T, p: T -> bool)
    requires i < |s|
    ensures Count(s[i := x], p) + (if p(s[i]) then 1 else 0) == Count(s, p) + (if p(x) then 1 else 0)
  {
    var n := |s| - 1;
    if i == n {
      assert s[i := x][..n] == s[..n];
    } else {
      assert s[i := x][..n] == s[..n][i := x];
      CountUpdate(s[..n], i, x, p);
    }
  }

  /** Counting is monotone when membership is, position by position. */
  lemma {:induction false} CountMono<T>(s: seq<T>, t: seq<T>, p: T -> bool, q: T -> bool)
    requires |s| == |t|
    requires forall i :: 0 <= i < |s| && p(s[i]) ==> q(t[i])
    ensures Count(s, p) <= Count(t, q)
  {
    if |s| > 0 {
      CountMono(s[..|s| - 1], t[..|s| - 1], p, q);
    }
  }

  lemma {:induction false} CountStrict<T>(s: seq<T>, t: seq<T>, p: T -> bool, q: T -> bool, k: nat)
    requires |s| == |t| && k < |s|
    requires forall i :: 0 <= i < |s| && p(s[i]) ==> q(t[i])
    requires !p(s[k]) && q(t[k])
    ensures Count(s, p) < Count(t, q)
  {
    var n := |s| - 1;
    if k == n {
      CountMono(s[..n], t[..n], p, q);
    } else {
      CountStrict(s[..n], t[..n], p, q, k);
    }
  }

  lemma {:induction false} CountNone<T>(s: seq<T>, p: T -> bool)
    requires forall i :: 0 <= i < |s| ==> !p(s[i])
    ensures Count(s, p) == 0
  {
    if |s| > 0 {
      CountNone(s[..|s| - 1], p);
    }
  }

  /** A predicate and its complement partition the sequence. */
  lemma {:induction false} CountSplit<T>(s: seq<T>, p: T -> bool, q: T -> bool)
    requires forall i :: 0 <= i < |s| ==> p(s[i]) != q(s[i])
    ensures Count(s, p) + Count(s, q) == |s|
  {
    if |s| > 0 {
      CountSplit(s[..|s| - 1], p, q);
    }
  }

  // ---- Sums ----

  function Sum(s: seq<nat>): nat {
    if |s| == 0 then 0 else Sum(s[..|s| - 1]) + s[|s| - 1]
  }

  lemma {:induction false} SumMono(s: seq<nat>, t: seq<nat>)
    requires |s| == |t| && forall i :: 0 <= i < |s| ==> s[i] <= t[i]
    ensures Sum(s) <= Sum(t)
  {
    if |s| > 0 {
      SumMono(s[..|s| - 1], t[..|s| - 1]);
    }
  }

  lemma {:induction false} SumStrict(s: seq<nat>, t: seq<nat>, k: nat)
    requires |s| == |t| && k < |s| && forall i :: 0 <= i < |s| ==> s[i] <= t[i]
    requires s[k] < t[k]
    ensures Sum(s) < Sum(t)
  {
    var n := |s| - 1;
    if k == n {
      SumMono(s[..n], t[..n]);
    } else {
      SumStrict(s[..n], t[..n], k);
    }
  }

  lemma {:induction false} SumPositive(s: seq<nat>, k: nat)
    requires k < |s| && s[k] > 0
    ensures Sum(s) > 0
  {
    if k < |s| - 1 {
      SumPositive(s[..|s| - 1], k);
    }
  }

  lemma {:induction false} SumDouble(s: seq<nat>, t: seq<nat>)
    requires |s| == |t| && forall i :: 0 <= i < |s| ==> t[i] == 2 * s[i]
    ensures Sum(t) == 2 * Sum(s)
  {
    if |s| > 0 {
      SumDouble(s[..|s| - 1], t[..|s| - 1]);
    }
  }
}
