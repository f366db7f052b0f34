/**
 * Go-style durations (src/core/duration.ts): the tag reader `parseDuration`, the writer `formatDuration`,
 * and the launch-input parser `parseLifetimeDuration`. Numbers are exact: milliseconds are reals.
 */
module Duration {
  import opened Basics

  // ---- Characters and numbers ----

  predicate IsDigit(c: char) {
    '0' <= c <= '9'
  }

  /** What String.prototype.trim removes. */
  predicate IsSpace(c: char) {
    || '\t' <= c <= '\r' || c == ' ' || c == '\U{00A0}' || c == '\U{1680}' || '\U{2000}' <= c <= '\U{200A}'
    || c == '\U{2028}' || c == '\U{2029}' || c == '\U{202F}' || c == '\U{205F}' || c == '\U{3000}' || c == '\U{FEFF}'
  }

  function Trim(s: string): string {
    if |s| > 0 && IsSpace(s[0]) then Trim(s[1..])
    else if |s| > 0 && IsSpace(s[|s| - 1]) then Trim(s[..|s| - 1])
    else s
  }

  type DigitString = s: string | forall i :: 0 <= i < |s| ==> IsDigit(s[i])

  function DigitValue(c: char): nat
    requires IsDigit(c)
  {
    c as int - '0' as int
  }

  function Digits(s: DigitString): nat {
    if |s| == 0 then 0 else 10 * Digits(s[..|s| - 1]) + DigitValue(s[|s| - 1])
  }

  /** The value of the digits after a decimal point. */
  function Fraction(s: DigitString): (v: real)
    ensures v >= 0.0
  {
    if |s| == 0 then 0.0 else (DigitValue(s[0]) as real + Fraction(s[1..])) / 10.0
  }

  datatype Unit = Nanos | Micros | Millis | Seconds | Minutes | Hours | Days
  {
    /** The milliseconds in v of this unit. */
    function Ms(v: real): (r: real)
      ensures v >= 0.0 ==> r >= 0.0
    {
      match this
      case Nanos => v * 0.000001
      case Micros => v * 0.001
      case Millis => v
      case Seconds => v * 1000.0
      case Minutes => v * 60000.0
      case Hours => v * 3600000.0
      case Days => v * 86400000.0
    }
  }

  /** A number, as the digits before and after its point, and a unit. */
  datatype Seg = Seg(whole: DigitString, fraction: DigitString, unit: Unit)
  {
    function Value(): (v: real)
      ensures v >= 0.0
    {
      unit.Ms(Digits(whole) as real + Fraction(fraction))
    }
  }

  function Total(segs: seq<Seg>): (v: real)
    ensures v >= 0.0
  {
    if |segs| == 0 then 0.0 else segs[0].Value() + Total(segs[1..])
  }

  lemma {:induction false} TotalAppend(segs: seq<Seg>, seg: Seg)
    ensures Total(segs + [seg]) == Total(segs) + seg.Value()
  {
    if |segs| > 0 {
      assert (segs + [seg])[1..] == segs[1..] + [seg];
      TotalAppend(segs[1..], seg);
    } else {
      assert segs + [seg] == [seg];
    }
  }

  /** Where the digits from position i on end. */
  function DigitsEnd(s: string, i: nat): (e: nat)
    requires i <= |s|
    ensures i <= e <= |s|
    ensures forall k :: i <= k < e ==> IsDigit(s[k])
    ensures e < |s| ==> !IsDigit(s[e])
    decreases |s| - i
  {
    if i < |s| && IsDigit(s[i]) then DigitsEnd(s, i + 1) else i
  }

  lemma {:induction false} DigitsEndExact(s: string, i: nat, e: nat)
    requires i <= e <= |s|
    requires forall k :: i <= k < e ==> IsDigit(s[k])
    requires e < |s| ==> !IsDigit(s[e])
    ensures DigitsEnd(s, i) == e
    decreases e - i
  {
    if i < e {
      DigitsEndExact(s, i + 1, e);
    }
  }

  // ---- parseDuration ----

  /** Milliseconds, or not a duration. */
  datatype Parsed = Malformed | Value(ms: real)

  datatype UnitAt = NoUnitAt | UnitAt(len: nat, unit: Unit)

  /** The unit at position i, as the pattern ns|us|µs|ms|s|m|h finds it, and its length. */
  function TagUnit(s: string, i: nat): (r: UnitAt)
    requires i <= |s|
    ensures r.UnitAt? ==> 0 < r.len && i + r.len <= |s| && !IsDigit(s[i]) && s[i] != '.'
  {
    if i + 2 <= |s| && s[i] == 'n' && s[i + 1] == 's' then UnitAt(2, Nanos)
    else if i + 2 <= |s| && (s[i] == 'u' || s[i] == '\U{00B5}') && s[i + 1] == 's' then UnitAt(2, Micros)
    else if i + 2 <= |s| && s[i] == 'm' && s[i + 1] == 's' then UnitAt(2, Millis)
    else if i + 1 <= |s| && s[i] == 's' then UnitAt(1, Seconds)
    else if i + 1 <= |s| && s[i] == 'm' then UnitAt(1, Minutes)
    else if i + 1 <= |s| && s[i] == 'h' then UnitAt(1, Hours)
    else NoUnitAt
  }

  /** Where the number \d+(\.\d+)? at position i ends; i itself when there is none. */
  function NumberEnd(s: string, i: nat): (e: nat)
    requires i <= |s|
    ensures DigitsEnd(s, i) <= e <= |s|
    ensures e > i ==> DigitsEnd(s, i) > i
    ensures e > DigitsEnd(s, i) ==>
              s[DigitsEnd(s, i)] == '.' && e > DigitsEnd(s, i) + 1 && e == DigitsEnd(s, DigitsEnd(s, i) + 1)
  {
    var n := DigitsEnd(s, i);
    if i < n < |s| && s[n] == '.' && DigitsEnd(s, n + 1) > n + 1 then DigitsEnd(s, n + 1) else n
  }

  datatype Match = NoMatch | Match(end: nat, seg: Seg)

  /** One match of the parser's pattern at position i, and where it ends. */
  function Segment(s: string, i: nat): (r: Match)
    requires i <= |s|
    ensures r.Match? ==> i < r.end <= |s|
  {
    var n, e := DigitsEnd(s, i), NumberEnd(s, i);
    var unit := TagUnit(s, e);
    if e == i || unit.NoUnitAt? then NoMatch
    else Match(e + unit.len, Seg(s[i..n], if e == n then [] else s[n + 1..e], unit.unit))
  }

  datatype SegList = NoList | List(segs: seq<Seg>)

  function Cons(seg: Seg, rest: SegList): SegList {
    if rest.NoList? then NoList else List([seg] + rest.segs)
  }

  /** The segments of a string that is one after another from position i to its end. */
  function Segments(s: string, i: nat): SegList
    requires i <= |s|
    decreases |s| - i
  {
    if i == |s| then List([])
    else
      var m := Segment(s, i);
      if m.NoMatch? then NoList else Cons(m.seg, Segments(s, m.end))
  }

  predicate Signed(s: string) {
    |s| > 0 && (s[0] == '+' || s[0] == '-')
  }

  function ParseDuration(input: string): Parsed {
    if input == "0" then Value(0.0)
    else
      var s := Trim(input);
      var i := if Signed(s) then 1 else 0;
      if i == |s| then Malformed else Summed(Segments(s, i), Signed(s) && s[0] == '-')
  }

  /** The total of the segments, with its sign. */
  function Summed(l: SegList, negative: bool): Parsed {
    if l.NoList? then Malformed else Value(if negative then -Total(l.segs) else Total(l.segs))
  }

  /** `parseDuration` as the source writes it, accumulating a total match by match. */
  method ParseDurationLoop(input: string) returns (r: Parsed)
    ensures r == ParseDuration(input)
  {
    if input == "0" { return Value(0.0); }
    var s := Trim(input);
    if s == "" { return Malformed; }
    var negative, i := false, 0;
    if s[0] == '+' || s[0] == '-' {
      negative := s[0] == '-';
      i := 1;
    }
    if i == |s| { return Malformed; }
    var total, consumed := 0.0, i;
    ghost var found: seq<Seg> := [];
    JoinedNil(Segments(s, i));
    while consumed < |s|
      invariant i <= consumed <= |s|
      invariant total == Total(found)
      invariant Segments(s, i) == Joined(found, Segments(s, consumed))
    {
      var m := Segment(s, consumed);
      if m.NoMatch? { break; }
      TotalAppend(found, m.seg);
      JoinedCons(found, m.seg, Segments(s, m.end));
      found := found + [m.seg];
      total := total + m.seg.Value();
      consumed := m.end;
    }
    if consumed != |s| { return Malformed; }
    assert found + [] == found;
    return Value(if negative then -total else total);
  }

  ghost function Joined(found: seq<Seg>, rest: SegList): SegList {
    if rest.NoList? then NoList else List(found + rest.segs)
  }

  lemma JoinedNil(rest: SegList)
    ensures Joined([], rest) == rest
  {
    if rest.List? {
      assert [] + rest.segs == rest.segs;
    }
  }

  lemma JoinedCons(found: seq<Seg>, seg: Seg, rest: SegList)
    ensures Joined(found, Cons(seg, rest)) == Joined(found + [seg], rest)
  {
    if rest.List? {
      assert found + ([seg] + rest.segs) == found + [seg] + rest.segs;
    }
  }

  // ---- formatDuration ----

  function NatToString(n: nat): (s: DigitString)
    ensures |s| > 0
  {
    var d := [('0' as int + n % 10) as char];
    if n < 10 then d else NatToString(n / 10) + d
  }

  /** Three fraction digits, trailing zeros dropped. */
  function Thousandths(r: nat): (s: DigitString)
    requires r < 1000
    ensures r > 0 ==> |s| > 0
  {
    var a, b, c := NatToString(r / 100), NatToString(r / 10 % 10), NatToString(r % 10);
    if r == 0 then [] else if r % 100 == 0 then a else if r % 10 == 0 then a + b else a + b + c
  }

  function HoursIn(ms: real): (h: nat)
    requires ms >= 0.0
    ensures h as real * 3600000.0 <= ms < (h + 1) as real * 3600000.0
  {
    (ms / 3600000.0).Floor
  }

  function MinutesIn(ms: real): (m: nat)
    requires ms >= 0.0
    ensures m as real * 60000.0 <= ms < (m + 1) as real * 60000.0
  {
    (ms / 60000.0).Floor
  }

  /**
   * Hours, minutes and what is left below a minute; the latter to the nearest thousandth of a second, as `toFixed(3)`
   * writes it.
   */
  function Parts(abs: real): seq<Seg>
    requires abs >= 0.0
  {
    var h := HoursIn(abs);
    var rest := abs - h as real * 3600000.0;
    var m := MinutesIn(rest);
    var s := rest - m as real * 60000.0;
    PartsOf(h, m, s > 0.0, Round(s))
  }

  /** `more`: something is left below a minute, k milliseconds when rounded. */
  function PartsOf(h: nat, m: nat, more: bool, k: nat): seq<Seg> {
    var front := (if h > 0 then [Seg(NatToString(h), "", Hours)] else [])
                 + (if m > 0 || (h > 0 && more) then [Seg(NatToString(m), "", Minutes)] else []);
    if more || front == [] then front + [Seg(NatToString(k / 1000), Thousandths(k % 1000), Seconds)] else front
  }

  /** The letter of the three units the writer uses. */
  function Letter(u: Unit): char {
    match u
    case Hours => 'h'
    case Minutes => 'm'
    case _ => 's'
  }

  function SegToString(g: Seg): string {
    g.whole + (if g.fraction == [] then [] else ['.'] + g.fraction) + [Letter(g.unit)]
  }

  function SegsToString(segs: seq<Seg>): string {
    if |segs| == 0 then [] else SegToString(segs[0]) + SegsToString(segs[1..])
  }

  function FormatDuration(ms: real): string {
    if ms == 0.0 then "0s"
    else if ms < 0.0 then ['-'] + SegsToString(Parts(-ms))
    else SegsToString(Parts(ms))
  }

  // ---- Reading back what was written ----

  /** Segments that read back as themselves: a unit the writer uses, and at least one whole digit. */
  predicate Writable(g: Seg) {
    |g.whole| > 0 && (g.unit == Hours || g.unit == Minutes || g.unit == Seconds)
  }

  predicate At(s: string, i: nat, t: string) {
    i + |t| <= |s| && forall k :: 0 <= k < |t| ==> s[i + k] == t[k]
  }

  lemma AtParts(s: string, i: nat, t: string, u: string)
    requires At(s, i, t + u)
    ensures At(s, i, t) && At(s, i + |t|, u)
  {
    forall k | 0 <= k < |t| ensures s[i + k] == t[k] { assert (t + u)[k] == t[k]; }
    forall k | 0 <= k < |u| ensures s[i + |t| + k] == u[k] { assert (t + u)[|t| + k] == u[k]; }
  }

  lemma AtDigits(s: string, i: nat, a: DigitString)
    requires At(s, i, a) && (i + |a| == |s| || !IsDigit(s[i + |a|]))
    ensures DigitsEnd(s, i) == i + |a|
    ensures s[i..i + |a|] == a
  {
    forall k | i <= k < i + |a| ensures IsDigit(s[k]) {
      assert s[i + (k - i)] == a[k - i];
    }
    DigitsEndExact(s, i, i + |a|);
  }

  lemma WholeReadsBack(s: string, i: nat, w: DigitString, u: Unit)
    requires Writable(Seg(w, [], u)) && At(s, i, w + [Letter(u)])
    requires i + |w| + 1 == |s| || IsDigit(s[i + |w| + 1])
    ensures Segment(s, i) == Match(i + |w| + 1, Seg(w, [], u))
  {
    AtParts(s, i, w, [Letter(u)]);
    assert s[i + |w| + 0] == [Letter(u)][0];
    AtDigits(s, i, w);
  }

  lemma FractionReadsBack(s: string, i: nat, w: DigitString, f: DigitString, u: Unit)
    requires Writable(Seg(w, f, u)) && |f| > 0
    requires At(s, i, w) && At(s, i + |w|, ['.']) && At(s, i + |w| + 1, f) && At(s, i + |w| + 1 + |f|, [Letter(u)])
    requires i + |w| + |f| + 2 == |s| || IsDigit(s[i + |w| + |f| + 2])
    ensures Segment(s, i) == Match(i + |w| + |f| + 2, Seg(w, f, u))
  {
    assert s[i + |w| + 0] == ['.'][0] && s[i + |w| + 1 + |f| + 0] == [Letter(u)][0];
    AtDigits(s, i, w);
    AtDigits(s, i + |w| + 1, f);
    FractionSegment(s, i, |w|, |f|, u);
  }

  lemma FractionSegment(s: string, i: nat, w: nat, f: nat, u: Unit)
    requires w > 0 && f > 0 && i + w + f + 2 <= |s| && (u == Hours || u == Minutes || u == Seconds)
    requires DigitsEnd(s, i) == i + w && s[i + w] == '.' && DigitsEnd(s, i + w + 1) == i + w + 1 + f
    requires s[i + w + 1 + f] == Letter(u) && (i + w + f + 2 < |s| ==> IsDigit(s[i + w + f + 2]))
    ensures Segment(s, i) == Match(i + w + f + 2, Seg(s[i..i + w], s[i + w + 1..i + w + 1 + f], u))
  {
    assert NumberEnd(s, i) == i + w + 1 + f;
  }

  /** One written segment, followed by the end or a digit, reads back. */
  lemma SegmentReadsBack(s: string, i: nat, g: Seg)
    requires Writable(g) && At(s, i, SegToString(g))
    requires i + |SegToString(g)| == |s| || IsDigit(s[i + |SegToString(g)|])
    ensures Segment(s, i) == Match(i + |SegToString(g)|, g)
  {
    var w, f, u := g.whole, g.fraction, [Letter(g.unit)];
    if f == [] {
      assert SegToString(g) == w + u;
      WholeReadsBack(s, i, w, g.unit);
    } else {
      assert SegToString(g) == w + (['.'] + (f + u));
      AtParts(s, i, w, ['.'] + (f + u));
      AtParts(s, i + |w|, ['.'], f + u);
      AtParts(s, i + |w| + 1, f, u);
      FractionReadsBack(s, i, w, f, g.unit);
    }
  }

  lemma FirstIsDigit(g: Seg)
    requires |g.whole| > 0
    ensures |SegToString(g)| > 0 && IsDigit(SegToString(g)[0])
  {
    assert SegToString(g)[0] == g.whole[0];
  }

  lemma StartsWithDigit(s: string, i: nat, segs: seq<Seg>)
    requires |segs| > 0 && Writable(segs[0]) && At(s, i, SegsToString(segs))
    ensures i < |s| && IsDigit(s[i])
  {
    FirstIsDigit(segs[0]);
    assert s[i + 0] == SegsToString(segs)[0] == SegToString(segs[0])[0];
  }

  /** A list of written segments reads back. */
  lemma {:induction false} SegmentsReadBack(s: string, i: nat, segs: seq<Seg>)
    requires forall k :: 0 <= k < |segs| ==> Writable(segs[k])
    requires At(s, i, SegsToString(segs)) && i + |SegsToString(segs)| == |s|
    ensures Segments(s, i) == List(segs)
    decreases |segs|
  {
    if |segs| > 0 {
      var end := i + |SegToString(segs[0])|;
      HeadReadsBack(s, i, segs);
      SegmentsReadBack(s, end, segs[1..]);
      SegmentsStep(s, i, end, segs);
    }
  }

  lemma HeadReadsBack(s: string, i: nat, segs: seq<Seg>)
    requires |segs| > 0 && forall k :: 0 <= k < |segs| ==> Writable(segs[k])
    requires At(s, i, SegsToString(segs)) && i + |SegsToString(segs)| == |s|
    ensures var end := i + |SegToString(segs[0])|;
            && i < end <= |s| && Segment(s, i) == Match(end, segs[0])
            && At(s, end, SegsToString(segs[1..])) && end + |SegsToString(segs[1..])| == |s|
  {
    var t, tail := SegToString(segs[0]), segs[1..];
    AtParts(s, i, t, SegsToString(tail));
    if |tail| > 0 {
      StartsWithDigit(s, i + |t|, tail);
    }
    FirstIsDigit(segs[0]);
    SegmentReadsBack(s, i, segs[0]);
  }

  lemma SegmentsStep(s: string, i: nat, end: nat, segs: seq<Seg>)
    requires |segs| > 0 && i < end <= |s| && Segment(s, i) == Match(end, segs[0]) && Segments(s, end) == List(segs[1..])
    ensures Segments(s, i) == List(segs)
  {
    assert Segments(s, i) == Cons(segs[0], Segments(s, end));
    ConsWhole(segs);
  }

  lemma ConsWhole(segs: seq<Seg>)
    requires |segs| > 0
    ensures Cons(segs[0], List(segs[1..])) == List(segs)
  {
    assert [segs[0]] + segs[1..] == segs;
  }

  lemma {:induction false} DigitsOfNat(n: nat)
    ensures Digits(NatToString(n)) == n
  {
    if n >= 10 {
      DigitsOfNat(n / 10);
      var s := NatToString(n);
      assert s[..|s| - 1] == NatToString(n / 10);
    }
  }

  lemma FractionCons(c: char, rest: DigitString)
    requires IsDigit(c)
    ensures Fraction([c] + rest) == (DigitValue(c) as real + Fraction(rest)) / 10.0
  {
    assert ([c] + rest)[1..] == rest;
  }

  lemma OneDigit(n: nat) returns (c: char)
    requires n < 10
    ensures IsDigit(c) && NatToString(n) == [c] && DigitValue(c) == n
  {
    c := ('0' as int + n) as char;
  }

  lemma ThousandthsValue(r: nat)
    requires r < 1000
    ensures Fraction(Thousandths(r)) == r as real / 1000.0
  {
    var a, b, c := r / 100, r / 10 % 10, r % 10;
    assert r == 100 * a + 10 * b + c && r % 100 == 10 * b + c;
    var ca := OneDigit(a);
    var cb := OneDigit(b);
    var cc := OneDigit(c);
    FractionCons(ca, []);
    FractionCons(cb, []);
    FractionCons(cc, []);
    FractionCons(ca, [cb]);
    FractionCons(cb, [cc]);
    FractionCons(ca, [cb, cc]);
    assert [ca] + [] == [ca] && [cb] + [] == [cb] && [cc] + [] == [cc];
    assert [ca] + [cb] == [ca, cb] && [cb] + [cc] == [cb, cc] && [ca] + [cb, cc] == [ca] + [cb] + [cc];
  }

  lemma WholeValue(n: nat, unit: Unit)
    ensures Seg(NatToString(n), "", unit).Value() == unit.Ms(n as real)
  {
    DigitsOfNat(n);
  }

  lemma SecondsValue(s: nat)
    ensures Seg(NatToString(s / 1000), Thousandths(s % 1000), Seconds).Value() == s as real
  {
    DigitsOfNat(s / 1000);
    ThousandthsValue(s % 1000);
  }

  lemma PartsOfTotal(h: nat, m: nat, more: bool, k: nat)
    requires !more ==> k == 0
    ensures Total(PartsOf(h, m, more, k)) == Hours.Ms(h as real) + Minutes.Ms(m as real) + k as real
  {
    WholeValue(h, Hours);
    WholeValue(m, Minutes);
    SecondsValue(k);
    var gh, gm := Seg(NatToString(h), "", Hours), Seg(NatToString(m), "", Minutes);
    var hs := if h > 0 then [gh] else [];
    var ms := if m > 0 || (h > 0 && more) then [gm] else [];
    assert Total(hs) == Hours.Ms(h as real) by {
      TotalAppend([], gh);
      assert [] + [gh] == [gh];
    }
    assert Total(hs + ms) == Total(hs) + Minutes.Ms(m as real) by {
      TotalAppend(hs, gm);
      assert hs + [] == hs;
    }
    TotalAppend(hs + ms, Seg(NatToString(k / 1000), Thousandths(k % 1000), Seconds));
  }

  lemma PartsOfWritable(h: nat, m: nat, more: bool, k: nat)
    ensures PartsOf(h, m, more, k) != []
    ensures forall i :: 0 <= i < |PartsOf(h, m, more, k)| ==> Writable(PartsOf(h, m, more, k)[i])
  {
  }

  lemma PartsSplit(abs: real) returns (h: nat, m: nat, s: real)
    requires abs >= 0.0
    ensures abs == h as real * 3600000.0 + m as real * 60000.0 + s && s >= 0.0
    ensures Parts(abs) == PartsOf(h, m, s > 0.0, Round(s))
  {
    h := HoursIn(abs);
    var rest := abs - h as real * 3600000.0;
    m := MinutesIn(rest);
    s := rest - m as real * 60000.0;
  }

  lemma PartsWritable(abs: real)
    requires abs >= 0.0
    ensures Parts(abs) != [] && forall i :: 0 <= i < |Parts(abs)| ==> Writable(Parts(abs)[i])
  {
    var h, m, s := PartsSplit(abs);
    PartsOfWritable(h, m, s > 0.0, Round(s));
  }

  /** The written parts add up to the duration, to the nearest millisecond. */
  lemma PartsTotal(abs: real)
    requires abs >= 0.0
    ensures Total(Parts(abs)) == Round(abs) as real
  {
    var h, m, s := PartsSplit(abs);
    PartsOfTotal(h, m, s > 0.0, Round(s));
    InMillis(abs, h, m, s);
  }

  lemma InMillis(abs: real, h: nat, m: nat, s: real)
    requires abs == h as real * 3600000.0 + m as real * 60000.0 + s
    ensures Hours.Ms(h as real) + Minutes.Ms(m as real) + Round(s) as real == Round(abs) as real
  {
    assert abs == (h * 3600000 + m * 60000) as real + s;
    RoundAdd(h * 3600000 + m * 60000, s);
  }

  lemma Untrimmed(s: string)
    requires |s| > 0 && !IsSpace(s[0]) && !IsSpace(s[|s| - 1])
    ensures Trim(s) == s
  {
  }

  lemma {:induction false} LastIsUnit(segs: seq<Seg>)
    requires |segs| > 0 && forall k :: 0 <= k < |segs| ==> Writable(segs[k])
    ensures var t := SegsToString(segs);
            |t| > 1 && !IsSpace(t[|t| - 1])
  {
    var t, rest := SegToString(segs[0]), SegsToString(segs[1..]);
    if |segs| > 1 {
      LastIsUnit(segs[1..]);
      assert (t + rest)[|t + rest| - 1] == rest[|rest| - 1];
    } else {
      assert rest == [] && t + rest == t && t[|t| - 1] == Letter(segs[0].unit);
    }
  }

  lemma ZeroParts()
    ensures SegsToString(Parts(0.0)) == "0s"
  {
    assert HoursIn(0.0) == 0 && MinutesIn(0.0) == 0 && Round(0.0) == 0;
    assert Parts(0.0) == [Seg("0", "", Seconds)];
    assert SegsToString(Parts(0.0)) == SegToString(Seg("0", "", Seconds)) + SegsToString([]);
  }

  function AbsOf(ms: real): (abs: real)
    ensures abs >= 0.0
  {
    if ms < 0.0 then -ms else ms
  }

  /** The text written for a duration is its sign and its parts. */
  lemma FormatIsParts(ms: real)
    ensures FormatDuration(ms) == (if ms < 0.0 then ['-'] else []) + SegsToString(Parts(AbsOf(ms)))
  {
    ZeroParts();
    assert [] + SegsToString(Parts(AbsOf(ms))) == SegsToString(Parts(AbsOf(ms)));
  }

  lemma SignedParse(s: string, segs: seq<Seg>, negative: bool)
    requires Trim(s) == s && |s| > 1 && negative == (s[0] == '-') && s[0] != '+'
    requires Segments(s, if negative then 1 else 0) == List(segs)
    ensures ParseDuration(s) == Value(if negative then -Total(segs) else Total(segs))
  {
    assert Signed(s) <==> negative;
  }

  /** A formatted duration has a sign exactly when it is negative, and nothing to trim. */
  lemma FormattedShape(ms: real)
    ensures var s := FormatDuration(ms);
            |s| > 1 && (s[0] == '-' <==> ms < 0.0) && s[0] != '+' && Trim(s) == s
    ensures Segments(FormatDuration(ms), if ms < 0.0 then 1 else 0) == List(Parts(AbsOf(ms)))
  {
    FormattedSegments(ms);
    FormattedEnds(ms);
    Untrimmed(FormatDuration(ms));
  }

  lemma FormattedSegments(ms: real)
    ensures Segments(FormatDuration(ms), if ms < 0.0 then 1 else 0) == List(Parts(AbsOf(ms)))
  {
    PartsWritable(AbsOf(ms));
    FormatIsParts(ms);
    SegmentsReadBack(FormatDuration(ms), if ms < 0.0 then 1 else 0, Parts(AbsOf(ms)));
  }

  /** The first character is a sign or a digit, the last one a unit. */
  lemma FormattedEnds(ms: real)
    ensures var s := FormatDuration(ms);
            && |s| > 1 && (s[0] == '-' <==> ms < 0.0) && (s[0] == '-' || IsDigit(s[0]))
            && !IsSpace(s[0]) && !IsSpace(s[|s| - 1])
  {
    var parts := Parts(AbsOf(ms));
    var s, body := FormatDuration(ms), SegsToString(parts);
    PartsWritable(AbsOf(ms));
    LastIsUnit(parts);
    FormatIsParts(ms);
    FirstIsDigit(parts[0]);
    assert s[|s| - 1] == body[|body| - 1];
    assert body[0] == SegToString(parts[0])[0];
  }

  /** The nearest whole number, halves away from zero. */
  function Nearest(ms: real): int {
    if ms < 0.0 then -Round(-ms) else Round(ms)
  }

  /** Reading back a formatted duration gives the nearest whole number of milliseconds, negative ones included. */
  lemma FormattedReadsAs(ms: real)
    ensures ParseDuration(FormatDuration(ms)) == Value(Nearest(ms) as real)
  {
    FormattedShape(ms);
    SignedParse(FormatDuration(ms), Parts(AbsOf(ms)), ms < 0.0);
    PartsTotal(AbsOf(ms));
  }

  lemma NearestIff(ms: real)
    ensures Nearest(ms) as real == ms <==> IsWhole(ms)
  {
    RoundWhole(AbsOf(ms));
    WholeNegated(ms);
  }

  lemma ReadsAsIff(p: Parsed, ms: real)
    requires p == Value(Nearest(ms) as real)
    ensures p == Value(ms) <==> IsWhole(ms)
  {
    NearestIff(ms);
  }

  /** So every whole number of milliseconds comes back, and no other duration does. */
  lemma DurationRoundTrip(ms: real)
    ensures ParseDuration(FormatDuration(ms)) == Value(ms) <==> IsWhole(ms)
  {
    FormattedReadsAs(ms);
    ReadsAsIff(ParseDuration(FormatDuration(ms)), ms);
  }

  // ---- parseLifetimeDuration ----

  datatype LifetimeError = Empty | SignedDuration | NoNumber | NoUnit | BadNumber | TooLarge

  datatype Lifetime = Accepted(ms: real) | Refused(error: LifetimeError)

  /** Go's time.Duration ceiling, in milliseconds. */
  const MAX_DURATION_MS := 9223372036854.775807

  /** The unit at position i, longest first; days and both micro signs included. */
  function LifetimeUnit(s: string, i: nat): (r: UnitAt)
    requires i <= |s|
    ensures r.UnitAt? ==> 0 < r.len && i + r.len <= |s|
  {
    if i + 2 <= |s| && s[i] == 'm' && s[i + 1] == 's' then UnitAt(2, Millis)
    else if i + 2 <= |s| && s[i] == 'n' && s[i + 1] == 's' then UnitAt(2, Nanos)
    else if i + 2 <= |s| && (s[i] == 'u' || s[i] == '\U{00B5}' || s[i] == '\U{03BC}') && s[i + 1] == 's'
      then UnitAt(2, Micros)
    else if i + 1 <= |s| && s[i] == 'd' then UnitAt(1, Days)
    else if i + 1 <= |s| && s[i] == 'h' then UnitAt(1, Hours)
    else if i + 1 <= |s| && s[i] == 'm' then UnitAt(1, Minutes)
    else if i + 1 <= |s| && s[i] == 's' then UnitAt(1, Seconds)
    else NoUnitAt
  }

  /** Where the run of digits and points from position i on ends. */
  function RunEnd(s: string, i: nat): (e: nat)
    requires i <= |s|
    ensures i <= e <= |s|
    decreases |s| - i
  {
    if i < |s| && (IsDigit(s[i]) || s[i] == '.') then RunEnd(s, i + 1) else i
  }

  lemma {:induction false} RunEndExact(s: string, i: nat, e: nat)
    requires i <= e <= |s|
    requires forall k :: i <= k < e ==> IsDigit(s[k]) || s[k] == '.'
    requires e < |s| ==> !IsDigit(s[e]) && s[e] != '.'
    ensures RunEnd(s, i) == e
    decreases e - i
  {
    if i < e {
      RunEndExact(s, i + 1, e);
    }
  }

  datatype SegResult = Found(end: nat, seg: Seg) | NotFound(error: LifetimeError)

  /** The number and unit at position i; the number is digits, optionally a point, digits, with at least one digit. */
  function LifetimeSegment(s: string, i: nat): (r: SegResult)
    requires i <= |s|
    ensures r.Found? ==> i < r.end <= |s|
  {
    var e, n := RunEnd(s, i), DigitsEnd(s, i);
    if e == i then NotFound(NoNumber)
    else
      var unit := LifetimeUnit(s, e);
      if unit.NoUnitAt? then NotFound(NoUnit)
      else if n == e then Found(e + unit.len, Seg(s[i..n], [], unit.unit))
      else if n < e && s[n] == '.' && DigitsEnd(s, n + 1) == e && (n > i || e > n + 1)
      then Found(e + unit.len, Seg(s[i..n], s[n + 1..e], unit.unit))
      else NotFound(BadNumber)
  }

  /** The segments from position i on, up to the end or the first error. */
  datatype LifetimeList = LifetimeList(segs: seq<Seg>, error: Option<LifetimeError>)

  function LifetimeSegments(s: string, i: nat): LifetimeList
    requires i <= |s|
    decreases |s| - i
  {
    if i == |s| then LifetimeList([], None)
    else
      match LifetimeSegment(s, i)
      case NotFound(error) => LifetimeList([], Some(error))
      case Found(end, seg) =>
        var rest := LifetimeSegments(s, end);
        LifetimeList([seg] + rest.segs, rest.error)
  }

  predicate Overflows(total: real, v: real) {
    v > MAX_DURATION_MS || total + v > MAX_DURATION_MS
  }

  /** Adding up from `total`, an overflow is reported before any error further on. */
  function AddUp(segs: seq<Seg>, error: Option<LifetimeError>, total: real): Lifetime {
    if |segs| == 0 then if error.Some? then Refused(error.value) else Accepted(total)
    else
      var v := segs[0].Value();
      if Overflows(total, v) then Refused(TooLarge)
      else AddUp(segs[1..], error, total + v)
  }

  function LifetimeFrom(s: string, i: nat, total: real): Lifetime
    requires i <= |s|
  {
    var l := LifetimeSegments(s, i);
    AddUp(l.segs, l.error, total)
  }

  function ParseLifetime(s: string): Lifetime {
    if s == "" then Refused(Empty)
    else if s == "0" then Accepted(0.0)
    else if Signed(s) then Refused(SignedDuration)
    else LifetimeFrom(s, 0, 0.0)
  }

  /** One segment further on, the result is the same with the segment in the total. */
  lemma LifetimeStep(s: string, i: nat, total: real, whole: Lifetime)
    requires i < |s| && LifetimeFrom(s, i, total) == whole
    ensures match LifetimeSegment(s, i)
            case NotFound(error) => whole == Refused(error)
            case Found(end, seg) =>
              if Overflows(total, seg.Value()) then whole == Refused(TooLarge)
              else LifetimeFrom(s, end, total + seg.Value()) == whole
  {
    var m := LifetimeSegment(s, i);
    if m.Found? {
      var rest := LifetimeSegments(s, m.end);
      assert ([m.seg] + rest.segs)[0] == m.seg && ([m.seg] + rest.segs)[1..] == rest.segs;
    }
  }

  method ParseLifetimeLoop(s: string) returns (r: Lifetime)
    ensures r == ParseLifetime(s)
  {
    if s == "" { return Refused(Empty); }
    if s == "0" { return Accepted(0.0); }
    if s[0] == '-' || s[0] == '+' { return Refused(SignedDuration); }
    ghost var whole := LifetimeFrom(s, 0, 0.0);
    var total, i := 0.0, 0;
    while i < |s|
      invariant i <= |s| && LifetimeFrom(s, i, total) == whole
    {
      var m := LifetimeSegment(s, i);
      LifetimeStep(s, i, total, whole);
      if m.NotFound? { return Refused(m.error); }
      var ms := m.seg.Value();
      if Overflows(total, ms) { return Refused(TooLarge); }
      total, i := total + ms, m.end;
    }
    return Accepted(total);
  }

  lemma {:induction false} AddUpNonNegative(segs: seq<Seg>, error: Option<LifetimeError>, total: real)
    requires total >= 0.0
    ensures AddUp(segs, error, total).Accepted? ==> AddUp(segs, error, total).ms >= 0.0
  {
    if |segs| > 0 { AddUpNonNegative(segs[1..], error, total + segs[0].Value()); }
  }

  lemma LifetimeNonNegative(s: string)
    ensures ParseLifetime(s).Accepted? ==> ParseLifetime(s).ms >= 0.0
  {
    var l := LifetimeSegments(s, 0);
    AddUpNonNegative(l.segs, l.error, 0.0);
  }

  // ---- The two parsers agree ----

  /** Wherever the tag reader finds a segment, the launch parser finds the same one. */
  lemma SegmentsAgree(s: string, i: nat)
    requires i <= |s| && Segment(s, i).Match?
    ensures LifetimeSegment(s, i) == Found(Segment(s, i).end, Segment(s, i).seg)
  {
    var n, e := DigitsEnd(s, i), NumberEnd(s, i);
    RunEndExact(s, i, e);
  }

  lemma {:induction false} ListsAgree(s: string, i: nat)
    requires i <= |s| && Segments(s, i).List?
    ensures LifetimeSegments(s, i) == LifetimeList(Segments(s, i).segs, None)
    decreases |s| - i
  {
    if i < |s| {
      SegmentsAgree(s, i);
      ListsAgree(s, Segment(s, i).end);
    }
  }

  lemma {:induction false} AddUpTotal(segs: seq<Seg>, total: real)
    requires 0.0 <= total <= MAX_DURATION_MS
    ensures AddUp(segs, None, total) == Capped(total + Total(segs))
  {
    if |segs| > 0 && total + segs[0].Value() <= MAX_DURATION_MS {
      AddUpTotal(segs[1..], total + segs[0].Value());
    }
  }

  /** What the ceiling makes of a total. */
  function Capped(ms: real): Lifetime {
    if ms > MAX_DURATION_MS then Refused(TooLarge) else Accepted(ms)
  }

  lemma LifetimeOfSegments(s: string)
    requires Segments(s, 0).List?
    ensures LifetimeFrom(s, 0, 0.0) == Capped(Total(Segments(s, 0).segs))
  {
    ListsAgree(s, 0);
    AddUpTotal(Segments(s, 0).segs, 0.0);
  }

  lemma UnsignedParse(s: string)
    requires !Signed(s) && Trim(s) == s && ParseDuration(s).Value? && s != "0"
    ensures s != "" && Segments(s, 0).List? && ParseDuration(s) == Value(Total(Segments(s, 0).segs))
  {
  }

  /**
   * Every unsigned string without surrounding white space that `parseDuration` accepts,
   * `parseLifetimeDuration` accepts with the same value, unless the value exceeds Go's ceiling.
   */
  lemma ParsersAgree(s: string)
    requires !Signed(s) && Trim(s) == s && ParseDuration(s).Value?
    ensures ParseLifetime(s) == Capped(ParseDuration(s).ms)
  {
    if s != "0" {
      UnsignedParse(s);
      LifetimeOfSegments(s);
    }
  }

  lemma {:induction false} UnitEndsUnspaced(s: string, i: nat)
    requires i < |s| && LifetimeSegments(s, i).error.None?
    ensures !IsSpace(s[|s| - 1])
    decreases |s| - i
  {
    var m := LifetimeSegment(s, i);
    assert m.Found?;
    if m.end < |s| {
      UnitEndsUnspaced(s, m.end);
    }
  }

  lemma {:induction false} AddUpKeepsError(segs: seq<Seg>, error: Option<LifetimeError>, total: real)
    requires error.Some?
    ensures AddUp(segs, error, total).Refused?
  {
    if |segs| > 0 {
      AddUpKeepsError(segs[1..], error, total + segs[0].Value());
    }
  }

  lemma AcceptedIsTrimmed(s: string)
    requires ParseLifetime(s).Accepted? && s != "0"
    ensures Trim(s) == s
  {
    var l := LifetimeSegments(s, 0);
    if l.error.Some? {
      AddUpKeepsError(l.segs, l.error, 0.0);
    } else {
      UnitEndsUnspaced(s, 0);
      assert LifetimeSegment(s, 0).Found?;
    }
  }

  /** Of the strings `parseDuration` accepts, exactly these are launch inputs. */
  lemma LaunchInputIff(s: string)
    requires ParseDuration(s).Value?
    ensures ParseLifetime(s).Accepted? <==> !Signed(s) && Trim(s) == s && ParseDuration(s).ms <= MAX_DURATION_MS
    ensures ParseLifetime(s).Accepted? ==> ParseLifetime(s).ms == ParseDuration(s).ms
  {
    if !Signed(s) && Trim(s) == s {
      ParsersAgree(s);
    } else if ParseLifetime(s).Accepted? && s != "0" {
      AcceptedIsTrimmed(s);
    }
  }

  /** The tag reader takes a sign and launch does not. */
  lemma SignedIsReadButNotLaunched()
    ensures ParseDuration("-1h").Value? && ParseLifetime("-1h") == Refused(SignedDuration)
  {
    var s := "-1h";
    assert Trim(s) == s;
    assert NumberEnd(s, 1) == 2;
    assert Segment(s, 1).Match? && Segment(s, 1).end == 3;
    assert Segments(s, 3) == List([]);
  }

  /** So a formatted non-negative duration within the ceiling is a launch input of that many milliseconds. */
  lemma FormattedIsLaunchInput(ms: real)
    requires ms >= 0.0 && Round(ms) as real <= MAX_DURATION_MS
    ensures ParseLifetime(FormatDuration(ms)) == Accepted(Round(ms) as real)
  {
    FormattedReadsAs(ms);
    FormattedShape(ms);
    ParsersAgree(FormatDuration(ms));
  }
}
