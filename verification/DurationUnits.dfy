/**
 * What durations are worth (src/core/duration.ts:3-47, 87-143): every unit of both parsers against the next one. No
 * unit is valued here but by what its name says.
 */
module DurationUnits {
  import opened Basics
  import opened Duration

  // ---- Numbers with a unit ----

  /** Digits, and a point and more digits unless there are none. */
  function Numeral(w: DigitString, f: DigitString): string {
    w + (if f == [] then [] else ['.'] + f)
  }

  /** The decimal value. */
  function NumberValue(w: DigitString, f: DigitString): real {
    Digits(w) as real + Fraction(f)
  }

  /** The names both parsers have for a unit. */
  predicate Names(u: string, unit: Unit) {
    || (u == "ns" && unit == Nanos) || (u == "us" && unit == Micros) || (u == "\U{00B5}s" && unit == Micros)
    || (u == "ms" && unit == Millis) || (u == "s" && unit == Seconds) || (u == "m" && unit == Minutes)
    || (u == "h" && unit == Hours)
  }

  lemma UnitAtEnd(s: string, i: nat, u: string, unit: Unit)
    requires Names(u, unit) && i + |u| == |s| && s[i..] == u
    ensures TagUnit(s, i) == UnitAt(|u|, unit)
  {
    assert forall k :: 0 <= k < |u| ==> s[i + k] == s[i..][k];
  }

  lemma NotDigits(u: string, unit: Unit)
    requires Names(u, unit)
    ensures |u| > 0 && !IsDigit(u[0]) && u[0] != '.' && !IsSpace(u[|u| - 1])
  {
  }

  lemma NumeralEnds(w: DigitString, f: DigitString, u: string, unit: Unit, s: string)
    requires |w| > 0 && Names(u, unit) && s == Numeral(w, f) + u
    ensures NumberEnd(s, 0) == |Numeral(w, f)| && DigitsEnd(s, 0) == |w|
    ensures s[0..|w|] == w && s[|Numeral(w, f)|..] == u
    ensures f != [] ==> s[|w| + 1..|Numeral(w, f)|] == f
  {
    NotDigits(u, unit);
    var e := |Numeral(w, f)|;
    assert s[e] == u[0];
    assert forall k :: 0 <= k < |w| ==> s[k] == w[k];
    if f == [] {
      DigitsEndExact(s, 0, |w|);
    } else {
      assert s[|w|] == '.';
      DigitsEndExact(s, 0, |w|);
      assert forall k :: 0 <= k < |f| ==> s[|w| + 1 + k] == f[k];
      DigitsEndExact(s, |w| + 1, e);
    }
  }

  /** A number with a unit is one segment. */
  lemma OneSegment(w: DigitString, f: DigitString, u: string, unit: Unit, s: string)
    requires |w| > 0 && Names(u, unit) && s == Numeral(w, f) + u
    ensures Segment(s, 0) == Match(|s|, Seg(w, f, unit))
  {
    NumeralEnds(w, f, u, unit, s);
    UnitAtEnd(s, |Numeral(w, f)|, u, unit);
  }

  lemma Unpadded(w: DigitString, f: DigitString, u: string, unit: Unit, s: string)
    requires |w| > 0 && Names(u, unit) && s == Numeral(w, f) + u
    ensures Trim(s) == s && !Signed(s) && s != "" && s != "0"
  {
    NotDigits(u, unit);
    assert s[0] == w[0] && s[|s| - 1] == u[|u| - 1];
  }

  lemma OneIsTotal(seg: Seg)
    ensures Total([seg]) == seg.Value()
  {
    assert [seg][1..] == [];
  }

  lemma OneReads(w: DigitString, f: DigitString, u: string, unit: Unit, s: string)
    requires |w| > 0 && Names(u, unit) && s == Numeral(w, f) + u
    ensures Segments(s, 0) == List([Seg(w, f, unit)])
  {
    OneSegment(w, f, u, unit, s);
    SegmentsStep(s, 0, |s|, [Seg(w, f, unit)]);
  }

  lemma ReadsTotal(s: string, segs: seq<Seg>)
    requires Trim(s) == s && !Signed(s) && s != "" && s != "0" && Segments(s, 0) == List(segs)
    ensures ParseDuration(s) == Value(Total(segs))
  {
  }

  lemma OneIsWorth(w: DigitString, f: DigitString, u: string, unit: Unit, s: string)
    requires |w| > 0 && Names(u, unit) && s == Numeral(w, f) + u
    ensures ParseDuration(s) == Value(Seg(w, f, unit).Value())
  {
    OneReads(w, f, u, unit, s);
    Unpadded(w, f, u, unit, s);
    ReadsTotal(s, [Seg(w, f, unit)]);
    OneIsTotal(Seg(w, f, unit));
  }

  /** r is so many times s. */
  predicate Times(r: Parsed, factor: real, s: Parsed) {
    r.Value? && s.Value? && r.ms == factor * s.ms
  }

  /** A number with each of the units the tag reader knows. */
  predicate TagReadings(w: DigitString, f: DigitString, ns: Parsed, us: Parsed, micro: Parsed, ms: Parsed, s: Parsed,
      m: Parsed, h: Parsed)
  {
    var n := Numeral(w, f);
    && ns == ParseDuration(n + "ns") && us == ParseDuration(n + "us") && micro == ParseDuration(n + "\U{00B5}s")
    && ms == ParseDuration(n + "ms") && s == ParseDuration(n + "s") && m == ParseDuration(n + "m")
    && h == ParseDuration(n + "h")
  }

  lemma Worth(w: DigitString, f: DigitString, u: string, unit: Unit, r: Parsed)
    requires |w| > 0 && Names(u, unit) && r == ParseDuration(Numeral(w, f) + u)
    ensures r == Value(unit.Ms(NumberValue(w, f)))
  {
    OneIsWorth(w, f, u, unit, Numeral(w, f) + u);
  }

  lemma AllWorth(w: DigitString, f: DigitString, ns: Parsed, us: Parsed, micro: Parsed, ms: Parsed, s: Parsed,
      m: Parsed, h: Parsed, v: real)
    requires |w| > 0 && TagReadings(w, f, ns, us, micro, ms, s, m, h) && v == NumberValue(w, f)
    ensures ns == Value(Nanos.Ms(v)) && us == Value(Micros.Ms(v)) && micro == Value(Micros.Ms(v))
    ensures ms == Value(Millis.Ms(v)) && s == Value(Seconds.Ms(v)) && m == Value(Minutes.Ms(v)) &&
              h == Value(Hours.Ms(v))
  {
    Worth(w, f, "ns", Nanos, ns);
    Worth(w, f, "us", Micros, us);
    Worth(w, f, "\U{00B5}s", Micros, micro);
    Worth(w, f, "ms", Millis, ms);
    Worth(w, f, "s", Seconds, s);
    Worth(w, f, "m", Minutes, m);
    Worth(w, f, "h", Hours, h);
  }

  /**
   * The units of the tag reader: milliseconds are the number itself; a second is 1000 of them, a minute 60 seconds, an
   * hour 60 minutes, and a millisecond 1000 microseconds, under either name, of 1000 nanoseconds.
   */
  lemma TagUnits(w: DigitString, f: DigitString, ns: Parsed, us: Parsed, micro: Parsed, ms: Parsed, s: Parsed,
      m: Parsed, h: Parsed)
    requires |w| > 0 && TagReadings(w, f, ns, us, micro, ms, s, m, h)
    ensures ms == Value(NumberValue(w, f))
    ensures Times(s, 1000.0, ms) && Times(m, 60.0, s) && Times(h, 60.0, m)
    ensures Times(ms, 1000.0, us) && Times(us, 1000.0, ns) && micro == us
  {
    AllWorth(w, f, ns, us, micro, ms, s, m, h, NumberValue(w, f));
    Ratios(NumberValue(w, f), ns, us, micro, ms, s, m, h);
  }

  lemma Ratios(v: real, ns: Parsed, us: Parsed, micro: Parsed, ms: Parsed, s: Parsed, m: Parsed, h: Parsed)
    requires ns == Value(Nanos.Ms(v)) && us == Value(Micros.Ms(v)) && micro == Value(Micros.Ms(v))
    requires ms == Value(Millis.Ms(v)) && s == Value(Seconds.Ms(v)) && m == Value(Minutes.Ms(v)) &&
               h == Value(Hours.Ms(v))
    ensures ms == Value(v) && Times(s, 1000.0, ms) && Times(m, 60.0, s) && Times(h, 60.0, m)
    ensures Times(ms, 1000.0, us) && Times(us, 1000.0, ns) && micro == us
  {
  }

  // ---- The launch parser ----

  /** Digits, with or without a point; more digits may follow the point, and none need stand before it. */
  function LaunchNumeral(w: DigitString, point: bool, f: DigitString): string {
    w + (if point then ['.'] + f else [])
  }

  predicate IsNumeral(w: DigitString, point: bool, f: DigitString) {
    |w| + |f| > 0 && (f != [] ==> point)
  }

  /** The launch parser's names: days, and the other micro sign, too. */
  predicate LaunchNames(u: string, unit: Unit) {
    Names(u, unit) || (u == "\U{03BC}s" && unit == Micros) || (u == "d" && unit == Days)
  }

  lemma LaunchUnitAtEnd(s: string, i: nat, u: string, unit: Unit)
    requires LaunchNames(u, unit) && i + |u| == |s| && s[i..] == u
    ensures LifetimeUnit(s, i) == UnitAt(|u|, unit)
  {
    assert forall k :: 0 <= k < |u| ==> s[i + k] == s[i..][k];
  }

  lemma NoDigitFirst(u: string, unit: Unit)
    requires LaunchNames(u, unit)
    ensures |u| > 0 && !IsDigit(u[0]) && u[0] != '.' && u[0] != '-' && u[0] != '+'
  {
  }

  /** Where the parts of a launch duration stand. */
  predicate LaidOut(s: string, w: DigitString, point: bool, f: DigitString, e: nat) {
    && e == |w| + (if point then 1 + |f| else 0) && e < |s|
    && s[0..|w|] == w && (point ==> s[|w|] == '.' && s[|w| + 1..e] == f)
    && !IsDigit(s[e]) && s[e] != '.'
  }

  lemma Layout(w: DigitString, point: bool, f: DigitString, u: string, unit: Unit, s: string)
    requires LaunchNames(u, unit) && s == LaunchNumeral(w, point, f) + u
    ensures LaidOut(s, w, point, f, |LaunchNumeral(w, point, f)|) && s[|LaunchNumeral(w, point, f)|..] == u
  {
    NoDigitFirst(u, unit);
    assert s[|LaunchNumeral(w, point, f)|] == u[0];
  }

  lemma LaunchEnds(s: string, w: DigitString, point: bool, f: DigitString, e: nat)
    requires LaidOut(s, w, point, f, e)
    ensures RunEnd(s, 0) == e && DigitsEnd(s, 0) == |w| && (point ==> DigitsEnd(s, |w| + 1) == e)
  {
    assert forall k :: 0 <= k < |w| ==> s[k] == s[0..|w|][k];
    if point {
      assert forall k :: |w| + 1 <= k < e ==> s[k] == s[|w| + 1..e][k - |w| - 1];
      DigitsEndExact(s, |w| + 1, e);
    }
    DigitsEndExact(s, 0, |w|);
    RunEndExact(s, 0, e);
  }

  lemma OneLaunchSegment(w: DigitString, point: bool, f: DigitString, u: string, unit: Unit, s: string)
    requires IsNumeral(w, point, f) && LaunchNames(u, unit) && s == LaunchNumeral(w, point, f) + u
    ensures LifetimeSegment(s, 0) == Found(|s|, Seg(w, f, unit))
  {
    var e := |LaunchNumeral(w, point, f)|;
    Layout(w, point, f, u, unit, s);
    LaunchEnds(s, w, point, f, e);
    LaunchUnitAtEnd(s, e, u, unit);
  }

  lemma OneLaunchList(s: string, seg: Seg)
    requires s != "" && LifetimeSegment(s, 0) == Found(|s|, seg)
    ensures LifetimeSegments(s, 0) == LifetimeList([seg], None)
  {
    assert LifetimeSegments(s, |s|) == LifetimeList([], None);
    assert [seg] + [] == [seg];
  }

  lemma OneAdded(seg: Seg)
    ensures AddUp([seg], None, 0.0) == Capped(seg.Value())
  {
    assert [seg][1..] == [];
  }

  lemma LaunchStart(w: DigitString, point: bool, f: DigitString, u: string, unit: Unit, s: string)
    requires IsNumeral(w, point, f) && LaunchNames(u, unit) && s == LaunchNumeral(w, point, f) + u
    ensures s != "" && s != "0" && !Signed(s)
  {
    NoDigitFirst(u, unit);
    assert s[|s| - |u|] == u[0];
    if |w| > 0 { assert s[0] == w[0]; }
  }

  lemma LaunchWorth(w: DigitString, point: bool, f: DigitString, u: string, unit: Unit, r: Lifetime)
    requires IsNumeral(w, point, f) && LaunchNames(u, unit) && r == ParseLifetime(LaunchNumeral(w, point, f) + u)
    ensures r == Capped(unit.Ms(NumberValue(w, f)))
  {
    var s := LaunchNumeral(w, point, f) + u;
    OneLaunchSegment(w, point, f, u, unit, s);
    OneLaunchList(s, Seg(w, f, unit));
    LaunchStart(w, point, f, u, unit, s);
    OneAdded(Seg(w, f, unit));
  }

  /** A number with each of the units the launch parser knows. */
  predicate LaunchReadings(n: string, ns: Lifetime, us: Lifetime, micro: Lifetime, mu: Lifetime, ms: Lifetime,
      s: Lifetime, m: Lifetime, h: Lifetime, d: Lifetime)
  {
    && ns == ParseLifetime(n + "ns") && us == ParseLifetime(n + "us") && micro == ParseLifetime(n + "\U{00B5}s")
    && mu == ParseLifetime(n + "\U{03BC}s") && ms == ParseLifetime(n + "ms") && s == ParseLifetime(n + "s")
    && m == ParseLifetime(n + "m") && h == ParseLifetime(n + "h") && d == ParseLifetime(n + "d")
  }

  /** So many milliseconds, or too large: 2^63 nanoseconds or more. */
  predicate Lasts(r: Lifetime, ms: real) {
    if ms * 1000000.0 <= 0x7fff_ffff_ffff_ffff as real then r == Accepted(ms) else r == Refused(TooLarge)
  }

  lemma CappedLasts(ms: real)
    ensures Lasts(Capped(ms), ms)
  {
    assert MAX_DURATION_MS * 1000000.0 == 0x7fff_ffff_ffff_ffff as real;
  }

  lemma WorthIs(w: DigitString, point: bool, f: DigitString, u: string, unit: Unit, r: Lifetime, ms: real)
    requires IsNumeral(w, point, f) && LaunchNames(u, unit) && r == ParseLifetime(LaunchNumeral(w, point, f) + u)
    requires ms == unit.Ms(NumberValue(w, f))
    ensures Lasts(r, ms)
  {
    LaunchWorth(w, point, f, u, unit, r);
    CappedLasts(ms);
  }

  lemma MsOf(v: real)
    ensures Nanos.Ms(v) == v / 1000.0 / 1000.0 && Micros.Ms(v) == v / 1000.0 && Millis.Ms(v) == v
    ensures Seconds.Ms(v) == 1000.0 * v && Minutes.Ms(v) == 60.0 * 1000.0 * v && Hours.Ms(v) == 60.0 * 60.0 * 1000.0 * v
    ensures Days.Ms(v) == 24.0 * 60.0 * 60.0 * 1000.0 * v
  {
  }

  /**
   * The units of the launch parser, days among them: each number with each unit lasts as long as it says, unless that
   * is 2^63 nanoseconds or more.
   */
  lemma LaunchUnits(w: DigitString, point: bool, f: DigitString, ns: Lifetime, us: Lifetime, micro: Lifetime,
      mu: Lifetime, ms: Lifetime, s: Lifetime, m: Lifetime, h: Lifetime, d: Lifetime, v: real)
    requires IsNumeral(w, point, f) && v == NumberValue(w, f)
    requires LaunchReadings(LaunchNumeral(w, point, f), ns, us, micro, mu, ms, s, m, h, d)
    ensures Lasts(ms, v) && Lasts(s, 1000.0 * v) && Lasts(m, 60.0 * 1000.0 * v) && Lasts(h, 60.0 * 60.0 * 1000.0 * v)
    ensures Lasts(d, 24.0 * 60.0 * 60.0 * 1000.0 * v)
    ensures Lasts(us, v / 1000.0) && Lasts(micro, v / 1000.0) && Lasts(mu, v / 1000.0) && Lasts(ns, v / 1000.0 / 1000.0)
  {
    MsOf(v);
    WorthIs(w, point, f, "ns", Nanos, ns, v / 1000.0 / 1000.0);
    WorthIs(w, point, f, "us", Micros, us, v / 1000.0);
    WorthIs(w, point, f, "\U{00B5}s", Micros, micro, v / 1000.0);
    WorthIs(w, point, f, "\U{03BC}s", Micros, mu, v / 1000.0);
    WorthIs(w, point, f, "ms", Millis, ms, v);
    WorthIs(w, point, f, "s", Seconds, s, 1000.0 * v);
    WorthIs(w, point, f, "m", Minutes, m, 60.0 * 1000.0 * v);
    WorthIs(w, point, f, "h", Hours, h, 60.0 * 60.0 * 1000.0 * v);
    WorthIs(w, point, f, "d", Days, d, 24.0 * 60.0 * 60.0 * 1000.0 * v);
  }
}
