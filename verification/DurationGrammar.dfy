/**
 * The languages of the two duration parsers (src/core/duration.ts:22-47, 106-143): the texts each accepts are exactly
 * the numbers with units one after another, and what they read as is the sum.
 */
module DurationGrammar {
  import opened Basics
  import opened Duration
  import opened DurationUnits

  /** A number with a unit: digits, optionally a point and more digits, and a name of the unit. */
  datatype Piece = Piece(whole: DigitString, point: bool, fraction: DigitString, name: string, unit: Unit)

  function Spell(p: Piece): string {
    LaunchNumeral(p.whole, p.point, p.fraction) + p.name
  }

  function SpellAll(ps: seq<Piece>): string {
    if |ps| == 0 then "" else Spell(ps[0]) + SpellAll(ps[1..])
  }

  /** A piece of a launch duration: at least one digit, before the point or after it. */
  predicate LaunchPiece(p: Piece) {
    IsNumeral(p.whole, p.point, p.fraction) && LaunchNames(p.name, p.unit)
  }

  /** A piece of a tagged duration: digits, and digits after a point if there is one. */
  predicate TagPiece(p: Piece) {
    |p.whole| > 0 && (p.point <==> |p.fraction| > 0) && Names(p.name, p.unit)
  }

  predicate LaunchPieces(ps: seq<Piece>) {
    forall k :: 0 <= k < |ps| ==> LaunchPiece(ps[k])
  }

  predicate TagPieces(ps: seq<Piece>) {
    forall k :: 0 <= k < |ps| ==> TagPiece(ps[k])
  }

  /** The milliseconds in v of a unit. */
  function Lasting(unit: Unit, v: real): real {
    match unit
    case Nanos => v / 1000.0 / 1000.0
    case Micros => v / 1000.0
    case Millis => v
    case Seconds => 1000.0 * v
    case Minutes => 60.0 * 1000.0 * v
    case Hours => 60.0 * 60.0 * 1000.0 * v
    case Days => 24.0 * 60.0 * 60.0 * 1000.0 * v
  }

  /** What the pieces last together. */
  function Altogether(ps: seq<Piece>): real {
    if |ps| == 0 then 0.0
    else Lasting(ps[0].unit, NumberValue(ps[0].whole, ps[0].fraction)) + Altogether(ps[1..])
  }

  function SegOf(p: Piece): Seg {
    Seg(p.whole, p.fraction, p.unit)
  }

  function SegsOf(ps: seq<Piece>): (r: seq<Seg>)
    ensures |r| == |ps|
  {
    if |ps| == 0 then [] else [SegOf(ps[0])] + SegsOf(ps[1..])
  }

  lemma PieceLasts(p: Piece)
    ensures SegOf(p).Value() == Lasting(p.unit, NumberValue(p.whole, p.fraction))
  {
    MsOf(NumberValue(p.whole, p.fraction));
  }

  lemma {:induction false} SegsLast(ps: seq<Piece>)
    ensures Total(SegsOf(ps)) == Altogether(ps)
  {
    if |ps| > 0 {
      PieceLasts(ps[0]);
      SegsLast(ps[1..]);
      assert SegsOf(ps)[1..] == SegsOf(ps[1..]);
    }
  }

  // ---- A piece in a text ----

  /** The piece stands at position i, and what follows it is the end or the start of another number. */
  predicate StandsAt(s: string, i: nat, p: Piece) {
    var end := i + |Spell(p)|;
    && end <= |s| && s[i..end] == Spell(p)
    && (end < |s| ==> IsDigit(s[end]) || s[end] == '.')
  }

  lemma SliceOf(s: string, i: nat, a: string, b: string)
    requires i + |a| + |b| <= |s| && s[i..i + |a| + |b|] == a + b
    ensures s[i..i + |a|] == a && s[i + |a|..i + |a| + |b|] == b
  {
    assert s[i..i + |a|] == s[i..i + |a| + |b|][..|a|];
    assert s[i + |a|..i + |a| + |b|] == s[i..i + |a| + |b|][|a|..];
  }

  lemma Within(s: string, i: nat, e: nat, d: DigitString)
    requires i <= e <= |s| && s[i..e] == d
    ensures forall k :: i <= k < e ==> IsDigit(s[k])
  {
    forall k | i <= k < e ensures IsDigit(s[k]) { assert s[k] == s[i..e][k - i]; }
  }

  /** A number stands from position i to e: digits, and with a point further digits up to e. */
  predicate NumberStands(s: string, i: nat, w: DigitString, point: bool, f: DigitString, e: nat) {
    var n := i + |w|;
    && n <= e < |s| && s[i..n] == w && !IsDigit(s[e]) && s[e] != '.'
    && (if point then n < e && s[n] == '.' && s[n + 1..e] == f else n == e)
  }

  lemma PieceStands(s: string, i: nat, p: Piece, e: nat)
    requires StandsAt(s, i, p) && |p.name| > 0 && e == i + |LaunchNumeral(p.whole, p.point, p.fraction)|
    requires !IsDigit(p.name[0]) && p.name[0] != '.'
    ensures NumberStands(s, i, p.whole, p.point, p.fraction, e) && s[e..e + |p.name|] == p.name
  {
    var num, n := LaunchNumeral(p.whole, p.point, p.fraction), i + |p.whole|;
    SliceOf(s, i, num, p.name);
    assert s[e] == s[e..e + |p.name|][0];
    if p.point {
      SliceOf(s, i, p.whole, ['.'] + p.fraction);
      SliceOf(s, n, ['.'], p.fraction);
      assert s[n] == s[n..n + 1][0];
    }
  }

  /** Where the scans over a number end. */
  lemma NumberAt(s: string, i: nat, w: DigitString, point: bool, f: DigitString, e: nat)
    requires NumberStands(s, i, w, point, f, e)
    ensures RunEnd(s, i) == e && DigitsEnd(s, i) == i + |w| && (point ==> DigitsEnd(s, i + |w| + 1) == e)
  {
    var n := i + |w|;
    Within(s, i, n, w);
    if point {
      Within(s, n + 1, e, f);
      DigitsEndExact(s, n + 1, e);
    }
    DigitsEndExact(s, i, n);
    RunEndExact(s, i, e);
  }

  lemma LaunchNameAt(s: string, i: nat, u: string, unit: Unit)
    requires LaunchNames(u, unit) && i + |u| <= |s| && s[i..i + |u|] == u
    requires i + |u| < |s| ==> IsDigit(s[i + |u|]) || s[i + |u|] == '.'
    ensures LifetimeUnit(s, i) == UnitAt(|u|, unit)
  {
    var t := s[i..i + |u|];
    assert s[i] == t[0] && (|u| > 1 ==> s[i + 1] == t[1]);
  }

  lemma TagNameAt(s: string, i: nat, u: string, unit: Unit)
    requires Names(u, unit) && i + |u| <= |s| && s[i..i + |u|] == u
    requires i + |u| < |s| ==> IsDigit(s[i + |u|]) || s[i + |u|] == '.'
    ensures TagUnit(s, i) == UnitAt(|u|, unit)
  {
    var t := s[i..i + |u|];
    assert s[i] == t[0] && (|u| > 1 ==> s[i + 1] == t[1]);
  }

  lemma LaunchSegmentIs(s: string, i: nat, w: DigitString, point: bool, f: DigitString, e: nat, len: nat, unit: Unit)
    requires NumberStands(s, i, w, point, f, e) && IsNumeral(w, point, f) && LifetimeUnit(s, e) == UnitAt(len, unit)
    ensures LifetimeSegment(s, i) == Found(e + len, Seg(w, f, unit))
  {
    NumberAt(s, i, w, point, f, e);
  }

  /** The launch parser reads a piece where it stands. */
  lemma LaunchReads(s: string, i: nat, p: Piece)
    requires StandsAt(s, i, p) && LaunchPiece(p)
    ensures LifetimeSegment(s, i) == Found(i + |Spell(p)|, SegOf(p))
  {
    NoDigitFirst(p.name, p.unit);
    var e := i + |LaunchNumeral(p.whole, p.point, p.fraction)|;
    PieceStands(s, i, p, e);
    LaunchNameAt(s, e, p.name, p.unit);
    LaunchSegmentIs(s, i, p.whole, p.point, p.fraction, e, |p.name|, p.unit);
  }

  lemma TagNumberAt(s: string, i: nat, n: nat, e: nat)
    requires i < n <= e < |s| && DigitsEnd(s, i) == n && (n == e ==> s[e] != '.')
    requires n < e ==> s[n] == '.' && n + 1 < e && DigitsEnd(s, n + 1) == e
    ensures NumberEnd(s, i) == e
  {
  }

  lemma TagSegmentIs(s: string, i: nat, w: DigitString, point: bool, f: DigitString, e: nat, len: nat, unit: Unit)
    requires NumberStands(s, i, w, point, f, e) && |w| > 0 && (point <==> |f| > 0) && TagUnit(s, e) == UnitAt(len, unit)
    ensures Segment(s, i) == Match(e + len, Seg(w, f, unit))
  {
    NumberAt(s, i, w, point, f, e);
    TagNumberAt(s, i, i + |w|, e);
  }

  /** So does the tag reader. */
  lemma TagReads(s: string, i: nat, p: Piece)
    requires StandsAt(s, i, p) && TagPiece(p)
    ensures Segment(s, i) == Match(i + |Spell(p)|, SegOf(p))
  {
    NotDigits(p.name, p.unit);
    var e := i + |LaunchNumeral(p.whole, p.point, p.fraction)|;
    PieceStands(s, i, p, e);
    TagNameAt(s, e, p.name, p.unit);
    TagSegmentIs(s, i, p.whole, p.point, p.fraction, e, |p.name|, p.unit);
  }

  lemma FirstStands(s: string, i: nat, ps: seq<Piece>)
    requires i <= |s| && |ps| > 0 && s[i..] == SpellAll(ps)
    requires |ps| > 1 ==> |ps[1].whole| > 0 || ps[1].point
    ensures StandsAt(s, i, ps[0]) && s[i + |Spell(ps[0])|..] == SpellAll(ps[1..])
  {
    var end, rest := i + |Spell(ps[0])|, SpellAll(ps[1..]);
    assert s[i..end] == s[i..][..|Spell(ps[0])|];
    assert s[end..] == s[i..][|Spell(ps[0])|..] == rest;
    if end < |s| {
      assert |ps| > 1 && rest == Spell(ps[1]) + SpellAll(ps[1..][1..]);
      assert s[end] == rest[0] == Spell(ps[1])[0];
    }
  }

  // ---- What is spelled is read ----

  lemma LaunchStep(s: string, i: nat, end: nat, seg: Seg, rest: seq<Seg>)
    requires i < end <= |s| && LifetimeSegment(s, i) == Found(end, seg)
    requires LifetimeSegments(s, end) == LifetimeList(rest, None)
    ensures LifetimeSegments(s, i) == LifetimeList([seg] + rest, None)
  {
  }

  lemma LaunchFirst(s: string, i: nat, ps: seq<Piece>) returns (end: nat)
    requires i <= |s| && |ps| > 0 && s[i..] == SpellAll(ps) && LaunchPieces(ps)
    ensures i < end <= |s| && LifetimeSegment(s, i) == Found(end, SegOf(ps[0]))
    ensures s[end..] == SpellAll(ps[1..]) && LaunchPieces(ps[1..])
  {
    end := i + |Spell(ps[0])|;
    assert LaunchPiece(ps[0]) && (|ps| > 1 ==> LaunchPiece(ps[1]));
    FirstStands(s, i, ps);
    LaunchReads(s, i, ps[0]);
  }

  lemma {:induction false} LaunchReadsAll(s: string, i: nat, ps: seq<Piece>)
    requires i <= |s| && s[i..] == SpellAll(ps) && LaunchPieces(ps)
    ensures LifetimeSegments(s, i) == LifetimeList(SegsOf(ps), None)
    decreases |ps|
  {
    if |ps| == 0 {
    } else {
      var end := LaunchFirst(s, i, ps);
      LaunchReadsAll(s, end, ps[1..]);
      LaunchStep(s, i, end, SegOf(ps[0]), SegsOf(ps[1..]));
    }
  }

  lemma TagFirst(s: string, i: nat, ps: seq<Piece>) returns (end: nat)
    requires i <= |s| && |ps| > 0 && s[i..] == SpellAll(ps) && TagPieces(ps)
    ensures i < end <= |s| && Segment(s, i) == Match(end, SegOf(ps[0]))
    ensures s[end..] == SpellAll(ps[1..]) && TagPieces(ps[1..])
  {
    end := i + |Spell(ps[0])|;
    assert TagPiece(ps[0]) && (|ps| > 1 ==> TagPiece(ps[1]));
    FirstStands(s, i, ps);
    TagReads(s, i, ps[0]);
  }

  lemma {:induction false} TagReadsAll(s: string, i: nat, ps: seq<Piece>)
    requires i <= |s| && s[i..] == SpellAll(ps) && TagPieces(ps)
    ensures Segments(s, i) == List(SegsOf(ps))
    decreases |ps|
  {
    if |ps| == 0 {
    } else {
      var end := TagFirst(s, i, ps);
      TagReadsAll(s, end, ps[1..]);
      assert SegsOf(ps)[1..] == SegsOf(ps[1..]);
      SegmentsStep(s, i, end, SegsOf(ps));
    }
  }

  // ---- Nothing else is ----

  lemma LaunchPieceOf(s: string, i: nat) returns (p: Piece)
    requires i <= |s| && LifetimeSegment(s, i).Found?
    ensures LaunchPiece(p) && s[i..LifetimeSegment(s, i).end] == Spell(p)
  {
    var e, n, end := RunEnd(s, i), DigitsEnd(s, i), LifetimeSegment(s, i).end;
    p := Piece(s[i..n], n < e, LifetimeSegment(s, i).seg.fraction, s[e..end], LifetimeSegment(s, i).seg.unit);
    LaunchNameOf(s, e, s[e..end]);
    assert s[i..end] == s[i..e] + s[e..end];
    if n < e { assert s[i..e] == s[i..n] + ['.'] + s[n + 1..e]; }
  }

  lemma LaunchNameOf(s: string, i: nat, u: string)
    requires i <= |s| && LifetimeUnit(s, i).UnitAt? && u == s[i..i + LifetimeUnit(s, i).len]
    ensures LaunchNames(u, LifetimeUnit(s, i).unit)
  {
  }

  lemma TagPieceOf(s: string, i: nat) returns (p: Piece)
    requires i <= |s| && Segment(s, i).Match?
    ensures TagPiece(p) && s[i..Segment(s, i).end] == Spell(p)
  {
    var e, n, end := NumberEnd(s, i), DigitsEnd(s, i), Segment(s, i).end;
    TagNameOf(s, e, s[e..end]);
    var f := TagFraction(s, i, n, e);
    p := Piece(s[i..n], n < e, f, s[e..end], Segment(s, i).seg.unit);
    assert s[i..end] == s[i..e] + s[e..end];
  }

  lemma TagFraction(s: string, i: nat, n: nat, e: nat) returns (f: DigitString)
    requires i <= |s| && n == DigitsEnd(s, i) && e == NumberEnd(s, i) && e > i
    ensures |s[i..n]| > 0 && (n < e <==> |f| > 0) && s[i..e] == LaunchNumeral(s[i..n], n < e, f)
  {
    f := "";
    if n < e {
      assert s[n] == '.' && n + 1 < e == DigitsEnd(s, n + 1);
      f := s[n + 1..e];
      assert s[i..e] == s[i..n] + (['.'] + f);
    } else {
      assert s[i..e] == s[i..n] + [];
    }
  }

  lemma TagNameOf(s: string, i: nat, u: string)
    requires i <= |s| && TagUnit(s, i).UnitAt? && u == s[i..i + TagUnit(s, i).len]
    ensures Names(u, TagUnit(s, i).unit)
  {
  }

  lemma SpelledOn(s: string, i: nat, end: nat, p: Piece, rest: seq<Piece>, ps: seq<Piece>)
    requires i <= end <= |s| && s[i..end] == Spell(p) && s[end..] == SpellAll(rest) && ps == [p] + rest
    ensures s[i..] == SpellAll(ps)
  {
    assert s[i..] == s[i..end] + s[end..];
    assert ps[0] == p && ps[1..] == rest;
  }

  lemma {:induction false} LaunchPiecesOf(s: string, i: nat) returns (ps: seq<Piece>)
    requires i <= |s| && LifetimeSegments(s, i).error.None?
    ensures LaunchPieces(ps) && s[i..] == SpellAll(ps)
    decreases |s| - i
  {
    if i == |s| {
      ps := [];
    } else {
      var end := LifetimeSegment(s, i).end;
      var p := LaunchPieceOf(s, i);
      var rest := LaunchPiecesOf(s, end);
      ps := [p] + rest;
      SpelledOn(s, i, end, p, rest, ps);
    }
  }

  lemma {:induction false} TagPiecesOf(s: string, i: nat) returns (ps: seq<Piece>)
    requires i <= |s| && Segments(s, i).List?
    ensures TagPieces(ps) && s[i..] == SpellAll(ps)
    decreases |s| - i
  {
    if i == |s| {
      ps := [];
    } else {
      var end := Segment(s, i).end;
      var p := TagPieceOf(s, i);
      var rest := TagPiecesOf(s, end);
      ps := [p] + rest;
      SpelledOn(s, i, end, p, rest, ps);
    }
  }

  // ---- The launch parser's language ----

  /** A launch duration is one number with a unit after another, and lasts their sum, unless that is too large. */
  lemma LaunchAccepts(ps: seq<Piece>, s: string)
    requires |ps| > 0 && LaunchPieces(ps) && s == SpellAll(ps)
    ensures Lasts(ParseLifetime(s), Altogether(ps))
  {
    LaunchReadsAll(s, 0, ps);
    var end := LaunchFirst(s, 0, ps);
    AddUpTotal(SegsOf(ps), 0.0);
    SegsLast(ps);
    CappedLasts(Altogether(ps));
    SegmentStarts(s);
  }

  /** What starts with a segment is neither empty, nor signed, nor a bare zero. */
  lemma SegmentStarts(s: string)
    requires LifetimeSegment(s, 0).Found?
    ensures s != "" && s != "0" && !Signed(s)
  {
    var e := RunEnd(s, 0);
    assert e > 0 && LifetimeUnit(s, e).UnitAt?;
    assert |s| > 1;
  }

  /** Nothing else is one, but a bare zero. */
  lemma LaunchAcceptsOnly(s: string)
    requires ParseLifetime(s).Accepted? && s != "0"
    ensures exists ps :: |ps| > 0 && LaunchPieces(ps) && s == SpellAll(ps)
  {
    var l := LifetimeSegments(s, 0);
    if l.error.Some? {
      AddUpKeepsError(l.segs, l.error, 0.0);
    } else {
      var ps := LaunchPiecesOf(s, 0);
      assert s[0..] == s;
    }
  }

  // ---- The tag reader's language ----

  predicate Blank(s: string) {
    forall k :: 0 <= k < |s| ==> IsSpace(s[k])
  }

  /** White space, a sign or none, one number with a unit after another, and white space. */
  predicate TagText(input: string, before: string, sign: string, ps: seq<Piece>, after: string) {
    && input == before + sign + SpellAll(ps) + after && Blank(before) && Blank(after)
    && (sign == "" || sign == "+" || sign == "-") && |ps| > 0 && TagPieces(ps)
  }

  /** What white space is removed of. */
  lemma {:induction false} TrimIs(before: string, t: string, after: string)
    requires Blank(before) && Blank(after) && |t| > 0 && !IsSpace(t[0]) && !IsSpace(t[|t| - 1])
    ensures Trim(before + t + after) == t
    decreases |before| + |after|
  {
    var s := before + t + after;
    if |before| > 0 {
      assert s[1..] == before[1..] + t + after;
      TrimIs(before[1..], t, after);
    } else if |after| > 0 {
      assert s[..|s| - 1] == before + t + after[..|after| - 1];
      TrimIs(before, t, after[..|after| - 1]);
    } else {
      assert s == t;
    }
  }

  lemma {:induction false} Trimmed(s: string) returns (before: string, after: string)
    ensures s == before + Trim(s) + after && Blank(before) && Blank(after)
    decreases |s|
  {
    if |s| > 0 && IsSpace(s[0]) {
      before, after := Trimmed(s[1..]);
      before := [s[0]] + before;
      assert s == [s[0]] + s[1..];
    } else if |s| > 0 && IsSpace(s[|s| - 1]) {
      before, after := Trimmed(s[..|s| - 1]);
      after := after + [s[|s| - 1]];
      assert s == s[..|s| - 1] + [s[|s| - 1]];
    } else {
      before, after := "", "";
    }
  }

  /** Pieces start with a digit and end with the name of a unit. */
  lemma {:induction false} PieceEnds(ps: seq<Piece>)
    requires |ps| > 0 && TagPieces(ps)
    ensures var s := SpellAll(ps); |s| > 1 && IsDigit(s[0]) && !IsSpace(s[|s| - 1])
  {
    assert TagPiece(ps[0]);
    NotDigits(ps[0].name, ps[0].unit);
    if |ps| > 1 { PieceEnds(ps[1..]); }
  }

  /** A tagged duration reads as the sum of its pieces, or as the negative of it. */
  lemma TagAccepts(input: string, before: string, sign: string, ps: seq<Piece>, after: string)
    requires TagText(input, before, sign, ps, after)
    ensures ParseDuration(input) == Value(if sign == "-" then -Altogether(ps) else Altogether(ps))
  {
    var rest := SpellAll(ps);
    var t := sign + rest;
    PieceEnds(ps);
    SignedStart(sign, rest, t);
    Unpad(input, before, t, after);
    assert t[|sign|..] == rest;
    TagReadsAll(t, |sign|, ps);
    SegsLast(ps);
    SignedSum(input, t, |sign|, SegsOf(ps));
  }

  lemma Unpad(input: string, before: string, t: string, after: string)
    requires input == before + t + after && Blank(before) && Blank(after)
    requires |t| > 1 && !IsSpace(t[0]) && !IsSpace(t[|t| - 1])
    ensures Trim(input) == t && input != "0"
  {
    TrimIs(before, t, after);
  }

  lemma SignedStart(sign: string, rest: string, t: string)
    requires (sign == "" || sign == "+" || sign == "-") && |rest| > 1 && IsDigit(rest[0]) && t == sign + rest
    ensures |sign| == (if Signed(t) then 1 else 0) && |t| > 1 && (sign == "-" <==> t[0] == '-')
    ensures !IsSpace(t[0]) && t[|t| - 1] == rest[|rest| - 1]
  {
    assert sign == "" ==> t[0] == rest[0];
    assert sign != "" ==> t[0] == sign[0];
  }

  lemma SignedSum(input: string, t: string, i: nat, segs: seq<Seg>)
    requires Trim(input) == t && input != "0" && i < |t| && i == (if Signed(t) then 1 else 0)
    requires Segments(t, i) == List(segs)
    ensures ParseDuration(input) == Value(if i == 1 && t[0] == '-' then -Total(segs) else Total(segs))
  {
  }

  lemma ReadsSegments(input: string, t: string, i: nat)
    requires ParseDuration(input).Value? && input != "0" && t == Trim(input) && i == (if Signed(t) then 1 else 0)
    ensures i < |t| && Segments(t, i).List? && t == t[..i] + t[i..]
    ensures t[..i] == "" || t[..i] == "+" || t[..i] == "-"
  {
  }

  lemma IsTagText(input: string, before: string, sign: string, rest: string, ps: seq<Piece>, after: string)
    requires input == before + (sign + rest) + after && Blank(before) && Blank(after)
    requires (sign == "" || sign == "+" || sign == "-") && |rest| > 0 && rest == SpellAll(ps) && TagPieces(ps)
    ensures TagText(input, before, sign, ps, after)
  {
    assert before + (sign + rest) + after == before + sign + rest + after;
  }

  /** Nothing else reads as a duration, but a bare zero. */
  lemma TagAcceptsOnly(input: string)
    requires ParseDuration(input).Value? && input != "0"
    ensures exists before, sign, ps, after :: TagText(input, before, sign, ps, after)
  {
    var t := Trim(input);
    var i := if Signed(t) then 1 else 0;
    var before, after := Trimmed(input);
    ReadsSegments(input, t, i);
    var ps := TagPiecesOf(t, i);
    IsTagText(input, before, t[..i], t[i..], ps, after);
  }

  lemma BareZero()
    ensures ParseDuration("0") == Value(0.0) && ParseLifetime("0") == Accepted(0.0)
  {
  }
}
