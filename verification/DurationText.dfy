/**
 * The text of a written duration (src/core/duration.ts:53-74): hours, minutes and seconds, the largest units first,
 * each below the next and left out where it can be. A reader would take any sum of units.
 */
module DurationText {
  import opened Basics
  import opened Duration

  function Field(n: nat, unit: string): string {
    NatToString(n) + unit
  }

  /** A point and the digits of so many thousandths, or nothing. */
  function FractionText(r: nat): string
    requires r < 1000
  {
    if r == 0 then "" else "." + Thousandths(r)
  }

  /** h hours, m minutes and k milliseconds. */
  function Fields(h: nat, m: nat, k: nat): string {
    (if h > 0 then Field(h, "h") else "")
    + (if m > 0 || (h > 0 && k > 0) then Field(m, "m") else "")
    + (if k > 0 || (h == 0 && m == 0) then NatToString(k / 1000) + FractionText(k % 1000) + "s" else "")
  }

  lemma PartsOfWhole(n: nat)
    ensures var x := n as real;
            && HoursIn(x) == n / 3600000
            && MinutesIn(x - HoursIn(x) as real * 3600000.0) == n / 60000 % 60
            && x - HoursIn(x) as real * 3600000.0 - (n / 60000 % 60) as real * 60000.0 == (n % 60000) as real
  {
    var h, m := n / 3600000, n / 60000 % 60;
    Split(n);
    HoursOf(n as real, h, (m * 60000 + n % 60000) as real);
    MinutesOf((m * 60000 + n % 60000) as real, m, (n % 60000) as real);
  }

  lemma Split(n: nat)
    ensures n == n / 3600000 * 3600000 + n / 60000 % 60 * 60000 + n % 60000
  {
    assert n / 60000 / 60 == n / 3600000;
  }

  lemma HoursOf(x: real, h: nat, rest: real)
    requires x == h as real * 3600000.0 + rest && 0.0 <= rest < 3600000.0
    ensures HoursIn(x) == h
  {
  }

  lemma MinutesOf(x: real, m: nat, rest: real)
    requires x == m as real * 60000.0 + rest && 0.0 <= rest < 60000.0
    ensures MinutesIn(x) == m
  {
  }

  lemma RoundOfWhole(k: nat)
    ensures Round(k as real) == k
  {
  }

  lemma FieldsText(h: nat, m: nat, k: nat)
    ensures SegsToString(PartsOf(h, m, k > 0, k)) == Fields(h, m, k)
  {
    var hours, minutes := Seg(NatToString(h), "", Hours), Seg(NatToString(m), "", Minutes);
    var seconds := Seg(NatToString(k / 1000), Thousandths(k % 1000), Seconds);
    assert SegToString(hours) == Field(h, "h") && SegToString(minutes) == Field(m, "m");
    assert SegToString(seconds) == NatToString(k / 1000) + FractionText(k % 1000) + "s";
    var a := if h > 0 then [hours] else [];
    var b := if m > 0 || (h > 0 && k > 0) then [minutes] else [];
    var c := if k > 0 || (h == 0 && m == 0) then [seconds] else [];
    assert PartsOf(h, m, k > 0, k) == a + b + c;
    SegsConcat(a + b, c);
    SegsConcat(a, b);
    OneText(hours);
    OneText(minutes);
    OneText(seconds);
  }

  lemma OneText(g: Seg)
    ensures SegsToString([g]) == SegToString(g)
  {
    assert [g][1..] == [];
  }

  lemma {:induction false} SegsConcat(a: seq<Seg>, b: seq<Seg>)
    ensures SegsToString(a + b) == SegsToString(a) + SegsToString(b)
  {
    if |a| == 0 {
      assert a + b == b;
    } else {
      assert (a + b)[0] == a[0] && (a + b)[1..] == a[1..] + b;
      SegsConcat(a[1..], b);
    }
  }

  /**
   * A whole number of milliseconds is written as its hours, its minutes below 60 and its seconds below 60 with as many
   * of three decimals as it takes.
   */
  lemma FormattedWhole(n: nat)
    ensures FormatDuration(n as real) == Fields(n / 3600000, n / 60000 % 60, n % 60000)
    ensures n > 0 ==> FormatDuration(-(n as real)) == "-" + Fields(n / 3600000, n / 60000 % 60, n % 60000)
  {
    PartsOfWhole(n);
    RoundOfWhole(n % 60000);
    FieldsText(n / 3600000, n / 60000 % 60, n % 60000);
    if n == 0 { ZeroText(); }
  }

  lemma ZeroText()
    ensures Fields(0, 0, 0) == "0s"
  {
    assert NatToString(0) == "0";
  }

  /** No trailing zero, and three digits at most. */
  lemma FractionShape(r: nat)
    requires 0 < r < 1000
    ensures 1 < |FractionText(r)| <= 4 && FractionText(r)[|FractionText(r)| - 1] != '0'
  {
    var a, b, c := NatToString(r / 100), NatToString(r / 10 % 10), NatToString(r % 10);
    assert |a| == 1 && |b| == 1 && |c| == 1;
  }
}
