/** The minutes-and-seconds label of the dashboard's duration cards
    (`format_duration` in app.py), together with the decimal rendering of
    integers it relies on (Python's `str(int)` inside an f-string) and a
    parser that reads a label back. Seconds are real numbers: the script
    passes the float values of the analytics response. */
module Duration {
  import opened Wrappers

  // ---------------------------------------------------------------------
  // Decimal numerals
  // ---------------------------------------------------------------------

  predicate IsDigit(c: char) {
    '0' <= c <= '9'
  }

  predicate AllDigits(s: string) {
    forall i :: 0 <= i < |s| ==> IsDigit(s[i])
  }

  function DigitValue(c: char): (d: nat)
    requires IsDigit(c)
    ensures d < 10
  {
    c as int - '0' as int
  }

  function DigitChar(d: nat): (c: char)
    requires d < 10
    ensures IsDigit(c) && DigitValue(c) == d
  {
    ('0' as int + d) as char
  }

  /** The decimal numeral of a natural number, most significant digit first. */
  function NatToString(n: nat): (s: string)
    ensures |s| >= 1 && AllDigits(s)
    ensures s[0] == '0' ==> n == 0
    ensures n < 10 <==> |s| == 1
  {
    if n < 10 then [DigitChar(n)] else NatToString(n / 10) + [DigitChar(n % 10)]
  }

  /** Python's `str` of an int: a minus sign before the numeral of the magnitude. */
  function IntToString(i: int): (s: string)
    ensures |s| >= 1
    ensures forall k :: 0 <= k < |s| ==> IsDigit(s[k]) || s[k] == '-'
    ensures (s[0] == '-') == (i < 0)
    ensures var first := if i < 0 then 1 else 0;
      && first < |s|
      && (forall k :: first <= k < |s| ==> IsDigit(s[k]))
      && (s[first] == '0' ==> i == 0)
  {
    if i < 0 then "-" + NatToString(-i) else NatToString(i)
  }

  /** The value of a (possibly empty) string of digits. */
  function DigitsValue(s: string): nat
    requires AllDigits(s)
  {
    if s == [] then 0 else DigitsValue(s[..|s| - 1]) * 10 + DigitValue(s[|s| - 1])
  }

  /** Reads an optionally negative decimal numeral; anything else is None. */
  function ParseInt(s: string): Option<int> {
    if |s| >= 2 && s[0] == '-' && AllDigits(s[1..]) then Some(-(DigitsValue(s[1..]) as int))
    else if |s| >= 1 && AllDigits(s) then Some(DigitsValue(s))
    else None
  }

  lemma {:induction false} NatToStringRoundTrip(n: nat)
    ensures DigitsValue(NatToString(n)) == n
  {
    if n >= 10 {
      var s := NatToString(n);
      NatToStringRoundTrip(n / 10);
      assert s[..|s| - 1] == NatToString(n / 10);
    }
  }

  /** Every integer's numeral reads back as that integer. */
  lemma IntToStringRoundTrip(i: int)
    ensures ParseInt(IntToString(i)) == Some(i)
  {
    var s := IntToString(i);
    if i < 0 {
      var n := NatToString(-i);
      assert s == "-" + n && s[1..] == n;
      NatToStringRoundTrip(-i);
      assert |s| >= 2 && s[0] == '-' && AllDigits(s[1..]);
      assert ParseInt(s) == Some(-(DigitsValue(n) as int));
    } else {
      assert s == NatToString(i) && s[0] != '-';
      NatToStringRoundTrip(i);
      assert ParseInt(s) == Some(DigitsValue(s));
    }
  }

  // ---------------------------------------------------------------------
  // Rounding and the quotient/remainder split
  // ---------------------------------------------------------------------

  /** Python's `round` of a float: the nearest integer, ties to the even one. */
  function RoundHalfEven(x: real): (n: int)
    ensures x - 0.5 <= n as real <= x + 0.5
    ensures (n as real == x - 0.5 || n as real == x + 0.5) ==> n % 2 == 0
  {
    var f := x.Floor;
    var frac := x - f as real;
    if frac < 0.5 then f
    else if frac > 0.5 then f + 1
    else if f % 2 == 0 then f
    else f + 1
  }

  /** `math.floor(seconds / 60)`. */
  function Minutes(seconds: real): (m: int)
    ensures 60.0 * m as real <= seconds < 60.0 * m as real + 60.0
  {
    (seconds / 60.0).Floor
  }

  /** `seconds % 60` on a float: the remainder takes the divisor's sign. */
  function Remainder(seconds: real): (r: real)
    ensures 0.0 <= r < 60.0
    ensures seconds == 60.0 * Minutes(seconds) as real + r
  {
    seconds - 60.0 * Minutes(seconds) as real
  }

  // ---------------------------------------------------------------------
  // The label
  // ---------------------------------------------------------------------

  /** `format_duration`: zero is the bare "0秒"; any other value is the floor
      of its minutes, "分", its rounded remainder of seconds and "秒". */
  function FormatDuration(seconds: real): (text: string)
    ensures |text| >= 2 && text[|text| - 1] == '秒'
    ensures seconds == 0.0 <==> text == "0秒"
  {
    if seconds == 0.0 then "0秒"
    else IntToString(Minutes(seconds)) + "分" + IntToString(RoundHalfEven(Remainder(seconds))) + "秒"
  }

  /** The index of the first occurrence of `c` in `s`. */
  function IndexOf(s: string, c: char): (k: Option<nat>)
    ensures k.Some? ==> k.value < |s| && s[k.value] == c && c !in s[..k.value]
    ensures k.None? ==> c !in s
  {
    if s == [] then None
    else if s[0] == c then Some(0)
    else match IndexOf(s[1..], c)
      case None => None
      case Some(j) => Some(j + 1)
  }

  /** Reads a duration label back as a whole number of seconds: "0秒" is 0,
      and "M分S秒" is 60*M + S. */
  function ParseDuration(text: string): Option<int> {
    if text == "0秒" then Some(0)
    else if |text| == 0 || text[|text| - 1] != '秒' then None
    else match IndexOf(text, '分')
      case None => None
      case Some(k) =>
        match (ParseInt(text[..k]), ParseInt(text[k + 1..|text| - 1]))
        case (Some(m), Some(r)) => Some(60 * m + r)
        case _ => None
  }

  lemma {:induction false} IndexOfAfterPrefix(a: string, rest: string, c: char)
    requires c !in a && rest != [] && rest[0] == c
    ensures IndexOf(a + rest, c) == Some(|a|)
  {
    if a != [] {
      assert (a + rest)[1..] == a[1..] + rest;
      IndexOfAfterPrefix(a[1..], rest, c);
    }
  }

  /** A label for non-zero seconds splits at its first "分" into the numeral
      of its minutes and the numeral of its seconds. */
  lemma LabelSplit(a: string, b: string)
    requires forall k :: 0 <= k < |a| ==> IsDigit(a[k]) || a[k] == '-'
    ensures var t := a + "分" + b + "秒";
      && IndexOf(t, '分') == Some(|a|)
      && t[..|a|] == a
      && t[|a| + 1..|t| - 1] == b
  {
    var t := a + "分" + b + "秒";
    assert forall k | 0 <= k < |a| :: a[k] != '分';
    assert '分' !in a;
    IndexOfAfterPrefix(a, "分" + b + "秒", '分');
    assert t == a + ("分" + b + "秒");
  }

  /** A label "M分S秒" reads back as 60*M + S. */
  lemma ParseLabelParts(m: int, r: int)
    ensures ParseDuration(IntToString(m) + "分" + IntToString(r) + "秒") == Some(60 * m + r)
  {
    var a, b := IntToString(m), IntToString(r);
    var t := a + "分" + b + "秒";
    assert |t| >= 4;
    assert t != "0秒";
    LabelSplit(a, b);
    IntToStringRoundTrip(m);
    IntToStringRoundTrip(r);
  }

  /** Every label reads back, and the value it shows is within half a second
      of the seconds it was made from. */
  lemma FormatDurationWithinHalfSecond(seconds: real)
    ensures ParseDuration(FormatDuration(seconds)).Some?
    ensures -0.5 <= ParseDuration(FormatDuration(seconds)).value as real - seconds <= 0.5
  {
    if seconds != 0.0 {
      ParseLabelParts(Minutes(seconds), RoundHalfEven(Remainder(seconds)));
    }
  }

  /** For a whole number of seconds the label is exact: it reads back as the
      same number. Distinct whole durations therefore never share a label. */
  lemma WholeSecondsRoundTrip(k: int)
    ensures ParseDuration(FormatDuration(k as real)) == Some(k)
  {
    FormatDurationWithinHalfSecond(k as real);
    var v := ParseDuration(FormatDuration(k as real)).value;
    assert v <= k;
    assert v >= k;
  }

  /** For a non-zero whole number of seconds, the label is "M分S秒" with the
      floor quotient M and the remainder S of a division by 60 (S in 0..59,
      for negative seconds as well). */
  lemma WholeSecondsLabel(k: int, m: int, r: int)
    requires k != 0 && 60 * m + r == k && 0 <= r < 60
    ensures FormatDuration(k as real) == IntToString(m) + "分" + IntToString(r) + "秒"
  {
    var x := k as real;
    assert 60.0 * m as real <= x < 60.0 * m as real + 60.0;
    assert Minutes(x) == m;
    assert Remainder(x) == r as real;
    assert RoundHalfEven(r as real) == r;
  }

  /** A whole non-zero duration is never shown as "0分0秒". */
  lemma WholeSecondsNeverZeroMinutesZeroSeconds(k: int)
    ensures FormatDuration(k as real) != "0分0秒"
  {
    if k != 0 {
      ParseLabelParts(0, 0);
      assert "0分0秒" == IntToString(0) + "分" + IntToString(0) + "秒";
      WholeSecondsRoundTrip(k);
    }
  }

  lemma WholeSecondsExamples()
    ensures FormatDuration(0.0) == "0秒"
    ensures FormatDuration(125.0) == "2分5秒"
    ensures FormatDuration(59.0) == "0分59秒"
    ensures FormatDuration(-30.0) == "-1分30秒"
    ensures FormatDuration(30.0) == "0分30秒"
  {
    Example125();
    Example59();
    ExampleMinus30();
    Example30();
  }

  lemma Example125()
    ensures FormatDuration(125.0) == "2分5秒"
  {
    WholeSecondsLabel(125, 2, 5);
    assert IntToString(2) == "2" && IntToString(5) == "5";
  }

  lemma Example59()
    ensures FormatDuration(59.0) == "0分59秒"
  {
    WholeSecondsLabel(59, 0, 59);
    assert IntToString(0) == "0";
    assert IntToString(59) == NatToString(5) + [DigitChar(9)] == "59";
  }

  lemma ExampleMinus30()
    ensures FormatDuration(-30.0) == "-1分30秒"
  {
    WholeSecondsLabel(-30, -1, 30);
    assert IntToString(-1) == "-1";
    assert IntToString(30) == NatToString(3) + [DigitChar(0)] == "30";
  }

  lemma Example30()
    ensures FormatDuration(30.0) == "0分30秒"
  {
    WholeSecondsLabel(30, 0, 30);
    assert IntToString(0) == "0";
    assert IntToString(30) == NatToString(3) + [DigitChar(0)] == "30";
  }

  /** Fractional seconds, as the analytics service reports them, can produce
      the labels "0分0秒" (a remainder that rounds down to zero) and "0分60秒"
      (a remainder that rounds up to a full minute). */
  lemma FractionalSecondsExamples()
    ensures FormatDuration(0.3) == "0分0秒"
    ensures FormatDuration(59.6) == "0分60秒"
    ensures FormatDuration(125.5) == "2分6秒"
  {
    assert Minutes(0.3) == 0;
    assert Minutes(59.6) == 0;
    assert Minutes(125.5) == 2;
    assert RoundHalfEven(0.3) == 0;
    assert RoundHalfEven(59.6) == 60;
    assert RoundHalfEven(5.5) == 6;
    assert IntToString(60) == "60";
    assert IntToString(6) == "6";
  }
}
