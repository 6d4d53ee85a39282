/**
 * `formatTimestamp` (src/app/page.tsx): the `m:ss` label a segment receives when it is finalized,
 * for the milliseconds elapsed since the session started.
 */
module Timestamp {
  import opened Wrappers

  predicate IsDigit(c: char) {
    '0' <= c <= '9'
  }

  predicate AllDigits(s: string) {
    forall i :: 0 <= i < |s| ==> IsDigit(s[i])
  }

  function DigitChar(d: nat): (c: char)
    requires d < 10
    ensures IsDigit(c) && c as int - '0' as int == d
  {
    ('0' as int + d) as char
  }

  function DigitValue(c: char): (d: nat)
    requires IsDigit(c)
    ensures d < 10
  {
    c as int - '0' as int
  }

  /** Decimal digits of `n` without leading zeros, as `toString` writes a non-negative integer. */
  function NatToString(n: nat): (r: string)
    ensures r != [] && AllDigits(r)
    ensures |r| == 1 <==> n < 10
    ensures r[0] == '0' ==> n == 0
  {
    if n < 10 then [DigitChar(n)] else NatToString(n / 10) + [DigitChar(n % 10)]
  }

  /** `toString` of an integer: a minus sign in front of the digits of its magnitude. */
  function IntToString(i: int): (r: string)
    ensures r != [] && (r[0] == '-' <==> i < 0)
    ensures i >= 0 ==> AllDigits(r) && DecimalValue(r) == i
    ensures i < 0 ==> AllDigits(r[1..]) && DecimalValue(r[1..]) == -i
    ensures r[0] == '0' ==> i == 0
    ensures i < 0 ==> |r| > 1 && r[1] != '0'
  {
    if i < 0 then
      DecimalRoundTrip(-i);
      assert ("-" + NatToString(-i))[1..] == NatToString(-i);
      "-" + NatToString(-i)
    else
      DecimalRoundTrip(i);
      NatToString(i)
  }

  /** `s.padStart(width, fill)`: `s` itself when long enough, otherwise `s` behind copies of `fill`. */
  function PadStart(s: string, width: nat, fill: char): (r: string)
    ensures |r| == if |s| < width then width else |s|
    ensures r[|r| - |s|..] == s
    ensures forall i :: 0 <= i < |r| - |s| ==> r[i] == fill
  {
    if |s| >= width then s else seq(width - |s|, _ => fill) + s
  }

  /**
   * JavaScript's `a % b`: the remainder of division truncated toward zero, which takes the sign of
   * `a` (Dafny's `%` is Euclidean and never negative).
   */
  function TruncatedRemainder(a: int, b: int): (r: int)
    requires b > 0
    ensures -b < r < b
    ensures a >= 0 ==> r >= 0
    ensures a <= 0 ==> r <= 0
    ensures a >= 0 ==> r == a % b
  {
    if a >= 0 then a % b else -((-a) % b)
  }

  /**
   * `formatTimestamp(ms)`. `Math.floor(x / k)` for a positive `k` is Dafny's `/`, which rounds toward
   * negative infinity for a positive divisor; `sec % 60` truncates, so a negative `ms` gives a negative
   * seconds field (see FormatTimestampNegative).
   */
  function FormatTimestamp(ms: int): (r: string)
    ensures r != [] && (r[0] == '-' <==> ms < 0)
    ensures ':' in r
  {
    var sec := ms / 1000;
    var m := sec / 60;
    var s := TruncatedRemainder(sec, 60);
    var mins := IntToString(m);
    assert (mins + ":" + PadStart(IntToString(s), 2, '0'))[|mins|] == ':';
    mins + ":" + PadStart(IntToString(s), 2, '0')
  }

  /** The number a string of decimal digits denotes. */
  function DecimalValue(s: string): nat
    requires AllDigits(s)
  {
    if s == [] then 0 else DecimalValue(s[..|s| - 1]) * 10 + DigitValue(s[|s| - 1])
  }

  /** Reading back the digits `NatToString` writes gives the number written. */
  lemma {:induction false} DecimalRoundTrip(n: nat)
    ensures DecimalValue(NatToString(n)) == n
  {
    if n >= 10 {
      var r := NatToString(n);
      DecimalRoundTrip(n / 10);
      assert r[..|r| - 1] == NatToString(n / 10);
    }
  }

  /** The index of the first `c` in `s`, or -1 when there is none (`indexOf`). */
  function FindChar(s: string, c: char): (k: int)
    ensures -1 <= k < |s|
    ensures k >= 0 ==> s[k] == c && forall i :: 0 <= i < k ==> s[i] != c
    ensures k < 0 ==> forall i :: 0 <= i < |s| ==> s[i] != c
  {
    if s == [] then -1
    else if s[0] == c then 0
    else
      var k := FindChar(s[1..], c);
      if k < 0 then -1 else k + 1
  }

  /**
   * Reads a label of the shape `m:ss` back into minutes and seconds: one or more digits, a colon,
   * exactly two digits. Anything else is `None`.
   */
  function ParseTimestamp(t: string): Option<(nat, nat)> {
    var k := FindChar(t, ':');
    if k <= 0 || |t| != k + 3 || !AllDigits(t[..k]) || !AllDigits(t[k + 1..]) then None
    else Some((DecimalValue(t[..k]), DecimalValue(t[k + 1..])))
  }

  /** The two-character seconds field of a label for a non-negative time denotes the seconds. */
  lemma SecondsField(s: nat)
    requires s < 60
    ensures var f := PadStart(IntToString(s), 2, '0');
            |f| == 2 && AllDigits(f) && DecimalValue(f) == s
  {
    var f := PadStart(IntToString(s), 2, '0');
    DecimalRoundTrip(s);
    if s < 10 {
      assert f == ['0'] + NatToString(s);
      assert f[..1] == ['0'];
    } else {
      assert f == NatToString(s);
    }
  }

  /** A label built from a digit string, a colon and two digits parses back into the two numbers. */
  lemma ParseLabel(minutes: string, seconds: string)
    requires minutes != [] && AllDigits(minutes)
    requires |seconds| == 2 && AllDigits(seconds)
    ensures ParseTimestamp(minutes + ":" + seconds) == Some((DecimalValue(minutes), DecimalValue(seconds)))
  {
    var t := minutes + ":" + seconds;
    var k := |minutes|;
    assert t[k] == ':';
    forall i | 0 <= i < k ensures t[i] != ':' {
      assert t[i] == minutes[i];
    }
    assert FindChar(t, ':') == k;
    assert t[..k] == minutes;
    assert t[k + 1..] == seconds;
  }

  /**
   * For every non-negative elapsed time the label is `m:ss` with exactly two seconds digits, and it
   * reads back as minutes and seconds with `s < 60` and `m * 60 + s` the whole seconds elapsed.
   */
  lemma FormatTimestampRoundTrip(ms: nat)
    ensures ParseTimestamp(FormatTimestamp(ms)).Some?
    ensures var (m, s) := ParseTimestamp(FormatTimestamp(ms)).value;
            s < 60 && m * 60 + s == ms / 1000
    ensures var t := FormatTimestamp(ms); t[0] == '0' ==> FindChar(t, ':') == 1
  {
    var sec := ms / 1000;
    var mins, secs := sec / 60, sec % 60;
    var f := PadStart(IntToString(secs), 2, '0');
    assert FormatTimestamp(ms) == NatToString(mins) + ":" + f;
    SecondsField(secs);
    DecimalRoundTrip(mins);
    ParseLabel(NatToString(mins), f);
    if NatToString(mins)[0] == '0' {
      assert NatToString(mins) == "0";
    }
  }

  /** Seven seconds after the start the label is `0:07`. */
  lemma FormatSevenSeconds()
    ensures FormatTimestamp(7000) == "0:07"
  {
    assert NatToString(0) == "0";
    assert NatToString(7) == "7";
  }

  /** A clock that went back by a second yields `-1:-1`: both fields keep the sign. */
  lemma FormatTimestampNegative()
    ensures FormatTimestamp(-1000) == "-1:-1"
  {
    assert -1000 / 1000 == -1;
    assert -1 / 60 == -1;
    assert TruncatedRemainder(-1, 60) == -1;
    assert NatToString(1) == "1";
    assert IntToString(-1) == "-1";
    assert PadStart("-1", 2, '0') == "-1";
  }
}
