/**
 * Commit timestamps and the month key derived from them.
 *
 * The commit service sends author dates in the `%Y-%m-%dT%H:%M:%SZ` form.
 * The aggregator parses each date and re-formats it with `%Y-%m`; the
 * parsing itself is not modelled: a date is the record it parses to.
 */
module Dates {
  import opened Options

  type Year = y: int | 1000 <= y <= 9999 witness 2024
  type MonthOfYear = m: int | 1 <= m <= 12 witness 1
  type DayOfMonth = d: int | 1 <= d <= 31 witness 1
  type Hour = h: int | 0 <= h < 24
  type Minute = m: int | 0 <= m < 60
  type Second = s: int | 0 <= s < 60

  datatype Timestamp = Timestamp(
    year: Year, month: MonthOfYear, day: DayOfMonth,
    hour: Hour, minute: Minute, second: Second)

  function Pow10(width: nat): (p: nat)
    ensures p >= 1
  {
    if width == 0 then 1 else 10 * Pow10(width - 1)
  }

  predicate IsDigit(c: char) {
    '0' <= c <= '9'
  }

  predicate AllDigits(s: string) {
    forall i :: 0 <= i < |s| ==> IsDigit(s[i])
  }

  function DigitChar(d: nat): (c: char)
    requires d < 10
    ensures IsDigit(c) && c as int - '0' as int == d
  {
    (d + '0' as int) as char
  }

  /** The last `width` decimal digits of `n`, zero-padded on the left. */
  function Digits(n: nat, width: nat): (s: string)
    ensures |s| == width && AllDigits(s)
  {
    if width == 0 then "" else Digits(n / 10, width - 1) + [DigitChar(n % 10)]
  }

  /** The number a string of decimal digits denotes. */
  function DecimalValue(s: string): (v: nat)
    requires AllDigits(s)
  {
    if s == "" then 0 else 10 * DecimalValue(s[..|s| - 1]) + (s[|s| - 1] as int - '0' as int)
  }

  /** Reading back `width` padded digits of a number that fits gives the number. */
  lemma {:induction false} DecimalValueOfDigits(n: nat, width: nat)
    requires n < Pow10(width)
    ensures DecimalValue(Digits(n, width)) == n
  {
    if width > 0 {
      var s := Digits(n, width);
      assert s[..width - 1] == Digits(n / 10, width - 1);
      assert n / 10 < Pow10(width - 1);
      DecimalValueOfDigits(n / 10, width - 1);
    }
  }

  /** The wire form of a date, `%Y-%m-%dT%H:%M:%SZ`. */
  function Render(ts: Timestamp): (s: string)
    ensures |s| == 20
  {
    Digits(ts.year, 4) + "-" + Digits(ts.month, 2) + "-" + Digits(ts.day, 2) + "T"
    + Digits(ts.hour, 2) + ":" + Digits(ts.minute, 2) + ":" + Digits(ts.second, 2) + "Z"
  }

  /** The month bucket of a commit: the date formatted with `%Y-%m`. */
  function MonthKey(ts: Timestamp): (key: string)
    ensures |key| == 7 && key[4] == '-'
    ensures AllDigits(key[..4]) && AllDigits(key[5..])
  {
    Digits(ts.year, 4) + "-" + Digits(ts.month, 2)
  }

  /** How a `YYYY-MM` key is read back as a calendar month (year, month). */
  function ParseMonthKey(key: string): (r: Option<(int, int)>)
    ensures r.Some? ==> |key| == 7 && 1 <= r.value.1 <= 12
  {
    if |key| == 7 && key[4] == '-' && AllDigits(key[..4]) && AllDigits(key[5..]) then
      var m := DecimalValue(key[5..]);
      if 1 <= m <= 12 then Some((DecimalValue(key[..4]), m)) else None
    else None
  }

  /** For a well-formed wire date, the month key is its first seven characters. */
  lemma MonthKeyIsPrefixOfRender(ts: Timestamp)
    ensures MonthKey(ts) == Render(ts)[..7]
  {
    var k := MonthKey(ts);
    assert Render(ts) == k + (Render(ts)[7..]);
  }

  /** A month key always reads back as the calendar month it was made from. */
  lemma MonthKeyRoundTrip(ts: Timestamp)
    ensures ParseMonthKey(MonthKey(ts)) == Some((ts.year as int, ts.month as int))
  {
    var k := MonthKey(ts);
    assert k[..4] == Digits(ts.year, 4);
    assert k[5..] == Digits(ts.month, 2);
    DecimalValueOfDigits(ts.year, 4);
    DecimalValueOfDigits(ts.month, 2);
  }

  /** Two commits share a month bucket exactly when they share year and month. */
  lemma MonthKeySeparatesMonths(a: Timestamp, b: Timestamp)
    ensures MonthKey(a) == MonthKey(b) <==> a.year == b.year && a.month == b.month
  {
    MonthKeyRoundTrip(a);
    MonthKeyRoundTrip(b);
  }
}
