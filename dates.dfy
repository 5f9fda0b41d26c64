/** The part of System.DateTime the repositories rely on: valid calendar days
    in years 1..9999, the `yyyyMMdd` rendering used in cache paths, and the
    calendar order used to describe a year's period. */
module Dates {
  import opened Results

  /** 100-nanosecond ticks in one day. */
  const TicksPerDay: int := 864_000_000_000

  predicate IsLeapYear(year: int) {
    year % 4 == 0 && (year % 100 != 0 || year % 400 == 0)
  }

  function DaysInMonth(year: int, month: int): (n: int)
    requires 1 <= month <= 12
    ensures 28 <= n <= 31
    ensures month == 12 ==> n == 31
  {
    if month == 2 then (if IsLeapYear(year) then 29 else 28)
    else if month == 4 || month == 6 || month == 9 || month == 11 then 30
    else 31
  }

  /** A day of the Gregorian calendar and a time of day, in ticks. */
  datatype Stamp = Stamp(year: int, month: int, day: int, ticks: int)

  predicate IsValid(s: Stamp) {
    && 1 <= s.year <= 9999
    && 1 <= s.month <= 12
    && 1 <= s.day <= DaysInMonth(s.year, s.month)
    && 0 <= s.ticks < TicksPerDay
  }

  /** The values a System.DateTime can hold. */
  type DateTime = s: Stamp | IsValid(s) witness Stamp(1, 1, 1, 0)

  /** Same calendar day, whatever the time of day. */
  predicate SameDay(a: DateTime, b: DateTime) {
    a.year == b.year && a.month == b.month && a.day == b.day
  }

  /** `a` falls on or before the calendar day of `b`. */
  predicate DayOnOrBefore(a: DateTime, b: DateTime) {
    || a.year < b.year
    || (a.year == b.year && a.month < b.month)
    || (a.year == b.year && a.month == b.month && a.day <= b.day)
  }

  function Pow10(n: nat): (p: nat)
    ensures p >= 1
  {
    if n == 0 then 1 else 10 * Pow10(n - 1)
  }

  predicate IsDigit(c: char) {
    '0' <= c <= '9'
  }

  predicate AllDigits(s: string) {
    forall i :: 0 <= i < |s| ==> IsDigit(s[i])
  }

  /** `n` in decimal, padded with leading zeros to exactly `width` digits:
      the `yyyy`, `MM` and `dd` parts of a custom format string. */
  function Padded(n: nat, width: nat): (s: string)
    requires n < Pow10(width)
    ensures |s| == width && AllDigits(s)
  {
    if width == 0 then []
    else
      assert n / 10 < Pow10(width - 1);
      Padded(n / 10, width - 1) + [('0' as int + n % 10) as char]
  }

  /** The number a string of decimal digits denotes. */
  function DigitsValue(s: string): nat
    requires AllDigits(s)
  {
    if s == [] then 0
    else 10 * DigitsValue(s[..|s| - 1]) + (s[|s| - 1] as int - '0' as int)
  }

  lemma {:induction false} PaddedValue(n: nat, width: nat)
    requires n < Pow10(width)
    ensures DigitsValue(Padded(n, width)) == n
  {
    if width > 0 {
      var s := Padded(n, width);
      assert s[..|s| - 1] == Padded(n / 10, width - 1);
      PaddedValue(n / 10, width - 1);
    }
  }

  /** `d.ToString("yyyyMMdd")`: eight digits; the time of day is not rendered. */
  function Yyyymmdd(d: DateTime): (s: string)
    ensures |s| == 8 && AllDigits(s)
  {
    Padded(d.year, 4) + Padded(d.month, 2) + Padded(d.day, 2)
  }

  /** Reads year, month and day back from an eight-digit `yyyyMMdd` string. */
  function ParseYyyymmdd(s: string): Option<(int, int, int)> {
    if |s| == 8 && AllDigits(s) then
      Some((DigitsValue(s[..4]), DigitsValue(s[4..6]), DigitsValue(s[6..])))
    else None
  }

  /** The rendering loses nothing but the time of day. */
  lemma ParseInvertsYyyymmdd(d: DateTime)
    ensures ParseYyyymmdd(Yyyymmdd(d)) == Some((d.year, d.month, d.day))
  {
    var s := Yyyymmdd(d);
    assert s[..4] == Padded(d.year, 4);
    assert s[4..6] == Padded(d.month, 2);
    assert s[6..] == Padded(d.day, 2);
    PaddedValue(d.year, 4);
    PaddedValue(d.month, 2);
    PaddedValue(d.day, 2);
  }

  /** Two DateTimes render to the same `yyyyMMdd` string exactly when they
      fall on the same calendar day. */
  lemma YyyymmddIdentifiesDay(a: DateTime, b: DateTime)
    ensures Yyyymmdd(a) == Yyyymmdd(b) <==> SameDay(a, b)
  {
    if Yyyymmdd(a) == Yyyymmdd(b) {
      ParseInvertsYyyymmdd(a);
      ParseInvertsYyyymmdd(b);
    }
  }
}
