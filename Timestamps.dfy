/**
  The UTC timestamp in an export file's name: `DateTime.ToString("yyyyMMddTHHmmss")`,
  four digits of year and two each of month, day, hour, minute and second,
  zero-padded, with a literal `T` between date and time.
 */
module Timestamps {
  import opened Wrappers

  /** A `DateTime` to the second; the clock itself is not modelled. */
  datatype Timestamp = Timestamp(year: int, month: int, day: int, hour: int, minute: int, second: int)

  predicate IsLeapYear(year: int) {
    year % 4 == 0 && (year % 100 != 0 || year % 400 == 0)
  }

  function DaysInMonth(year: int, month: int): int
    requires 1 <= month <= 12
  {
    if month == 2 then (if IsLeapYear(year) then 29 else 28)
    else if month == 4 || month == 6 || month == 9 || month == 11 then 30
    else 31
  }

  /** The values a `DateTime` can hold. */
  predicate Valid(t: Timestamp) {
    && 1 <= t.year <= 9999
    && 1 <= t.month <= 12
    && 1 <= t.day <= DaysInMonth(t.year, t.month)
    && 0 <= t.hour < 24
    && 0 <= t.minute < 60
    && 0 <= t.second < 60
  }

  function Pow10(n: nat): nat {
    if n == 0 then 1 else 10 * Pow10(n - 1)
  }

  predicate IsDigit(c: char) {
    '0' <= c <= '9'
  }

  predicate AllDigits(s: string) {
    forall i :: 0 <= i < |s| ==> IsDigit(s[i])
  }

  function DigitChar(d: nat): (c: char)
    requires d < 10
  {
    (('0' as int) + d) as char
  }

  /** The last `width` decimal digits of `n`, zero-padded on the left. */
  function PadDigits(n: nat, width: nat): (s: string)
    ensures |s| == width && AllDigits(s)
  {
    if width == 0 then ""
    else PadDigits(n / 10, width - 1) + [DigitChar(n % 10)]
  }

  /** The number a string of decimal digits denotes. */
  function DigitsValue(s: string): nat
    requires AllDigits(s)
  {
    if |s| == 0 then 0
    else 10 * DigitsValue(s[..|s| - 1]) + ((s[|s| - 1] as int) - ('0' as int))
  }

  /** Zero-padding loses nothing when the number fits the width. */
  lemma {:induction false} PadDigitsValue(n: nat, width: nat)
    requires n < Pow10(width)
    ensures DigitsValue(PadDigits(n, width)) == n
  {
    if width > 0 {
      var s := PadDigits(n, width);
      assert n / 10 < Pow10(width - 1);
      PadDigitsValue(n / 10, width - 1);
      assert s[..|s| - 1] == PadDigits(n / 10, width - 1);
      assert (s[|s| - 1] as int) - ('0' as int) == n % 10;
    }
  }

  /** `ToString("yyyyMMddTHHmmss")`. */
  function Format(t: Timestamp): (s: string)
    requires Valid(t)
    ensures |s| == 15 && s[8] == 'T'
    ensures AllDigits(s[..8]) && AllDigits(s[9..])
  {
    var s := PadDigits(t.year, 4) + PadDigits(t.month, 2) + PadDigits(t.day, 2) + "T"
      + PadDigits(t.hour, 2) + PadDigits(t.minute, 2) + PadDigits(t.second, 2);
    assert s[..8] == PadDigits(t.year, 4) + PadDigits(t.month, 2) + PadDigits(t.day, 2);
    assert s[9..] == PadDigits(t.hour, 2) + PadDigits(t.minute, 2) + PadDigits(t.second, 2);
    s
  }

  /** Reads a `yyyyMMddTHHmmss` stamp back; `None` for anything else. */
  function Parse(s: string): (r: Option<Timestamp>)
    ensures r.Some? ==> Valid(r.value)
  {
    if |s| == 15 && s[8] == 'T' && AllDigits(s[..8]) && AllDigits(s[9..]) then
      assert AllDigits(s[0..4]) && AllDigits(s[4..6]) && AllDigits(s[6..8]);
      assert AllDigits(s[9..11]) && AllDigits(s[11..13]) && AllDigits(s[13..15]);
      var t := Timestamp(
        DigitsValue(s[0..4]), DigitsValue(s[4..6]), DigitsValue(s[6..8]),
        DigitsValue(s[9..11]), DigitsValue(s[11..13]), DigitsValue(s[13..15]));
      if Valid(t) then Some(t) else None
    else None
  }

  /** Where each field sits in a formatted stamp. */
  lemma FormatFields(t: Timestamp)
    requires Valid(t)
    ensures var s := Format(t);
      && s[0..4] == PadDigits(t.year, 4)
      && s[4..6] == PadDigits(t.month, 2)
      && s[6..8] == PadDigits(t.day, 2)
      && s[9..11] == PadDigits(t.hour, 2)
      && s[11..13] == PadDigits(t.minute, 2)
      && s[13..15] == PadDigits(t.second, 2)
  {
  }

  /** Zero-padding the fields of a valid instant loses nothing. */
  lemma FieldValues(t: Timestamp)
    requires Valid(t)
    ensures DigitsValue(PadDigits(t.year, 4)) == t.year
    ensures DigitsValue(PadDigits(t.month, 2)) == t.month
    ensures DigitsValue(PadDigits(t.day, 2)) == t.day
    ensures DigitsValue(PadDigits(t.hour, 2)) == t.hour
    ensures DigitsValue(PadDigits(t.minute, 2)) == t.minute
    ensures DigitsValue(PadDigits(t.second, 2)) == t.second
  {
    assert Pow10(2) == 100 && Pow10(4) == 10000;
    PadDigitsValue(t.year, 4);
    PadDigitsValue(t.month, 2);
    PadDigitsValue(t.day, 2);
    PadDigitsValue(t.hour, 2);
    PadDigitsValue(t.minute, 2);
    PadDigitsValue(t.second, 2);
  }

  /** Parsing a formatted stamp gives back the instant it was made from. */
  lemma FormatParse(t: Timestamp)
    requires Valid(t)
    ensures Parse(Format(t)) == Some(t)
  {
    FormatFields(t);
    FieldValues(t);
  }

  /** Distinct instants give distinct stamps. */
  lemma FormatInjective(t1: Timestamp, t2: Timestamp)
    requires Valid(t1) && Valid(t2)
    requires Format(t1) == Format(t2)
    ensures t1 == t2
  {
    FormatParse(t1);
    FormatParse(t2);
  }
}
