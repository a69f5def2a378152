/** Calendar dates as the record holds them (Python `datetime`, of which
    the report uses only the date part) and their ISO text. */
module Dates {
  import opened Wrappers
  import opened Decimal

  datatype Date = Date(year: nat, month: nat, day: nat)

  predicate IsLeapYear(y: nat) {
    y % 4 == 0 && (y % 100 != 0 || y % 400 == 0)
  }

  function DaysInMonth(y: nat, m: nat): nat
    requires 1 <= m <= 12
  {
    if m == 2 then (if IsLeapYear(y) then 29 else 28)
    else if m == 4 || m == 6 || m == 9 || m == 11 then 30
    else 31
  }

  /** The dates a Python `datetime` can hold: years 1 to 9999 of the
      proleptic Gregorian calendar. */
  predicate ValidDate(d: Date) {
    1 <= d.year <= 9999 && 1 <= d.month <= 12 && 1 <= d.day <= DaysInMonth(d.year, d.month)
  }

  /** `strftime('%Y-%m-%d')`: four-digit year, two-digit month and day. */
  function IsoDate(d: Date): (s: string)
    requires ValidDate(d)
    ensures |s| == 10 && s[4] == '-' && s[7] == '-'
    ensures AllDigits(s[..4]) && AllDigits(s[5..7]) && AllDigits(s[8..])
  {
    var s := Pad4(d.year) + "-" + Pad2(d.month) + "-" + Pad2(d.day);
    assert s[..4] == Pad4(d.year) && s[5..7] == Pad2(d.month) && s[8..] == Pad2(d.day);
    s
  }

  /** Reads a `YYYY-MM-DD` date; anything else, or a date not on the calendar, is None. */
  function ParseIsoDate(s: string): Option<Date>
  {
    if |s| != 10 || s[4] != '-' || s[7] != '-' then None
    else if !AllDigits(s[..4]) || !AllDigits(s[5..7]) || !AllDigits(s[8..]) then None
    else
      var d := Date(DigitsValue(s[..4]), DigitsValue(s[5..7]), DigitsValue(s[8..]));
      if ValidDate(d) then Some(d) else None
  }

  /** Every valid date reads back from its ISO text. */
  lemma IsoDateRoundTrip(d: Date)
    requires ValidDate(d)
    ensures ParseIsoDate(IsoDate(d)) == Some(d)
  {
    var s := IsoDate(d);
    assert s[..4] == Pad4(d.year) && s[5..7] == Pad2(d.month) && s[8..] == Pad2(d.day);
  }

  /** ...and ISO text is the only text that reads back as that date. */
  lemma IsoDateCanonical(s: string, d: Date)
    requires ParseIsoDate(s) == Some(d)
    ensures ValidDate(d) && IsoDate(d) == s
  {
    Pad4Canonical(s[..4]);
    Pad2Canonical(s[5..7]);
    Pad2Canonical(s[8..]);
    assert s == s[..4] + "-" + s[5..7] + "-" + s[8..];
  }
}
