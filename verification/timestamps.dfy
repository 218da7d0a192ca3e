/** The `%Y%m%d%H%M%S` rendering of a local date-time that the push request
    carries as its `Timestamp`, with a reader that inverts it. */
module Timestamps {

  import opened Wrappers
  import opened Text

  datatype DateTime = DateTime(year: int, month: int, day: int, hour: int, minute: int, second: int)

  predicate IsLeapYear(y: int) {
    (y % 4 == 0 && y % 100 != 0) || y % 400 == 0
  }

  function DaysInMonth(y: int, m: int): int
    requires 1 <= m <= 12
  {
    if m == 2 then (if IsLeapYear(y) then 29 else 28)
    else if m == 4 || m == 6 || m == 9 || m == 11 then 30
    else 31
  }

  /** A date-time the clock can report, restricted to four-digit years so that `%Y`
      has a fixed width. */
  predicate Valid(dt: DateTime) {
    && 1000 <= dt.year <= 9999
    && 1 <= dt.month <= 12
    && 1 <= dt.day <= DaysInMonth(dt.year, dt.month)
    && 0 <= dt.hour < 24
    && 0 <= dt.minute < 60
    && 0 <= dt.second < 60
  }

  function Format(dt: DateTime): (s: string)
    requires Valid(dt)
    ensures |s| == 14
    ensures AllDigits(s)
  {
    Pad(dt.year, 4) + Pad(dt.month, 2) + Pad(dt.day, 2)
      + Pad(dt.hour, 2) + Pad(dt.minute, 2) + Pad(dt.second, 2)
  }

  function Parse(s: string): (r: Option<DateTime>)
    ensures r.Some? ==> Valid(r.value)
  {
    if |s| == 14 && AllDigits(s) then
      assert AllDigits(s[0..4]) && AllDigits(s[4..6]) && AllDigits(s[6..8]);
      assert AllDigits(s[8..10]) && AllDigits(s[10..12]) && AllDigits(s[12..14]);
      var dt := DateTime(Value(s[0..4]), Value(s[4..6]), Value(s[6..8]),
                         Value(s[8..10]), Value(s[10..12]), Value(s[12..14]));
      if Valid(dt) then Some(dt) else None
    else None
  }

  /** The timestamp determines the date-time it was made from. */
  lemma ParseFormat(dt: DateTime)
    requires Valid(dt)
    ensures Parse(Format(dt)) == Some(dt)
  {
    var s := Format(dt);
    assert s[0..4] == Pad(dt.year, 4);
    assert s[4..6] == Pad(dt.month, 2);
    assert s[6..8] == Pad(dt.day, 2);
    assert s[8..10] == Pad(dt.hour, 2);
    assert s[10..12] == Pad(dt.minute, 2);
    assert s[12..14] == Pad(dt.second, 2);
  }

  lemma FormatInjective(a: DateTime, b: DateTime)
    requires Valid(a) && Valid(b)
    requires Format(a) == Format(b)
    ensures a == b
  {
    ParseFormat(a);
    ParseFormat(b);
  }
}
