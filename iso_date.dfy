/**
 * The donation date, a `java.time.LocalDate`, written by `LocalDate.toString`
 * and read by `LocalDate.parse`, both in the calendar-date extended format
 * YYYY-MM-DD of section 4.1.2.2 of ISO 8601:2004, proleptic Gregorian
 * calendar, with strict checking of the day against the month and year.
 */
module IsoDate {
  import opened Wrappers
  import opened Digits

  datatype LocalDate = LocalDate(year: int, month: int, day: int)

  predicate IsLeapYear(year: int) {
    year % 4 == 0 && (year % 100 != 0 || year % 400 == 0)
  }

  function DaysInMonth(year: int, month: int): (n: int)
    requires 1 <= month <= 12
    ensures 28 <= n <= 31
  {
    if month == 2 then (if IsLeapYear(year) then 29 else 28)
    else if month == 4 || month == 6 || month == 9 || month == 11 then 30
    else 31
  }

  /** A real calendar day with a four-digit year. */
  predicate Valid(d: LocalDate) {
    0 <= d.year <= 9999 && 1 <= d.month <= 12 && 1 <= d.day <= DaysInMonth(d.year, d.month)
  }

  type Data = d: LocalDate | Valid(d) witness LocalDate(2000, 1, 1)

  /** YYYY-MM-DD, every field zero-padded. */
  function Render(d: Data): (s: string)
    ensures |s| == 10
    ensures forall i :: 0 <= i < |s| ==> IsDigit(s[i]) || s[i] == '-'
  {
    Padded(d.year, 4) + "-" + Padded(d.month, 2) + "-" + Padded(d.day, 2)
  }

  /** Accepts exactly ten characters, DDDD-DD-DD, naming a real calendar day. */
  function Parse(s: string): (r: Option<Data>)
    ensures r.Some? ==> |s| == 10 && s[4] == '-' && s[7] == '-'
  {
    if |s| == 10 && s[4] == '-' && s[7] == '-'
       && AllDigits(s[..4]) && AllDigits(s[5..7]) && AllDigits(s[8..])
    then
      var d := LocalDate(Value(s[..4]), Value(s[5..7]), Value(s[8..]));
      if Valid(d) then Some(d) else None
    else
      None
  }

  /** Reading back the text of a date gives that same date. */
  lemma ParseRender(d: Data)
    ensures Parse(Render(d)) == Some(d)
  {
    var s := Render(d);
    assert s[..4] == Padded(d.year, 4);
    assert s[5..7] == Padded(d.month, 2);
    assert s[8..] == Padded(d.day, 2);
    ValueOfPadded(d.year, 4);
    ValueOfPadded(d.month, 2);
    ValueOfPadded(d.day, 2);
  }

  /** An accepted text is the text of the date read from it: no other text names that day. */
  lemma RenderParse(s: string)
    requires Parse(s).Some?
    ensures Render(Parse(s).value) == s
  {
    PaddedValue(s[..4]);
    PaddedValue(s[5..7]);
    PaddedValue(s[8..]);
    assert s == s[..4] + "-" + s[5..7] + "-" + s[8..];
  }
}
