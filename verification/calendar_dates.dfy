/** Calendar dates as the query builder prints them, in Go's "2006-01-02"
    layout. Go's time.Time arithmetic (time.AddDate with its overflow
    normalisation) is outside this model and arrives as a parameter. */
module CalendarDates {
  import opened Results
  import opened Strings

  datatype CivilDate = CivilDate(year: int, month: int, day: int)

  predicate InRange(d: CivilDate) {
    0 <= d.year <= 9999 && 1 <= d.month <= 12 && 1 <= d.day <= 31
  }

  /** A date whose year has at most four digits, the range in which Go's
      layout pads to exactly four digits. */
  type Date = d: CivilDate | InRange(d) witness CivilDate(2016, 6, 1)

  /** Go's time.AddDate(years, months, days), supplied by the caller. */
  type AddDate = (Date, int, int, int) -> Date

  /** Go's t.Format("2006-01-02"). */
  function FormatDate(d: Date): (r: string)
    ensures |r| == 10 && r[4] == '-' && r[7] == '-'
    ensures AllDigits(r[..4]) && AllDigits(r[5..7]) && AllDigits(r[8..])
  {
    PadDigits(d.year, 4) + "-" + PadDigits(d.month, 2) + "-" + PadDigits(d.day, 2)
  }

  /** Reads a "YYYY-MM-DD" date back, rejecting anything else. */
  function ParseDate(s: string): (r: Option<Date>)
    ensures r.Some? ==> |s| == 10
  {
    if |s| == 10 && s[4] == '-' && s[7] == '-'
       && AllDigits(s[..4]) && AllDigits(s[5..7]) && AllDigits(s[8..])
    then
      var d := CivilDate(ParseNat(s[..4]), ParseNat(s[5..7]), ParseNat(s[8..]));
      if InRange(d) then Some(d) else None
    else None
  }

  /** A formatted date reads back as the same date. */
  lemma FormatDateRoundTrip(d: Date)
    ensures ParseDate(FormatDate(d)) == Some(d)
  {
    var y := PadDigits(d.year, 4);
    var m := PadDigits(d.month, 2);
    var dd := PadDigits(d.day, 2);
    var s := FormatDate(d);
    assert s == y + "-" + m + "-" + dd;
    assert s[..4] == y;
    assert s[5..7] == m;
    assert s[8..] == dd;
    assert Pow10(4) == 10000 && Pow10(2) == 100;
    PadDigitsRoundTrip(d.year, 4);
    PadDigitsRoundTrip(d.month, 2);
    PadDigitsRoundTrip(d.day, 2);
  }
}
