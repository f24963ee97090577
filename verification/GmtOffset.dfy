/** The UTC offset of the logging library on systems without `tm_gmtoff` (`calculate_gmt_offset`). */
module GmtOffset {
  import opened Calendar
  import opened CIntegers

  /** The broken-down time; `year` counts from 1900 as in C. */
  datatype Tm = Tm(year: int, yday: int, hour: int, min: int, sec: int)

  function CalculateGmtOffset(local: Tm, gmt: Tm): int {
    var localYear := local.year + (1900 - 1);
    var gmtYear := gmt.year + (1900 - 1);
    var days :=
      local.yday - gmt.yday
      + (ShiftRight2(localYear) - ShiftRight2(gmtYear)) - (TruncDiv(localYear, 100) - TruncDiv(gmtYear, 100))
      + (ShiftRight2(TruncDiv(localYear, 100)) - ShiftRight2(TruncDiv(gmtYear, 100)))
      + (localYear - gmtYear) * 365;
    var hours := 24 * days + (local.hour - gmt.hour);
    var mins := 60 * hours + (local.min - gmt.min);
    60 * mins + (local.sec - gmt.sec)
  }

  /** Seconds since 1 January of year 1, on the tm's own clock. */
  function Seconds(t: Tm): int {
    86400 * (DaysBefore(1900 + t.year) + t.yday) + 3600 * t.hour + 60 * t.min + t.sec
  }

  /** The years before year 1 for which rounding towards zero and shifting disagree about centuries. */
  predicate CenturyMisrounded(t: Tm) {
    var lastYear := t.year + 1899;
    lastYear < 0 && lastYear % 100 != 0 && TruncDiv(lastYear, 100) % 4 != 0
  }

  lemma CenturyTerms(lastYear: int)
    ensures ShiftRight2(lastYear) - TruncDiv(lastYear, 100) + ShiftRight2(TruncDiv(lastYear, 100))
         == LeapDays(lastYear)
            - if lastYear < 0 && lastYear % 100 != 0 && TruncDiv(lastYear, 100) % 4 != 0 then 1 else 0
  {
    var f := lastYear / 100;
    assert lastYear / 400 == f / 4;
    assert TruncDiv(lastYear, 100) == if lastYear >= 0 || lastYear % 100 == 0 then f else f + 1;
  }

  /** The closed form is the true difference in seconds exactly when both years are misrounded or
      neither is; in particular whenever both years are 1 or later. */
  lemma OffsetIsTheDifference(local: Tm, gmt: Tm)
    ensures CalculateGmtOffset(local, gmt) == Seconds(local) - Seconds(gmt)
            <==> (CenturyMisrounded(local) <==> CenturyMisrounded(gmt))
    ensures local.year >= -1899 && gmt.year >= -1899 ==> CalculateGmtOffset(local, gmt) == Seconds(local) - Seconds(gmt)
  {
    DaysBeforeClosedForm(1900 + local.year);
    DaysBeforeClosedForm(1900 + gmt.year);
    CenturyTerms(local.year + 1899);
    CenturyTerms(gmt.year + 1899);
  }

  /** At the turn from the year -100 to the year -99, one hour comes out as a day and an hour. */
  lemma WrongAtTheTurnOfACentury()
    ensures var local, gmt := Tm(-1999, 0, 0, 0, 0), Tm(-2000, YearLength(-100) - 1, 23, 0, 0);
            Seconds(local) - Seconds(gmt) == 3600 && CalculateGmtOffset(local, gmt) == 3600 + 86400
  {
    var local, gmt := Tm(-1999, 0, 0, 0, 0), Tm(-2000, YearLength(-100) - 1, 23, 0, 0);
    DaysBeforeClosedForm(-100);
    DaysBeforeClosedForm(-99);
  }
}
