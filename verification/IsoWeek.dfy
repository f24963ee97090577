/** ISO 8601 week numbers as the formatting library computes them from a C broken-down time. */
module IsoWeek {
  import opened Calendar
  import opened CIntegers

  const DAYS_PER_WEEK := 7

  function IsoYearWeeks(currYear: int): int {
    var prevYear := currYear - 1;
    var currDays := currYear + TruncDiv(currYear, 4) - TruncDiv(currYear, 100) + TruncDiv(currYear, 400);
    var prevDays := prevYear + TruncDiv(prevYear, 4) - TruncDiv(prevYear, 100) + TruncDiv(prevYear, 400);
    var currP := TruncRem(currDays, DAYS_PER_WEEK);
    var prevP := TruncRem(prevDays, DAYS_PER_WEEK);
    52 + if currP == 4 || prevP == 3 then 1 else 0
  }

  function IsoWeekNum(yday: int, wday: int): int {
    TruncDiv(yday + 11 - (if wday == 0 then DAYS_PER_WEEK else wday), DAYS_PER_WEEK)
  }

  function IsoWeekYear(year: int, yday: int, wday: int): int {
    var w := IsoWeekNum(yday, wday);
    if w < 1 then year - 1
    else if w > IsoYearWeeks(year) then year + 1
    else year
  }

  function IsoWeekOfYear(year: int, yday: int, wday: int): int {
    var w := IsoWeekNum(yday, wday);
    if w < 1 then IsoYearWeeks(year - 1)
    else if w > IsoYearWeeks(year) then 1
    else w
  }

  /** The Thursday of the week, Monday to Sunday, that a day lies in. */
  function ThursdayOf(day: int): int {
    day - day % 7 + 3
  }

  predicate InYear(day: int, year: int) {
    DaysBefore(year) <= day < DaysBefore(year + 1)
  }

  /** The last Thursday of a year; the week it lies in is the last week of that ISO year. */
  function LastThursday(year: int): int {
    ThursdayOf(DaysBefore(year + 1) - 4)
  }

  lemma LastThursdayIsLast(year: int)
    ensures InYear(LastThursday(year), year) && LastThursday(year) % 7 == 3
    ensures LastThursday(year) + 7 >= DaysBefore(year + 1)
  {
    YearsFollow(year);
    ThursdayIsNear(DaysBefore(year + 1) - 4);
  }

  lemma YearsFollow(year: int)
    ensures DaysBefore(year + 1) == DaysBefore(year) + YearLength(year)
  {
    DaysBeforeClosedForm(year);
    DaysBeforeClosedForm(year + 1);
    LeapDaysStep(year);
  }

  lemma ThursdayIsNear(day: int)
    ensures ThursdayOf(day) % 7 == 3 && day - 3 <= ThursdayOf(day) <= day + 3
  {
    assert day == 7 * (day / 7) + day % 7;
    assert ThursdayOf(day) == 7 * (day / 7) + 3;
  }

  /** The number of the last week of a year, the first Thursday lying in week 1. */
  function TrueWeeks(year: int): int {
    1 + (LastThursday(year) - DaysBefore(year)) / 7
  }

  /** A year that starts on a Thursday, or on a Wednesday and is a leap year. */
  predicate LongYear(year: int) {
    Weekday(DaysBefore(year)) == 4 || (Weekday(DaysBefore(year)) == 3 && Leap(year))
  }

  lemma WeeksOfDays(start: int, length: int)
    requires length == 365 || length == 366
    ensures var last := ThursdayOf(start + length - 4);
            1 + (last - start) / 7 == if start % 7 == 3 || (start % 7 == 2 && length == 366) then 53 else 52
    ensures (start + length) % 7 == 4 <==> (start % 7 == 3 && length == 365) || (start % 7 == 2 && length == 366)
  {
    var u, v := start / 7, start % 7;
    assert start == 7 * u + v;
    var w := (v + length - 4) % 7;
    assert (start + length - 4) % 7 == w by {
      assert start + length - 4 == 7 * u + (v + length - 4);
    }
    assert ThursdayOf(start + length - 4) - start == length - 1 - w;
  }

  lemma TrueWeeksOfLongYears(year: int)
    ensures TrueWeeks(year) == if LongYear(year) then 53 else 52
  {
    YearsFollow(year);
    WeeksOfDays(DaysBefore(year), YearLength(year));
    WeekdayIsNext(DaysBefore(year));
  }

  lemma WeekdayIsNext(day: int)
    ensures Weekday(day) == if day % 7 == 6 then 0 else day % 7 + 1
  {
    assert day == 7 * (day / 7) + day % 7;
    assert day + 1 == 7 * (day / 7) + (day % 7 + 1);
  }

  /** The day count of the source is the weekday of 31 December, one day further on. */
  lemma YearEndModSeven(year: int)
    ensures DaysBefore(year + 1) % 7 == (year + year / 4 - year / 100 + year / 400) % 7
  {
    DaysBeforeClosedForm(year + 1);
    WholeWeeks(52 * year, year + LeapDays(year));
  }

  lemma WholeWeeks(weeks: int, days: int)
    ensures (7 * weeks + days) % 7 == days % 7
  {
    assert days == 7 * (days / 7) + days % 7;
    assert 7 * weeks + days == 7 * (weeks + days / 7) + days % 7;
  }

  lemma BeforeYearOne()
    ensures DaysBefore(0) == -366 && DaysBefore(1) == 0
  {}

  lemma IsoYearWeeksFromTheEnds(year: int)
    requires year >= 0
    ensures IsoYearWeeks(year) == if DaysBefore(year + 1) % 7 == 4 || DaysBefore(year) % 7 == 3 then 53 else 52
  {
    YearEndModSeven(year);
    YearEndModSeven(year - 1);
    if year == 0 {
      BeforeYearOne();
    }
  }

  /** The number of weeks is right except for the long years before year 0, for which the remainders
      are never positive and 52 comes out. */
  lemma IsoYearWeeksIsRight(year: int)
    ensures IsoYearWeeks(year) == TrueWeeks(year) <==> year >= 0 || !LongYear(year)
  {
    TrueWeeksOfLongYears(year);
    if year >= 0 {
      IsoYearWeeksFromTheEnds(year);
      YearsFollow(year);
      WeeksOfDays(DaysBefore(year), YearLength(year));
      WeekdayIsNext(DaysBefore(year));
    }
  }

  /** The week number that the formula gives for a day, before it is moved to a neighbouring year. */
  lemma IsoWeekNumIsThursday(start: int, yday: int)
    requires 0 <= yday <= 365
    ensures var day := start + yday;
            && IsoWeekNum(yday, Weekday(day)) == 1 + (ThursdayOf(day) - start) / 7
            && (IsoWeekNum(yday, Weekday(day)) < 1 <==> ThursdayOf(day) < start)
  {
    var day := start + yday;
    WeekdayIsNext(day);
    ThursdayIsNear(day);
    assert ThursdayOf(day) - start == yday - day % 7 + 3;
  }

  /** Two Thursdays: the later one has the larger week number. */
  lemma LaterThursday(t: int, u: int, start: int)
    requires t % 7 == 3 && u % 7 == 3
    ensures t > u <==> (t - start) / 7 > (u - start) / 7
    ensures t > u ==> t >= u + 7
  {
    assert t == 7 * (t / 7) + 3 && u == 7 * (u / 7) + 3;
    assert t - start == 7 * (t / 7 - u / 7) + (u - start);
  }

  /** A week-based date. */
  datatype IsoDate = IsoDate(year: int, week: int)

  function Computed(year: int, yday: int): IsoDate {
    var wday := Weekday(DaysBefore(year) + yday);
    IsoDate(IsoWeekYear(year, yday, wday), IsoWeekOfYear(year, yday, wday))
  }

  /** The date that ISO 8601 defines for a day whose Thursday lies in `isoYear`: that year, and which Thursday
      of it this is. */
  function Defined(day: int, isoYear: int): IsoDate {
    IsoDate(isoYear, 1 + (ThursdayOf(day) - DaysBefore(isoYear)) / 7)
  }

  /** The days that go wrong: those of week 53 of a year before year 0. */
  predicate InLostWeek(day: int, isoYear: int) {
    isoYear < 0 && LongYear(isoYear) && ThursdayOf(day) == LastThursday(isoYear)
  }

  lemma {:induction false} YearsAreApart(y: int, z: int)
    requires y < z
    ensures DaysBefore(y + 1) <= DaysBefore(z)
    decreases z - y
  {
    if y + 1 < z {
      YearsAreApart(y, z - 1);
      YearsFollow(z - 1);
    }
  }

  lemma OneYear(day: int, y: int, z: int)
    requires InYear(day, y) && InYear(day, z)
    ensures y == z
  {
    if y < z {
      YearsAreApart(y, z);
    } else if z < y {
      YearsAreApart(z, y);
    }
  }

  lemma WeeksAreFewer(year: int)
    ensures 52 <= IsoYearWeeks(year) <= TrueWeeks(year) <= 53
  {
    TrueWeeksOfLongYears(year);
    IsoYearWeeksIsRight(year);
  }

  /** A Thursday of the year before: it is that year's last. */
  lemma WeekOfTheYearBefore(year: int, yday: int)
    requires 0 <= yday < YearLength(year) && ThursdayOf(DaysBefore(year) + yday) < DaysBefore(year)
    ensures ThursdayOf(DaysBefore(year) + yday) == LastThursday(year - 1)
    ensures Computed(year, yday) == IsoDate(year - 1, IsoYearWeeks(year - 1))
    ensures Defined(DaysBefore(year) + yday, year - 1) == IsoDate(year - 1, TrueWeeks(year - 1))
  {
    var day := DaysBefore(year) + yday;
    var t := ThursdayOf(day);
    IsoWeekNumIsThursday(DaysBefore(year), yday);
    ThursdayIsNear(day);
    LastThursdayIsLast(year - 1);
    LaterThursday(LastThursday(year - 1), t, 0);
    LaterThursday(t, LastThursday(year - 1), 0);
  }

  /** Thursdays by number: `w` is the number of `t` and `n` that of `last`, counted from `start`. */
  lemma ThursdayNumbers(t: int, last: int, start: int, w: int, n: int)
    requires t % 7 == 3 && last % 7 == 3 && w == 1 + (t - start) / 7 && n == 1 + (last - start) / 7
    ensures (t > last <==> w > n) && (t == last <==> w == n)
  {
    LaterThursday(t, last, start);
    LaterThursday(last, t, start);
  }

  lemma NumberOfTheWeek(year: int, yday: int) returns (w: int)
    requires 0 <= yday < YearLength(year)
    ensures w == Defined(DaysBefore(year) + yday, year).week
    ensures w < 1 <==> ThursdayOf(DaysBefore(year) + yday) < DaysBefore(year)
    ensures w > TrueWeeks(year) <==> ThursdayOf(DaysBefore(year) + yday) > LastThursday(year)
    ensures w == TrueWeeks(year) <==> ThursdayOf(DaysBefore(year) + yday) == LastThursday(year)
    ensures Computed(year, yday) == Picked(year, w)
  {
    w := PickedByNumber(year, yday);
    var t := ThursdayOf(DaysBefore(year) + yday);
    ThursdayIsNear(DaysBefore(year) + yday);
    LastThursdayIsLast(year);
    ThursdayNumbers(t, LastThursday(year), DaysBefore(year), w, TrueWeeks(year));
  }

  lemma PickedByNumber(year: int, yday: int) returns (w: int)
    requires 0 <= yday < YearLength(year)
    ensures w == 1 + (ThursdayOf(DaysBefore(year) + yday) - DaysBefore(year)) / 7
    ensures w < 1 <==> ThursdayOf(DaysBefore(year) + yday) < DaysBefore(year)
    ensures Computed(year, yday) == Picked(year, w)
  {
    w := IsoWeekNum(yday, Weekday(DaysBefore(year) + yday));
    IsoWeekNumIsThursday(DaysBefore(year), yday);
  }

  /** How the source goes on from the number of the week. */
  function Picked(year: int, w: int): IsoDate {
    if w < 1 then IsoDate(year - 1, IsoYearWeeks(year - 1))
    else if w > IsoYearWeeks(year) then IsoDate(year + 1, 1)
    else IsoDate(year, w)
  }

  /** A Thursday after the year's last one: the week is the first of the next year. */
  lemma ComputedAfter(year: int, yday: int)
    requires 0 <= yday < YearLength(year) && ThursdayOf(DaysBefore(year) + yday) > LastThursday(year)
    ensures Computed(year, yday) == IsoDate(year + 1, 1)
  {
    var w := NumberOfTheWeek(year, yday);
    PickedAfter(year, w);
  }

  lemma PickedAfter(year: int, w: int)
    requires w > TrueWeeks(year)
    ensures Picked(year, w) == IsoDate(year + 1, 1)
  {
    WeeksAreFewer(year);
  }

  lemma Below7(n: int)
    requires 0 <= n < 7
    ensures n / 7 == 0
  {}

  lemma FirstOfTheNext(year: int, yday: int, t: int)
    requires 0 <= yday < YearLength(year) && t == ThursdayOf(DaysBefore(year) + yday) && t > LastThursday(year)
    ensures DaysBefore(year + 1) <= t < DaysBefore(year + 1) + 7
    ensures Defined(DaysBefore(year) + yday, year + 1) == IsoDate(year + 1, 1) && t < LastThursday(year + 1)
  {
    ThursdayIsNear(DaysBefore(year) + yday);
    YearsFollow(year);
    LastThursdayIsLast(year);
    LaterThursday(t, LastThursday(year), 0);
    Below7(t - DaysBefore(year + 1));
    YearsFollow(year + 1);
    LastThursdayIsLast(year + 1);
  }

  lemma WeekOfTheYearItself(year: int, yday: int)
    requires 0 <= yday < YearLength(year)
    requires DaysBefore(year) <= ThursdayOf(DaysBefore(year) + yday) <= LastThursday(year)
    ensures var week := Defined(DaysBefore(year) + yday, year).week;
            week <= TrueWeeks(year) &&
            (week == TrueWeeks(year) <==> ThursdayOf(DaysBefore(year) + yday) == LastThursday(year)) &&
            Computed(year, yday) == if week > IsoYearWeeks(year) then IsoDate(year + 1, 1) else IsoDate(year, week)
  {
    var w := NumberOfTheWeek(year, yday);
  }

  lemma LastWeeks(year: int)
    ensures IsoYearWeeks(year) == TrueWeeks(year) ||
            (IsoYearWeeks(year) == TrueWeeks(year) - 1 && year < 0 && LongYear(year))
    ensures IsoYearWeeks(year) == TrueWeeks(year) ==> year >= 0 || !LongYear(year)
  {
    WeeksAreFewer(year);
    IsoYearWeeksIsRight(year);
  }

  /** The year of a day's Thursday. */
  lemma IsoYearOf(year: int, yday: int) returns (isoYear: int)
    requires 0 <= yday < YearLength(year)
    ensures InYear(ThursdayOf(DaysBefore(year) + yday), isoYear) && year - 1 <= isoYear <= year + 1
    ensures isoYear < year <==> ThursdayOf(DaysBefore(year) + yday) < DaysBefore(year)
    ensures isoYear > year <==> ThursdayOf(DaysBefore(year) + yday) > LastThursday(year)
  {
    var t := ThursdayOf(DaysBefore(year) + yday);
    ThursdayIsNear(DaysBefore(year) + yday);
    LastThursdayIsLast(year);
    YearsFollow(year - 1);
    YearsFollow(year);
    YearsFollow(year + 1);
    if t < DaysBefore(year) {
      isoYear := year - 1;
    } else if t > LastThursday(year) {
      FirstOfTheNext(year, yday, t);
      isoYear := year + 1;
    } else {
      isoYear := year;
    }
  }

  lemma RightInTheYearBefore(year: int, yday: int, isoYear: int)
    requires 0 <= yday < YearLength(year) && ThursdayOf(DaysBefore(year) + yday) < DaysBefore(year)
    requires isoYear == year - 1
    ensures Computed(year, yday) == Defined(DaysBefore(year) + yday, isoYear)
            <==> !InLostWeek(DaysBefore(year) + yday, isoYear)
  {
    WeekOfTheYearBefore(year, yday);
    LastWeeks(isoYear);
  }

  lemma RightInTheYearAfter(year: int, yday: int, isoYear: int)
    requires 0 <= yday < YearLength(year) && ThursdayOf(DaysBefore(year) + yday) > LastThursday(year)
    requires isoYear == year + 1
    ensures Computed(year, yday) == Defined(DaysBefore(year) + yday, isoYear)
            <==> !InLostWeek(DaysBefore(year) + yday, isoYear)
  {
    ComputedAfter(year, yday);
    FirstOfTheNext(year, yday, ThursdayOf(DaysBefore(year) + yday));
  }

  lemma RightInTheYearItself(year: int, yday: int)
    requires 0 <= yday < YearLength(year)
    requires DaysBefore(year) <= ThursdayOf(DaysBefore(year) + yday) <= LastThursday(year)
    ensures Computed(year, yday) == Defined(DaysBefore(year) + yday, year)
            <==> !InLostWeek(DaysBefore(year) + yday, year)
  {
    WeekOfTheYearItself(year, yday);
    LastWeeks(year);
  }

  /** For every day of every year, the week-based date is the one that ISO 8601 defines if and only if the day
      does not lie in week 53 of a year before year 0. */
  lemma WhenTheIsoWeekIsRight(year: int, yday: int, isoYear: int)
    requires 0 <= yday < YearLength(year) && InYear(ThursdayOf(DaysBefore(year) + yday), isoYear)
    ensures Computed(year, yday) == Defined(DaysBefore(year) + yday, isoYear)
            <==> !InLostWeek(DaysBefore(year) + yday, isoYear)
  {
    var y := IsoYearOf(year, yday);
    OneYear(ThursdayOf(DaysBefore(year) + yday), y, isoYear);
    if isoYear < year {
      RightInTheYearBefore(year, yday, isoYear);
    } else if isoYear > year {
      RightInTheYearAfter(year, yday, isoYear);
    } else {
      RightInTheYearItself(year, yday);
    }
  }

  lemma WeekInRange(year: int, yday: int)
    requires 0 <= yday < YearLength(year)
    ensures 1 <= Computed(year, yday).week <= IsoYearWeeks(Computed(year, yday).year)
  {
    WeeksAreFewer(year - 1);
    WeeksAreFewer(year);
    WeeksAreFewer(year + 1);
  }

  /** From year 1 on nothing goes wrong, and the week is one of its year's. */
  lemma IsoWeekIsThursdayBased(year: int, yday: int) returns (isoYear: int)
    requires year >= 1 && 0 <= yday < YearLength(year)
    ensures InYear(ThursdayOf(DaysBefore(year) + yday), isoYear)
    ensures Computed(year, yday) == Defined(DaysBefore(year) + yday, isoYear)
    ensures 1 <= Computed(year, yday).week <= IsoYearWeeks(isoYear)
  {
    isoYear := IsoYearOf(year, yday);
    WhenTheIsoWeekIsRight(year, yday, isoYear);
    WeekInRange(year, yday);
  }

  /** The year -396 is long, and what its last Thursday comes out as is wrong. */
  lemma LostThursday(yday: int)
    requires DaysBefore(-396) + yday == LastThursday(-396)
    ensures 0 <= yday < YearLength(-396) && LongYear(-396)
    ensures Computed(-396, yday) != Defined(DaysBefore(-396) + yday, -396)
  {
    LastThursdayIsLast(-396);
    YearsFollow(-396);
    ItsOwnThursday(LastThursday(-396));
    YearIsLong();
    WhenTheIsoWeekIsRight(-396, yday, -396);
  }

  lemma ItsOwnThursday(t: int)
    requires t % 7 == 3
    ensures ThursdayOf(t) == t
  {}

  lemma YearIsLong()
    ensures LongYear(-396)
  {
    DaysBeforeClosedForm(-396);
    assert DaysBefore(-396) == -145002;
  }
}
