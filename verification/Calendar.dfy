/** The proleptic Gregorian calendar, defined by adding up years; it is what the closed forms of the
    date code are measured against. */
module Calendar {

  predicate Leap(year: int) {
    year % 4 == 0 && (year % 100 != 0 || year % 400 == 0)
  }

  function YearLength(year: int): int {
    if Leap(year) then 366 else 365
  }

  /** Days from 1 January of year 1 to 1 January of `year`; negative for earlier years. */
  function DaysBefore(year: int): int
    decreases if year >= 1 then year else 2 - year
  {
    if year == 1 then 0
    else if year > 1 then DaysBefore(year - 1) + YearLength(year - 1)
    else DaysBefore(year + 1) - YearLength(year)
  }

  /** Weekday of a day number, Sunday being 0; 1 January of year 1 is a Monday. */
  function Weekday(day: int): int {
    (day + 1) % 7
  }

  /** Leap days up to the end of `year`, by the rule of the calendar in closed form. */
  function LeapDays(year: int): int {
    year / 4 - year / 100 + year / 400
  }

  lemma LeapDaysStep(year: int)
    ensures LeapDays(year) - LeapDays(year - 1) == if Leap(year) then 1 else 0
  {
    DivStep(year, 4);
    DivStep(year, 100);
    DivStep(year, 400);
  }

  lemma DivStep(n: int, d: int)
    requires d == 4 || d == 100 || d == 400
    ensures n / d - (n - 1) / d == if n % d == 0 then 1 else 0
  {
  }

  lemma {:induction false} DaysBeforeClosedForm(year: int)
    ensures DaysBefore(year) == 365 * (year - 1) + LeapDays(year - 1)
    decreases if year >= 1 then year else 2 - year
  {
    if year > 1 {
      DaysBeforeClosedForm(year - 1);
      LeapDaysStep(year - 1);
    } else if year < 1 {
      DaysBeforeClosedForm(year + 1);
      LeapDaysStep(year);
    }
  }
}
