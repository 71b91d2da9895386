/** Gregorian dates, and adding years to one. */
module Calendar {
  import opened Options

  datatype Date = Date(year: int, month: int, day: int)

  predicate IsLeap(year: int) {
    year % 4 == 0 && (year % 100 != 0 || year % 400 == 0)
  }

  function DaysInMonth(year: int, month: int): int {
    if month == 2 then (if IsLeap(year) then 29 else 28)
    else if month in {4, 6, 9, 11} then 30
    else 31
  }

  // The years a datetime can have.
  predicate InRange(year: int) {
    1 <= year <= 9999
  }

  predicate ValidDate(d: Date) {
    InRange(d.year) && 1 <= d.month <= 12 && 1 <= d.day <= DaysInMonth(d.year, d.month)
  }

  predicate IsLeapDay(d: Date) {
    IsLeap(d.year) && d.month == 2 && d.day == 29
  }

  predicate Before(a: Date, b: Date) {
    a.year < b.year || (a.year == b.year && (a.month < b.month || (a.month == b.month && a.day < b.day)))
  }

  // A leap day always becomes the first of March, even in another leap year. None stands for ValueError.
  function AddYears(d: Date, years: int): Option<Date> {
    if !InRange(d.year + years) then None
    else if IsLeapDay(d) then Some(Date(d.year + years, 3, 1))
    else Some(Date(d.year + years, d.month, d.day))
  }

  lemma AddYearsIsValid(d: Date, years: int)
    requires ValidDate(d)
    ensures AddYears(d, years).Some? <==> InRange(d.year + years)
    ensures AddYears(d, years).Some? ==> ValidDate(AddYears(d, years).value)
  {
  }

  // Adding years keeps the order of dates, and makes two different dates one exactly when they are a leap day
  // and the day after it.
  lemma AddYearsKeepsOrder(a: Date, b: Date, years: int)
    requires ValidDate(a) && ValidDate(b) && Before(a, b)
    requires InRange(a.year + years) && InRange(b.year + years)
    ensures var c, d := AddYears(a, years).value, AddYears(b, years).value;
            if IsLeapDay(a) && b == Date(a.year, 3, 1) then c == d else Before(c, d)
  {
  }

  // ---- Counting days ----

  function DaysBeforeYear(year: int): int {
    365 * (year - 1) + (year - 1) / 4 - (year - 1) / 100 + (year - 1) / 400
  }

  // Days of the year before the month.
  function DaysBeforeMonth(year: int, month: int): int
    requires 1 <= month <= 13
  {
    if month == 1 then 0 else DaysBeforeMonth(year, month - 1) + DaysInMonth(year, month - 1)
  }

  function DayNumber(d: Date): int
    requires 1 <= d.month <= 12
  {
    DaysBeforeYear(d.year) + DaysBeforeMonth(d.year, d.month) + d.day - 1
  }

  function DaysInYear(year: int): int {
    if IsLeap(year) then 366 else 365
  }

  lemma YearLength(year: int)
    ensures DaysBeforeYear(year + 1) - DaysBeforeYear(year) == DaysInYear(year)
  {
    Quarters(year);
    Centuries(year);
    Cycles(year);
    LeapsAdd(year);
  }

  lemma Quarters(year: int)
    ensures year / 4 - (year - 1) / 4 == if year % 4 == 0 then 1 else 0
  {
  }

  lemma Centuries(year: int)
    ensures year / 100 - (year - 1) / 100 == if year % 100 == 0 then 1 else 0
  {
  }

  lemma Cycles(year: int)
    ensures year / 400 - (year - 1) / 400 == if year % 400 == 0 then 1 else 0
  {
  }

  lemma LeapsAdd(year: int)
    ensures (if year % 4 == 0 then 1 else 0) - (if year % 100 == 0 then 1 else 0) + (if year % 400 == 0 then 1 else 0)
            == if IsLeap(year) then 1 else 0
  {
    HundredsAreQuarters(year / 100, year % 100);
    HundredsAreQuarters(4 * (year / 400), year % 400);
  }

  lemma HundredsAreQuarters(hundreds: int, rest: int)
    ensures (100 * hundreds) % 4 == 0
    ensures rest == 0 ==> (100 * hundreds + rest) % 4 == 0 && (100 * hundreds + rest) % 100 == 0
  {
    assert 100 * hundreds == 4 * (25 * hundreds);
  }

  lemma {:induction false} MonthsUpTo(year: int, month: int, later: int)
    requires 1 <= month <= later <= 13
    ensures DaysBeforeMonth(year, month) + (if month < later then DaysInMonth(year, month) else 0) <= DaysBeforeMonth(year, later)
    decreases later
  {
    if month < later {
      MonthsUpTo(year, month, later - 1);
    }
  }

  lemma MonthTable(year: int)
    ensures var leap := if IsLeap(year) then 1 else 0;
            && DaysBeforeMonth(year, 1) == 0 && DaysBeforeMonth(year, 2) == 31 && DaysBeforeMonth(year, 3) == 59 + leap
            && DaysBeforeMonth(year, 4) == 90 + leap && DaysBeforeMonth(year, 5) == 120 + leap && DaysBeforeMonth(year, 6) == 151 + leap
            && DaysBeforeMonth(year, 7) == 181 + leap && DaysBeforeMonth(year, 8) == 212 + leap && DaysBeforeMonth(year, 9) == 243 + leap
            && DaysBeforeMonth(year, 10) == 273 + leap && DaysBeforeMonth(year, 11) == 304 + leap && DaysBeforeMonth(year, 12) == 334 + leap
            && DaysBeforeMonth(year, 13) == 365 + leap
  {
  }

  lemma {:induction false} YearsGrow(year: int, later: int)
    requires year < later
    ensures DaysBeforeYear(year) + DaysInYear(year) <= DaysBeforeYear(later)
    decreases later - year
  {
    YearLength(later - 1);
    if year + 1 < later {
      YearsGrow(year, later - 1);
    }
  }

  // Day numbers order valid dates as the calendar does.
  lemma DayNumbersFollowTheCalendar(a: Date, b: Date)
    requires ValidDate(a) && ValidDate(b) && Before(a, b)
    ensures DayNumber(a) < DayNumber(b)
  {
    MonthTable(a.year);
    MonthTable(b.year);
    if a.year < b.year {
      MonthsUpTo(a.year, a.month, 13);
      YearsGrow(a.year, b.year);
      MonthsUpTo(b.year, 1, b.month);
    } else {
      MonthsUpTo(a.year, a.month, b.month);
    }
  }

  // Two years on is 731 days when a leap day lies between, and 730 days otherwise.
  lemma TwoYearsLater(d: Date)
    requires ValidDate(d) && InRange(d.year + 2)
    ensures var leapDayBetween := (IsLeap(d.year) && d.month <= 2) || IsLeap(d.year + 1) || (IsLeap(d.year + 2) && d.month > 2);
            DayNumber(AddYears(d, 2).value) - DayNumber(d) == if leapDayBetween then 731 else 730
  {
    YearLength(d.year);
    YearLength(d.year + 1);
    DaysBefore(d.year, d.month);
    DaysBefore(d.year + 2, d.month);
    NoTwoLeapYearsInARow(d.year);
    if IsLeapDay(d) {
      DaysBefore(d.year + 2, 3);
    }
  }

  // Before any month, a leap year differs from another year by its leap day.
  lemma {:induction false} DaysBefore(year: int, month: int)
    requires 1 <= month <= 13
    ensures DaysBeforeMonth(year, month) == DaysBeforeMonth(1, month) + if IsLeap(year) && month > 2 then 1 else 0
    ensures DaysBeforeMonth(1, 2) == 31 && DaysBeforeMonth(1, 3) == 59
  {
    if month > 1 {
      DaysBefore(year, month - 1);
    }
  }

  lemma NoTwoLeapYearsInARow(year: int)
    ensures !(IsLeap(year) && IsLeap(year + 1)) && !(IsLeap(year) && IsLeap(year + 2)) && !(IsLeap(year + 1) && IsLeap(year + 2))
  {
  }

  // ---- Instants, in UTC ----

  const DAY := 86_400_000_000

  // A date and the microseconds since its midnight.
  datatype Stamp = Stamp(date: Date, time: int)

  predicate ValidStamp(s: Stamp) {
    ValidDate(s.date) && 0 <= s.time < DAY
  }

  predicate AtMost(s: Stamp, t: Stamp) {
    Before(s.date, t.date) || (s.date == t.date && s.time <= t.time)
  }

  function Plus(s: Stamp, years: int): Option<Stamp> {
    var date := AddYears(s.date, years);
    if date.Some? then Some(Stamp(date.value, s.time)) else None
  }

  function Micros(s: Stamp): int
    requires ValidStamp(s)
  {
    DayNumber(s.date) * DAY + s.time
  }

  // On instants the order is kept except from a leap day to an earlier time of the next day.
  lemma PlusKeepsOrderIff(s: Stamp, t: Stamp, years: int)
    requires ValidStamp(s) && ValidStamp(t) && AtMost(s, t)
    requires InRange(s.date.year + years) && InRange(t.date.year + years)
    ensures AtMost(Plus(s, years).value, Plus(t, years).value)
            <==> !(IsLeapDay(s.date) && t.date == Date(s.date.year, 3, 1) && s.time > t.time)
  {
    if s.date != t.date {
      AddYearsKeepsOrder(s.date, t.date, years);
    }
  }

  // Comparing instants is comparing microseconds.
  lemma AtMostIsOnMicros(s: Stamp, t: Stamp)
    requires ValidStamp(s) && ValidStamp(t)
    ensures AtMost(s, t) <==> Micros(s) <= Micros(t)
  {
    if Before(s.date, t.date) {
      DayNumbersFollowTheCalendar(s.date, t.date);
    } else if Before(t.date, s.date) {
      DayNumbersFollowTheCalendar(t.date, s.date);
    }
  }

  function Yesterday(d: Date): Date {
    if d.day > 1 then Date(d.year, d.month, d.day - 1)
    else if d.month > 1 then Date(d.year, d.month - 1, DaysInMonth(d.year, d.month - 1))
    else Date(d.year - 1, 12, 31)
  }

  function JustBefore(s: Stamp): Stamp {
    if s.time > 0 then Stamp(s.date, s.time - 1) else Stamp(Yesterday(s.date), DAY - 1)
  }

  lemma MicrosJustBefore(s: Stamp)
    requires ValidStamp(s) && s.date.year > 1
    ensures ValidStamp(JustBefore(s)) && Micros(JustBefore(s)) == Micros(s) - 1
  {
    if s.time == 0 {
      DayBefore(s.date);
    }
  }

  lemma DayBefore(d: Date)
    requires ValidDate(d) && d.year > 1
    ensures ValidDate(Yesterday(d)) && DayNumber(Yesterday(d)) == DayNumber(d) - 1
  {
    if d.day == 1 && d.month == 1 {
      NewYear(d.year);
    } else if d.day == 1 {
      assert DaysBeforeMonth(d.year, d.month) == DaysBeforeMonth(d.year, d.month - 1) + DaysInMonth(d.year, d.month - 1);
    }
  }

  lemma NewYear(year: int)
    ensures DayNumber(Date(year - 1, 12, 31)) == DayNumber(Date(year, 1, 1)) - 1
  {
    YearLength(year - 1);
    MonthTable(year - 1);
    MonthTable(year);
  }
}
