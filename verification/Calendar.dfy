// The calendar arithmetic of firmware/user/time_utils.c and the weekday of
// firmware/user/thermostat.c, for any 32-bit time.
module Calendar {
  import opened Bytes

  const DAY := 86400

  datatype Date = Date(year: int, month: int, day: int)

  // The code's IS_LEAP, and the Gregorian rule.
  function EveryFourth(year: int): bool {
    year % 4 == 0
  }

  function Gregorian(year: int): bool {
    year % 4 == 0 && (year % 100 != 0 || year % 400 == 0)
  }

  function MonthLengths(leap: bool): (c: seq<int>)
    ensures |c| == 12
  {
    [31, if leap then 29 else 28, 31, 30, 31, 30, 31, 31, 30, 31, 30, 31]
  }

  function YearLength(leap: bool): int {
    if leap then 366 else 365
  }

  // ------------------------------------------------------------------ counting days

  // Days from the start of 1970 to the start of a year, under a leap rule.
  function DaysBefore(year: int, leap: int -> bool): int {
    if year <= 1970 then 0 else DaysBefore(year - 1, leap) + YearLength(leap(year - 1))
  }

  // Days from the start of a year to the start of its month number m, counting from 0.
  function MonthStart(m: nat, leap: bool): int
    requires m <= 12
    decreases m
  {
    if m == 0 then 0 else MonthStart(m - 1, leap) + MonthLengths(leap)[m - 1]
  }

  function DayNumber(d: Date, leap: int -> bool): int
    requires 1 <= d.month <= 12
  {
    DaysBefore(d.year, leap) + MonthStart(d.month - 1, leap(d.year)) + d.day - 1
  }

  predicate IsDate(d: Date, leap: int -> bool) {
    && d.year >= 1970 && 1 <= d.month <= 12
    && 1 <= d.day <= MonthLengths(leap(d.year))[d.month - 1]
  }

  lemma MonthTable(leap: bool)
    ensures var x := if leap then 1 else 0;
            && MonthStart(0, leap) == 0 && MonthStart(1, leap) == 31 && MonthStart(2, leap) == 59 + x
            && MonthStart(3, leap) == 90 + x && MonthStart(4, leap) == 120 + x && MonthStart(5, leap) == 151 + x
            && MonthStart(6, leap) == 181 + x && MonthStart(7, leap) == 212 + x && MonthStart(8, leap) == 243 + x
            && MonthStart(9, leap) == 273 + x && MonthStart(10, leap) == 304 + x && MonthStart(11, leap) == 334 + x
            && MonthStart(12, leap) == YearLength(leap)
  {
  }

  lemma {:induction false} MonthsGrow(m: nat, n: nat, leap: bool)
    requires m < n <= 12
    ensures MonthStart(m, leap) + MonthLengths(leap)[m] <= MonthStart(n, leap)
    decreases n
  {
    if m < n - 1 {
      MonthsGrow(m, n - 1, leap);
    }
  }

  lemma {:induction false} YearsGrow(y: int, z: int, leap: int -> bool)
    requires 1970 <= y < z
    ensures DaysBefore(y, leap) + YearLength(leap(y)) <= DaysBefore(z, leap)
    decreases z
  {
    if y < z - 1 {
      YearsGrow(y, z - 1, leap);
    }
  }

  lemma YearDay(d: Date, leap: int -> bool)
    requires IsDate(d, leap)
    ensures DaysBefore(d.year, leap) <= DayNumber(d, leap) < DaysBefore(d.year, leap) + YearLength(leap(d.year))
  {
    MonthTable(leap(d.year));
    MonthsGrow(d.month - 1, 12, leap(d.year));
    if d.month > 1 {
      MonthsGrow(0, d.month - 1, leap(d.year));
    }
  }

  // Different dates have different day numbers.
  lemma OneDateForADay(d: Date, e: Date, leap: int -> bool)
    requires IsDate(d, leap) && IsDate(e, leap) && DayNumber(d, leap) == DayNumber(e, leap)
    ensures d == e
  {
    YearDay(d, leap);
    YearDay(e, leap);
    if d.year < e.year {
      YearsGrow(d.year, e.year, leap);
    } else if e.year < d.year {
      YearsGrow(e.year, d.year, leap);
    } else if d.month < e.month {
      MonthsGrow(d.month - 1, e.month - 1, leap(d.year));
    } else if e.month < d.month {
      MonthsGrow(e.month - 1, d.month - 1, leap(d.year));
    }
  }

  // ------------------------------------------------------------------ the code

  // get_year: the year, and in *t the seconds left of it.
  method GetYear(start: U32) returns (year: int, t: U32)
    ensures 1970 <= year
    ensures start == t + DAY * DaysBefore(year, EveryFourth)
    ensures t <= DAY * YearLength(EveryFourth(year))
    ensures year > 1970 ==> t > 0
  {
    year, t := 1970, start;
    while t > DAY * YearLength(EveryFourth(year))
      invariant 1970 <= year && start == t + DAY * DaysBefore(year, EveryFourth)
      invariant year > 1970 ==> t > 0
    {
      t := t - DAY * YearLength(EveryFourth(year));
      year := year + 1;
    }
  }

  // get_month: the month from 1, and in *t the seconds left of it.
  method GetMonth(start: U32, year: int) returns (month: int, t: U32)
    requires start <= DAY * YearLength(EveryFourth(year))
    ensures 1 <= month <= 12
    ensures start == t + DAY * MonthStart(month - 1, EveryFourth(year))
    ensures t <= DAY * MonthLengths(EveryFourth(year))[month - 1]
    ensures month > 1 ==> t > 0
  {
    var cal := MonthLengths(EveryFourth(year));
    MonthTable(EveryFourth(year));
    var i := 0;
    t := start;
    while t > cal[i] * DAY
      invariant 0 <= i < 12 && start == t + DAY * MonthStart(i, EveryFourth(year))
      invariant i > 0 ==> t > 0
    {
      t := t - cal[i] * DAY;
      i := i + 1;
    }
    month := i + 1;
  }

  // The terms of wd, with C's division: its operands are never negative here.
  function MonthTerm(month: int): int {
    (153 * (month + 12 * ((14 - month) / 12) - 3) + 2) / 5
  }

  function CenturyTerm(y: int): int {
    y / 400 - y / 100
  }

  function JulianDay(d: Date): int {
    var y := d.year + 4800 - (14 - d.month) / 12;
    d.day + MonthTerm(d.month) + 365 * y + y / 4 + CenturyTerm(y) - 32045
  }

  // wd
  function Wd(d: Date): int {
    JulianDay(d) % 7
  }

  // What the calendar and weekday code makes of a time.
  ghost predicate Reports(t: U32, d: Date) {
    && d.year >= 1970 && 1 <= d.month <= 12
    && DayNumber(d, EveryFourth) == t / DAY
    && 1 <= d.day <= MonthLengths(EveryFourth(d.year))[d.month - 1] + 1
    && (d.day > MonthLengths(EveryFourth(d.year))[d.month - 1] ==> t % DAY == 0)
    && (t % DAY == 0 && t > 0 ==> d.day > 1)
  }

  // The head of pollThermostatCb.
  method LocalDate(t: U32) returns (date: Date, dow: int)
    ensures Reports(t, date) && dow == Wd(date)
  {
    var year, left := GetYear(t);
    var month, rest := GetMonth(left, year);
    var day := 1 + rest / DAY;
    date := Date(year, month, day);
    dow := Wd(date);
    assert t == DAY * (DaysBefore(year, EveryFourth) + MonthStart(month - 1, EveryFourth(year))) + rest;
  }

  // ------------------------------------------------------------------ the weekday

  lemma {:induction false} LeapYearsSoFar(year: int)
    requires year >= 1970
    ensures DaysBefore(year, EveryFourth) == 365 * (year - 1970) + (year - 1969) / 4
    decreases year
  {
    if year > 1970 {
      LeapYearsSoFar(year - 1);
    }
  }

  lemma MonthTerms(month: int, leap: bool)
    requires 1 <= month <= 12
    ensures MonthTerm(month) == if month <= 2 then 306 + 31 * (month - 1)
                                else MonthStart(month - 1, leap) - MonthStart(2, leap)
  {
    MonthTable(leap);
  }

  lemma CenturyTerms(y: int)
    requires 6769 <= y <= 6910
    ensures CenturyTerm(y) == if y < 6900 then -51 else -52
  {
  }

  // The Julian day number that wd computes, against the day count; the code's calendar has a
  // 29 February 2100 and the formula does not.
  lemma JulianDayCountsDays(d: Date)
    requires 1970 <= d.year <= 2110 && 1 <= d.month <= 12
    ensures JulianDay(d) == DayNumber(d, EveryFourth) + 2440588 - if 12 * d.year + d.month > 12 * 2100 + 2 then 1 else 0
  {
    hide MonthTerm, CenturyTerm, MonthStart, DaysBefore;
    LeapYearsSoFar(d.year);
    MonthTerms(d.month, EveryFourth(d.year));
    MonthTable(EveryFourth(d.year));
    CenturyTerms(d.year + 4800 - (14 - d.month) / 12);
    assert (14 - d.month) / 12 == if d.month <= 2 then 1 else 0;
  }

  const MARCH_2100 := 4107542400      // 2100-03-01 00:00:00

  // The bounds of a reported date within its year.
  lemma WithinYear(t: U32, d: Date)
    requires Reports(t, d)
    ensures d.year <= 2110
    ensures 365 * (d.year - 1970) + (d.year - 1969) / 4 <= t / DAY
    ensures t / DAY <= 365 * (d.year - 1970) + (d.year - 1969) / 4 + YearLength(EveryFourth(d.year))
  {
    hide MonthStart;
    LeapYearsSoFar(d.year);
    MonthTable(EveryFourth(d.year));
    MonthsGrow(d.month - 1, 12, EveryFourth(d.year));
    if d.month > 1 {
      MonthsGrow(0, d.month - 1, EveryFourth(d.year));
    }
  }

  // The code's calendar is past its 29 February 2100 one second into the civil 2 March.
  lemma LateDates(t: U32, d: Date)
    requires Reports(t, d)
    ensures d.year <= 2110
    ensures 12 * d.year + d.month > 12 * 2100 + 2 <==> t > MARCH_2100 + DAY
  {
    hide MonthStart, DaysBefore;
    WithinYear(t, d);
    if d.year == 2100 {
      LeapYearsSoFar(2100);
      MonthTable(true);
      if d.month > 3 {
        MonthsGrow(2, d.month - 1, true);
      }
    }
  }

  // The weekday theorem, over every 32-bit time: Monday is 0, and the answer is right up to
  // the first second of 2 March 2100 and wrong ever after.
  lemma WeekdayIsRight(t: U32, d: Date)
    requires Reports(t, d)
    ensures Wd(d) == (t / DAY + 3) % 7 <==> t <= MARCH_2100 + DAY
  {
    hide JulianDay, DayNumber;
    LateDates(t, d);
    JulianDayCountsDays(d);
  }

  // ------------------------------------------------------------------ the date

  ghost predicate FirstOfMonth(n: int) {
    exists year, month :: year >= 1970 && 1 <= month <= 12 && DayNumber(Date(year, month, 1), Gregorian) == n
  }

  lemma {:induction false} LeapRulesAgree(year: int)
    requires 1970 <= year <= 2110
    ensures DaysBefore(year, Gregorian) == DaysBefore(year, EveryFourth) - if year > 2100 then 1 else 0
    decreases year
  {
    if year > 1970 {
      LeapRulesAgree(year - 1);
    }
  }

  // The day after the last of a month is the first of the next.
  lemma NextMonth(d: Date)
    requires d.year >= 1970 && 1 <= d.month <= 12 && d.day == MonthLengths(Gregorian(d.year))[d.month - 1] + 1
    ensures FirstOfMonth(DayNumber(d, Gregorian))
  {
    var next := if d.month < 12 then Date(d.year, d.month + 1, 1) else Date(d.year + 1, 1, 1);
    MonthTable(Gregorian(d.year));
    assert DayNumber(next, Gregorian) == DayNumber(d, Gregorian);
    assert next == Date(next.year, next.month, 1);
  }

  predicate Late(d: Date) {
    12 * d.year + d.month > 12 * 2100 + 2
  }

  lemma LeapRulesDiffer(year: int)
    requires 1970 <= year <= 2110
    ensures EveryFourth(year) != Gregorian(year) <==> year == 2100
  {
  }

  lemma GregorianNumber(d: Date)
    requires 1970 <= d.year <= 2110 && 1 <= d.month <= 12
    ensures DayNumber(d, Gregorian) == DayNumber(d, EveryFourth) - if Late(d) then 1 else 0
  {
    hide MonthStart, DaysBefore;
    LeapRulesAgree(d.year);
    LeapRulesDiffer(d.year);
    MonthTable(true);
    MonthTable(false);
  }

  // The code's 29 and 30 February 2100 are the days that are not before March 2100.
  lemma EarlyDates(t: U32, d: Date)
    requires Reports(t, d) && !Late(d)
    ensures t < MARCH_2100 <==> !(d.year == 2100 && d.month == 2 && d.day >= 29)
  {
    hide MonthStart, DaysBefore;
    if d.year == 2100 {
      LeapYearsSoFar(2100);
      MonthTable(true);
    } else {
      WithinYear(t, d);
    }
  }

  lemma FirstDaysAreMissed(t: U32, d: Date)
    requires Reports(t, d) && t > 0 && t % DAY == 0 && FirstOfMonth(t / DAY)
    ensures !(IsDate(d, Gregorian) && DayNumber(d, Gregorian) == t / DAY)
  {
    hide DayNumber;
    var year, month :| year >= 1970 && 1 <= month <= 12 && DayNumber(Date(year, month, 1), Gregorian) == t / DAY;
    if IsDate(d, Gregorian) && DayNumber(d, Gregorian) == t / DAY {
      OneDateForADay(d, Date(year, month, 1), Gregorian);
    }
  }

  lemma StartOfTime(d: Date)
    requires Reports(0, d)
    ensures d.day == 1
  {
    LeapYearsSoFar(d.year);
    if d.month > 1 {
      MonthsGrow(0, d.month - 1, EveryFourth(d.year));
    }
  }

  // The date theorem, over every 32-bit time: the reported date is the civil one exactly
  // before March 2100 and outside the first seconds of months.
  lemma DateIsRight(t: U32, d: Date)
    requires Reports(t, d)
    ensures IsDate(d, Gregorian) && DayNumber(d, Gregorian) == t / DAY
       <==> t < MARCH_2100 && (t == 0 || t % DAY != 0 || !FirstOfMonth(t / DAY))
  {
    hide DayNumber, FirstOfMonth;
    LateDates(t, d);
    GregorianNumber(d);
    LeapRulesDiffer(d.year);
    if !Late(d) {
      EarlyDates(t, d);
      if t > 0 && t % DAY == 0 && FirstOfMonth(t / DAY) {
        FirstDaysAreMissed(t, d);
      } else if d.day > MonthLengths(Gregorian(d.year))[d.month - 1] && t < MARCH_2100 {
        NextMonth(d);
      }
      if t == 0 {
        StartOfTime(d);
      }
    }
  }
}
