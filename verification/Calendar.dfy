/** Date literals: calendar dates as milliseconds since 1970-01-01
    (`st-compiler/src/compile.rs:1724-1736`). */
module Calendar {

  datatype Date = Date(year: int, month: int, day: int)

  const MS_PER_DAY := 86_400_000

  /** Integer division that drops the fraction, as the compiler's language does it. */
  function Div(a: int, b: int): int
    requires b > 0
  {
    if a >= 0 then a / b else -((-a) / b)
  }

  function ShiftedYear(d: Date): int { if d.month <= 2 then d.year - 1 else d.year }
  function ShiftedMonth(d: Date): int { if d.month <= 2 then d.month + 9 else d.month - 3 }

  function EpochMs(d: Date): int {
    var y, m := ShiftedYear(d), ShiftedMonth(d);
    var days := 365 * y + Div(y, 4) - Div(y, 100) + Div(y, 400) + Div(m * 306 + 5, 10) + (d.day - 1) - 719468;
    days * MS_PER_DAY
  }

  // ---------------------------------------------------------------- the calendar itself

  predicate Leap(y: int) { y % 4 == 0 && (y % 100 != 0 || y % 400 == 0) }

  function DaysInMonth(y: int, m: int): int {
    if m == 2 then if Leap(y) then 29 else 28
    else if m == 4 || m == 6 || m == 9 || m == 11 then 30 else 31
  }

  predicate Valid(d: Date) { 1 <= d.month <= 12 && 1 <= d.day <= DaysInMonth(d.year, d.month) }

  function YearLength(y: int): int { if Leap(y) then 366 else 365 }

  /** Days from 1 January of year 1 to 1 January of year y. */
  function DaysBeforeYear(y: int): int
    decreases if y >= 1 then y - 1 else 1 - y
  {
    if y == 1 then 0
    else if y > 1 then DaysBeforeYear(y - 1) + YearLength(y - 1)
    else DaysBeforeYear(y + 1) - YearLength(y)
  }

  function DaysBeforeMonth(y: int, m: int): int
    requires 1 <= m <= 12
    decreases m
  {
    if m == 1 then 0 else DaysBeforeMonth(y, m - 1) + DaysInMonth(y, m - 1)
  }

  function DayNumber(d: Date): int
    requires Valid(d)
  {
    DaysBeforeYear(d.year) + DaysBeforeMonth(d.year, d.month) + d.day - 1
  }

  function EpochDay(): int { DayNumber(Date(1970, 1, 1)) }

  function NextDay(d: Date): (n: Date)
    requires Valid(d)
    ensures Valid(n)
  {
    if d.day < DaysInMonth(d.year, d.month) then d.(day := d.day + 1)
    else if d.month < 12 then Date(d.year, d.month + 1, 1)
    else Date(d.year + 1, 1, 1)
  }

  // ---------------------------------------------------------------- agreement

  /** Leap days up to year y, rounding towards minus infinity. */
  function Leaps(y: int): int { y / 4 - y / 100 + y / 400 }

  lemma LeapStep(y: int)
    ensures Leaps(y) - Leaps(y - 1) == if Leap(y) then 1 else 0
  {
    DivStep(y, 4);
    DivStep(y, 100);
    DivStep(y, 400);
  }

  lemma DivStep(y: int, n: int)
    requires n == 4 || n == 100 || n == 400
    ensures y / n - (y - 1) / n == if y % n == 0 then 1 else 0
  {
  }

  lemma {:induction false} YearFormula(y: int)
    ensures DaysBeforeYear(y) == 365 * (y - 1) + Leaps(y - 1)
    decreases if y >= 1 then y - 1 else 1 - y
  {
    if y > 1 {
      YearFormula(y - 1);
      LeapStep(y - 1);
    } else if y < 1 {
      YearFormula(y + 1);
      LeapStep(y);
    }
  }

  lemma MonthFormula(y: int, m: int)
    requires 1 <= m <= 12
    ensures DaysBeforeMonth(y, m) ==
      if m <= 2 then 31 * (m - 1) else ((m - 3) * 306 + 5) / 10 + (if Leap(y) then 60 else 59)
  {
    assert DaysBeforeMonth(y, 1) == 0;
    assert DaysBeforeMonth(y, 2) == 31;
    var l := if Leap(y) then 1 else 0;
    assert DaysBeforeMonth(y, 3) == 59 + l;
    assert DaysBeforeMonth(y, 4) == 90 + l;
    assert DaysBeforeMonth(y, 5) == 120 + l;
    assert DaysBeforeMonth(y, 6) == 151 + l;
    assert DaysBeforeMonth(y, 7) == 181 + l;
    assert DaysBeforeMonth(y, 8) == 212 + l;
    assert DaysBeforeMonth(y, 9) == 243 + l;
    assert DaysBeforeMonth(y, 10) == 273 + l;
    assert DaysBeforeMonth(y, 11) == 304 + l;
    assert DaysBeforeMonth(y, 12) == 334 + l;
  }

  /** The formula with rounding towards minus infinity counts the days of every date. */
  lemma FloorFormula(d: Date)
    requires Valid(d)
    ensures DayNumber(d) - EpochDay() ==
      365 * ShiftedYear(d) + Leaps(ShiftedYear(d)) + (ShiftedMonth(d) * 306 + 5) / 10 + (d.day - 1) - 719468
  {
    YearFormula(d.year);
    YearFormula(1970);
    MonthFormula(d.year, d.month);
    LeapStep(d.year);
    assert EpochDay() == 719162;
  }

  /** Dropping fractions instead loses a leap day exactly for negative non-leap years. */
  lemma RoundingDiffers(y: int)
    ensures Div(y, 4) - Div(y, 100) + Div(y, 400) == Leaps(y) + (if y < 0 && !Leap(y) then 1 else 0)
  {
    if y < 0 {
      NegativeDiv(y, 4);
      NegativeDiv(y, 100);
      NegativeDiv(y, 400);
    }
  }

  lemma NegativeDiv(y: int, n: int)
    requires y < 0 && (n == 4 || n == 100 || n == 400)
    ensures Div(y, n) == y / n + (if y % n == 0 then 0 else 1)
  {
  }

  /** A date literal's value is the true day count exactly when its year, counted from March,
      is not negative or is a leap year; in particular for every date from year 1 on. */
  lemma EpochMsIsDayCount(d: Date)
    requires Valid(d)
    ensures EpochMs(d) == (DayNumber(d) - EpochDay()) * MS_PER_DAY <==> ShiftedYear(d) >= 0 || Leap(ShiftedYear(d))
    ensures d.year >= 1 ==> EpochMs(d) == (DayNumber(d) - EpochDay()) * MS_PER_DAY
  {
    FloorFormula(d);
    RoundingDiffers(ShiftedYear(d));
  }

  /** The first of January of year 0 comes out one day late. */
  lemma YearZeroIsLate()
    ensures EpochMs(Date(0, 1, 1)) == (DayNumber(Date(0, 1, 1)) - EpochDay() + 1) * MS_PER_DAY
  {
    FloorFormula(Date(0, 1, 1));
    RoundingDiffers(-1);
  }

  lemma NextDayNumber(d: Date)
    requires Valid(d)
    ensures DayNumber(NextDay(d)) == DayNumber(d) + 1
  {
    YearFormula(d.year);
    YearFormula(d.year + 1);
    LeapStep(d.year);
    if d.day == DaysInMonth(d.year, d.month) && d.month == 12 { MonthFormula(d.year, 12); }
  }

  /** Stepping to the next calendar day adds exactly one day. */
  lemma NextDayAddsOneDay(d: Date)
    requires Valid(d) && d.year >= 1
    ensures EpochMs(NextDay(d)) == EpochMs(d) + MS_PER_DAY
  {
    EpochMsIsDayCount(d);
    EpochMsIsDayCount(NextDay(d));
    NextDayNumber(d);
  }

  predicate Before(a: Date, b: Date) {
    a.year < b.year || (a.year == b.year && (a.month < b.month || (a.month == b.month && a.day < b.day)))
  }

  lemma {:induction false} MonthsGrow(y: int, m: int, n: int)
    requires 1 <= m < n <= 12
    ensures DaysBeforeMonth(y, m) + DaysInMonth(y, m) <= DaysBeforeMonth(y, n)
    decreases n
  {
    if m < n - 1 { MonthsGrow(y, m, n - 1); }
  }

  lemma {:induction false} YearsGrow(y: int, z: int)
    requires 1 <= y < z
    ensures DaysBeforeYear(y) + YearLength(y) <= DaysBeforeYear(z)
    decreases z
  {
    if y < z - 1 { YearsGrow(y, z - 1); }
  }

  lemma DayInYear(d: Date)
    requires Valid(d)
    ensures 0 <= DaysBeforeMonth(d.year, d.month) + d.day - 1 < YearLength(d.year)
  {
    MonthFormula(d.year, d.month);
  }

  /** Later dates have larger values. */
  lemma EpochMsIncreases(a: Date, b: Date)
    requires Valid(a) && Valid(b) && a.year >= 1 && Before(a, b)
    ensures EpochMs(a) < EpochMs(b)
  {
    EpochMsIsDayCount(a);
    EpochMsIsDayCount(b);
    DayInYear(a);
    DayInYear(b);
    if a.year < b.year {
      YearsGrow(a.year, b.year);
    } else if a.month < b.month {
      MonthsGrow(a.year, a.month, b.month);
    }
  }
}
