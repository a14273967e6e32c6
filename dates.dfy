/**
 * Proleptic Gregorian calendar dates: the part of chrono's `NaiveDate` that the
 * recurrence engine in src/utils/time.rs relies on (ordering, day-of-week,
 * day-of-month, adding whole days, adding and subtracting calendar months).
 *
 * A date is a (year, month, day) triple. `DayNumber` counts days from
 * 0001-01-01, which is a Monday, so `DayNumber(d) % 7` is chrono's
 * `weekday().num_days_from_monday()`. Adding days is defined by stepping one
 * day at a time; `AddDaysNumber` proves it agrees with day-number arithmetic.
 * Month arithmetic clamps to the last day of the target month, as chrono's
 * `checked_add_months` / `checked_sub_months` do.
 */
module Dates {

  datatype Ymd = Ymd(year: int, month: int, day: int)

  predicate IsLeapYear(y: int) {
    y % 4 == 0 && (y % 100 != 0 || y % 400 == 0)
  }

  function DaysInMonth(y: int, m: int): (n: int)
    requires 1 <= m <= 12
    ensures 28 <= n <= 31
    ensures m == 2 ==> (n == 29 <==> IsLeapYear(y))
  {
    if m == 2 then (if IsLeapYear(y) then 29 else 28)
    else if m == 4 || m == 6 || m == 9 || m == 11 then 30
    else 31
  }

  predicate IsValid(d: Ymd) {
    1 <= d.month <= 12 && 1 <= d.day <= DaysInMonth(d.year, d.month)
  }

  /** A calendar date that exists (chrono's `NaiveDate`, without its year bounds). */
  type Date = d: Ymd | IsValid(d) witness Ymd(2018, 1, 1)

  function YearLength(y: int): int {
    if IsLeapYear(y) then 366 else 365
  }

  /** Days from 0001-01-01 to January 1st of year `y` (negative before year 1). */
  function DaysBeforeYear(y: int): int {
    var p := y - 1;
    365 * p + p / 4 - p / 100 + p / 400
  }

  /** Days from January 1st to the first day of month `m` of year `y`. */
  function DaysBeforeMonth(y: int, m: int): int
    requires 1 <= m <= 12
  {
    var leap := if IsLeapYear(y) then 1 else 0;
    if m == 1 then 0
    else if m == 2 then 31
    else if m == 3 then 59 + leap
    else if m == 4 then 90 + leap
    else if m == 5 then 120 + leap
    else if m == 6 then 151 + leap
    else if m == 7 then 181 + leap
    else if m == 8 then 212 + leap
    else if m == 9 then 243 + leap
    else if m == 10 then 273 + leap
    else if m == 11 then 304 + leap
    else 334 + leap
  }

  /** Days elapsed since 0001-01-01 (day 0). */
  function DayNumber(d: Date): int {
    DaysBeforeYear(d.year) + DaysBeforeMonth(d.year, d.month) + d.day - 1
  }

  /** chrono's `weekday().num_days_from_monday()`: Monday is 0, Sunday is 6. */
  function Weekday(d: Date): (w: int)
    ensures 0 <= w < 7
  {
    DayNumber(d) % 7
  }

  /** Calendar order, chrono's `<` on `NaiveDate`. */
  predicate Before(a: Date, b: Date) {
    a.year < b.year || (a.year == b.year && (a.month < b.month || (a.month == b.month && a.day < b.day)))
  }

  function Min(a: int, b: int): int {
    if a <= b then a else b
  }

  function NextDay(d: Date): Date {
    if d.day < DaysInMonth(d.year, d.month) then Ymd(d.year, d.month, d.day + 1)
    else if d.month < 12 then Ymd(d.year, d.month + 1, 1)
    else Ymd(d.year + 1, 1, 1)
  }

  function PrevDay(d: Date): Date {
    if d.day > 1 then Ymd(d.year, d.month, d.day - 1)
    else if d.month > 1 then Ymd(d.year, d.month - 1, DaysInMonth(d.year, d.month - 1))
    else Ymd(d.year - 1, 12, 31)
  }

  /** `d + Duration::days(n)`, for any sign of `n`. */
  function AddDays(d: Date, n: int): Date
    decreases if n < 0 then -n else n
  {
    if n == 0 then d
    else if n > 0 then AddDays(NextDay(d), n - 1)
    else AddDays(PrevDay(d), n + 1)
  }

  /** Months elapsed since January of year 0. */
  function MonthIndex(d: Date): int {
    d.year * 12 + d.month - 1
  }

  /** The date on day `day` of the month with index `t`, or on that month's last day when `day` does not exist there. */
  function DayInMonthIndex(t: int, day: int): (r: Date)
    requires day >= 1
    ensures MonthIndex(r) == t
    ensures r.day == day || (r.day < day && r.day == DaysInMonth(r.year, r.month))
  {
    var y, m := t / 12, t % 12 + 1;
    Ymd(y, m, Min(day, DaysInMonth(y, m)))
  }

  /** `d.checked_add_months(Months::new(k))`: same day `k` months later, clamped to the month's last day. */
  function AddMonths(d: Date, k: nat): (r: Date)
    ensures MonthIndex(r) == MonthIndex(d) + k
    ensures r.day == d.day || (r.day < d.day && r.day == DaysInMonth(r.year, r.month))
  {
    DayInMonthIndex(MonthIndex(d) + k, d.day)
  }

  /** `d.checked_sub_months(Months::new(k))`: same day `k` months earlier, clamped to the month's last day. */
  function SubMonths(d: Date, k: nat): (r: Date)
    ensures MonthIndex(r) == MonthIndex(d) - k
    ensures r.day == d.day || (r.day < d.day && r.day == DaysInMonth(r.year, r.month))
  {
    DayInMonthIndex(MonthIndex(d) - k, d.day)
  }

  // ---------------------------------------------------------------------------
  // Day numbers
  // ---------------------------------------------------------------------------

  /** Floor division by 4 (and below, by 100 and 400) grows by one exactly at a multiple of the divisor. */
  lemma FloorDivStep4(y: int)
    ensures y / 4 - (y - 1) / 4 == if y % 4 == 0 then 1 else 0
  {
    assert y - 1 == 4 * ((y - 1) / 4) + (y - 1) % 4;
    assert y == 4 * (y / 4) + y % 4;
  }

  lemma FloorDivStep100(y: int)
    ensures y / 100 - (y - 1) / 100 == if y % 100 == 0 then 1 else 0
  {
    assert y - 1 == 100 * ((y - 1) / 100) + (y - 1) % 100;
    assert y == 100 * (y / 100) + y % 100;
  }

  lemma FloorDivStep400(y: int)
    ensures y / 400 - (y - 1) / 400 == if y % 400 == 0 then 1 else 0
  {
    assert y - 1 == 400 * ((y - 1) / 400) + (y - 1) % 400;
    assert y == 400 * (y / 400) + y % 400;
  }

  /** A multiple of 100 (and below, of 4) leaves no remainder. */
  lemma MultipleOf100(q: int)
    ensures (100 * q) % 100 == 0
  {
  }

  lemma MultipleOf4(q: int)
    ensures (4 * q) % 4 == 0
  {
  }

  lemma CenturyDivisibility(y: int)
    ensures y % 400 == 0 ==> y % 100 == 0
    ensures y % 100 == 0 ==> y % 4 == 0
  {
    if y % 400 == 0 {
      var q := y / 400;
      assert y == 100 * (4 * q);
      MultipleOf100(4 * q);
    }
    if y % 100 == 0 {
      var q := y / 100;
      assert y == 4 * (25 * q);
      MultipleOf4(25 * q);
    }
  }

  lemma DaysBeforeYearStep(y: int)
    ensures DaysBeforeYear(y + 1) == DaysBeforeYear(y) + YearLength(y)
  {
    FloorDivStep4(y);
    FloorDivStep100(y);
    FloorDivStep400(y);
    CenturyDivisibility(y);
  }

  lemma {:induction false} DaysBeforeYearGrows(a: int, b: int)
    requires a < b
    ensures DaysBeforeYear(a) + YearLength(a) <= DaysBeforeYear(b)
    decreases b - a
  {
    DaysBeforeYearStep(a);
    if a + 1 < b {
      DaysBeforeYearGrows(a + 1, b);
    }
  }

  lemma DaysBeforeMonthGrows(y: int, m1: int, m2: int)
    requires 1 <= m1 < m2 <= 12
    ensures DaysBeforeMonth(y, m1) + DaysInMonth(y, m1) <= DaysBeforeMonth(y, m2)
  {
  }

  lemma DaysBeforeMonthStep(y: int, m: int)
    requires 1 <= m < 12
    ensures DaysBeforeMonth(y, m + 1) == DaysBeforeMonth(y, m) + DaysInMonth(y, m)
  {
  }

  lemma DecemberEndsYear(y: int)
    ensures DaysBeforeMonth(y, 12) + DaysInMonth(y, 12) == YearLength(y)
  {
  }

  /** A later date has a larger day number. */
  lemma BeforeHasSmallerDayNumber(a: Date, b: Date)
    requires Before(a, b)
    ensures DayNumber(a) < DayNumber(b)
  {
    if a.year < b.year {
      DaysBeforeYearGrows(a.year, b.year);
      if a.month < 12 {
        DaysBeforeMonthGrows(a.year, a.month, 12);
      }
      DecemberEndsYear(a.year);
    } else if a.month < b.month {
      DaysBeforeMonthGrows(a.year, a.month, b.month);
    }
  }

  /** Calendar order and day-number order agree. */
  lemma DayNumberOrder(a: Date, b: Date)
    ensures Before(a, b) <==> DayNumber(a) < DayNumber(b)
  {
    if Before(a, b) {
      BeforeHasSmallerDayNumber(a, b);
    } else if Before(b, a) {
      BeforeHasSmallerDayNumber(b, a);
    } else {
      assert a == b;
    }
  }

  /** Different dates have different day numbers. */
  lemma DayNumberInjective(a: Date, b: Date)
    requires DayNumber(a) == DayNumber(b)
    ensures a == b
  {
    DayNumberOrder(a, b);
    DayNumberOrder(b, a);
  }

  lemma NextDayNumber(d: Date)
    ensures DayNumber(NextDay(d)) == DayNumber(d) + 1
  {
    if d.day == DaysInMonth(d.year, d.month) {
      if d.month < 12 {
        DaysBeforeMonthStep(d.year, d.month);
      } else {
        DaysBeforeYearStep(d.year);
        DecemberEndsYear(d.year);
      }
    }
  }

  lemma PrevDayNumber(d: Date)
    ensures DayNumber(PrevDay(d)) == DayNumber(d) - 1
  {
    if d.day == 1 {
      if d.month > 1 {
        DaysBeforeMonthStep(d.year, d.month - 1);
      } else {
        DaysBeforeYearStep(d.year - 1);
        DecemberEndsYear(d.year - 1);
      }
    }
  }

  /** Adding `n` days moves the day number by exactly `n`. */
  lemma {:induction false} AddDaysNumber(d: Date, n: int)
    ensures DayNumber(AddDays(d, n)) == DayNumber(d) + n
    decreases if n < 0 then -n else n
  {
    if n > 0 {
      NextDayNumber(d);
      AddDaysNumber(NextDay(d), n - 1);
    } else if n < 0 {
      PrevDayNumber(d);
      AddDaysNumber(PrevDay(d), n + 1);
    }
  }

  /** Adding days composes additively. */
  lemma AddDaysCompose(d: Date, a: int, b: int)
    ensures AddDays(AddDays(d, a), b) == AddDays(d, a + b)
  {
    AddDaysNumber(d, a);
    AddDaysNumber(AddDays(d, a), b);
    AddDaysNumber(d, a + b);
    DayNumberInjective(AddDays(AddDays(d, a), b), AddDays(d, a + b));
  }

  /** Adding days that stay inside the month only changes the day of month. */
  lemma AddDaysInMonth(d: Date, n: int)
    requires 1 <= d.day + n <= DaysInMonth(d.year, d.month)
    ensures AddDays(d, n) == Ymd(d.year, d.month, d.day + n)
  {
    var target: Date := Ymd(d.year, d.month, d.day + n);
    AddDaysNumber(d, n);
    DayNumberInjective(AddDays(d, n), target);
  }

  /** `AddDays(d, n)` is later than `d` exactly when `n` is positive. */
  lemma AddDaysOrder(d: Date, n: int)
    ensures Before(d, AddDays(d, n)) <==> n > 0
    ensures Before(AddDays(d, n), d) <==> n < 0
  {
    AddDaysNumber(d, n);
    DayNumberOrder(d, AddDays(d, n));
    DayNumberOrder(AddDays(d, n), d);
  }

  lemma ModShift(x: int, n: int)
    ensures (x + n) % 7 == (x % 7 + n) % 7
  {
    assert x == 7 * (x / 7) + x % 7;
  }

  /** Adding `n` days advances the weekday by `n` modulo 7. */
  lemma WeekdayAddDays(d: Date, n: int)
    ensures Weekday(AddDays(d, n)) == (Weekday(d) + n) % 7
  {
    AddDaysNumber(d, n);
    ModShift(DayNumber(d), n);
  }

  lemma WeekMod(w: int, k: int)
    requires 0 <= w < 7
    ensures (w + 7 * k) % 7 == w
  {
  }

  /** Adding whole weeks keeps the weekday. */
  lemma WeekdayAddWeeks(d: Date, k: int)
    ensures Weekday(AddDays(d, 7 * k)) == Weekday(d)
  {
    WeekdayAddDays(d, 7 * k);
    WeekMod(Weekday(d), k);
  }

  /** A date in a later month is a later date. */
  lemma LaterMonthIsLater(a: Date, b: Date)
    requires MonthIndex(a) < MonthIndex(b)
    ensures Before(a, b)
  {
  }

  /** Adding at least one month gives a strictly later date. */
  lemma AddMonthsIsLater(d: Date, k: nat)
    requires k >= 1
    ensures Before(d, AddMonths(d, k))
  {
    LaterMonthIsLater(d, AddMonths(d, k));
  }
}
