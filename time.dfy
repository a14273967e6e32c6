/**
 * The recurrence date engine of src/utils/time.rs: clamping "today" to the
 * reference date, aligning it to the recurrence phase of each frequency kind,
 * the step function of each kind, and the `DateRange` iterator.
 *
 * "Today" (`Utc::now` in the source) and the reference date are parameters;
 * the reference date defaults to the source's constant 2018-01-01.
 */
module Time {
  import opened Wrappers
  import opened Dates

  /** `HabFreqTypeEnum`. */
  datatype FrequencyKind = Daily | Daily2 | Weekly | Weekly2 | Monthly | Monthly2

  /** `REFERENCE_DATE`, a Monday. */
  const ReferenceDate: Date := Ymd(2018, 1, 1)

  /** The reference date is a Monday (`num_days_from_monday` is 0). */
  lemma ReferenceDateIsMonday()
    ensures Weekday(ReferenceDate) == 0
  {
    assert DaysBeforeYear(2018) == 736694;
  }

  /** Rust's `/` on `i64` (and `Duration::num_weeks` for `b == 7`): rounds toward zero. */
  function TruncDiv(a: int, b: int): (q: int)
    requires b > 0
    ensures a >= 0 ==> b * q <= a < b * (q + 1)
    ensures a < 0 ==> b * (q - 1) < a <= b * q
  {
    if a >= 0 then a / b else -((-a) / b)
  }

  /** Rust's `%` on `i64`: the remainder takes the sign of the dividend. */
  function TruncRem(a: int, b: int): (r: int)
    requires b > 0
    ensures a == b * TruncDiv(a, b) + r
    ensures a >= 0 ==> 0 <= r < b
    ensures a <= 0 ==> -b < r <= 0
  {
    if a >= 0 then a % b else -((-a) % b)
  }

  /** The start date after `if start_date < frequency_data { start_date = frequency_data }`. */
  function Clamp(today: Date, reference: Date): (start: Date)
    ensures !Before(start, reference) && !Before(start, today)
    ensures start == today || start == reference
  {
    if Before(today, reference) then reference else today
  }

  /** `frequency_data - start_date`, in days. */
  function Difference(start: Date, reference: Date): int {
    DayNumber(reference) - DayNumber(start)
  }

  /**
   * The `u32` subtractions of the alignment do not underflow:
   * `reference_day_of_week - start_day_of_week` for the weekly kinds and
   * `reference_month - start_month` for `monthly2`.
   */
  predicate AlignDefined(kind: FrequencyKind, start: Date, reference: Date) {
    match kind
    case Weekly => Weekday(start) <= Weekday(reference)
    case Weekly2 => Weekday(start) <= Weekday(reference)
    case Monthly2 => start.month <= reference.month
    case _ => true
  }

  /**
   * The `match frequency_type` of `DateRange::new` that computes `new_start_date`.
   * `daily` lands on the reference date itself; the weekly kinds land on its weekday.
   */
  function Align(kind: FrequencyKind, start: Date, reference: Date): (r: Date)
    requires AlignDefined(kind, start, reference)
    ensures kind == Daily ==> r == reference
    ensures kind == Weekly || kind == Weekly2 ==> Weekday(r) == Weekday(reference)
  {
    var difference := Difference(start, reference);
    match kind
    case Daily =>
      AddDaysNumber(start, difference);
      DayNumberInjective(AddDays(start, difference), reference);
      AddDays(start, difference)
    case Daily2 =>
      AddDays(start, difference + TruncRem(difference, 2))
    case Weekly =>
      var offset := (Weekday(reference) - Weekday(start)) % 7;
      WeekdayToReference(start, reference);
      AddDays(start, offset)
    case Weekly2 =>
      var fullWeeksParity := TruncRem(TruncDiv(difference, 7), 2);
      var offset := (Weekday(reference) - Weekday(start)) % 7;
      WeekdayToReference(start, reference);
      WeekdayAddWeeks(AddDays(start, offset), fullWeeksParity);
      AddDays(AddDays(start, offset), 7 * fullWeeksParity)
    case Monthly =>
      if start.day < reference.day then AddDays(start, reference.day - start.day)
      else AddDays(AddMonths(start, 1), -(start.day - reference.day))
    case Monthly2 =>
      var monthParity := (reference.month - start.month) % 2;
      if start.day < reference.day then AddDays(SubMonths(start, monthParity), reference.day - start.day)
      else AddDays(SubMonths(start, monthParity), -(start.day - reference.day))
  }

  /** Moving forward by `(reference weekday - start weekday) % 7` days reaches the reference weekday. */
  lemma WeekdayToReference(start: Date, reference: Date)
    requires Weekday(start) <= Weekday(reference)
    ensures var offset := (Weekday(reference) - Weekday(start)) % 7;
      offset == Weekday(reference) - Weekday(start)
      && Weekday(AddDays(start, offset)) == Weekday(reference)
      && DayNumber(AddDays(start, offset)) == DayNumber(start) + offset
  {
    var offset := Weekday(reference) - Weekday(start);
    assert offset % 7 == offset;
    AddDaysNumber(start, offset);
    WeekdayAddDays(start, offset);
  }

  /** The `start_date` a `DateRange` built on `today` begins at: clamp, then align. */
  function FirstOccurrence(kind: FrequencyKind, today: Date, reference: Date): Date
    requires AlignDefined(kind, Clamp(today, reference), reference)
  {
    Align(kind, Clamp(today, reference), reference)
  }

  /** The number of days a day-based kind steps by. */
  function StepDays(kind: FrequencyKind): nat
    requires kind in {Daily, Daily2, Weekly, Weekly2}
  {
    match kind
    case Daily => 1
    case Daily2 => 2
    case Weekly => 7
    case Weekly2 => 14
  }

  /** `get_next_date`: the next occurrence after `d`; always strictly later. */
  function Step(kind: FrequencyKind, d: Date): (next: Date)
    ensures Before(d, next)
  {
    match kind
    case Monthly =>
      AddMonthsIsLater(d, 1);
      AddMonths(d, 1)
    case Monthly2 =>
      AddMonthsIsLater(d, 2);
      AddMonths(d, 2)
    case _ =>
      AddDaysOrder(d, StepDays(kind));
      AddDays(d, StepDays(kind))
  }

  /** The dates a `DateRange` positioned at `from` still yields before it passes `end`. */
  function Occurrences(kind: FrequencyKind, from: Date, end: Date): seq<Date>
    decreases DayNumber(end) - DayNumber(from)
  {
    if Before(end, from) then []
    else
      var next := Step(kind, from);
      DayNumberOrder(from, next);
      DayNumberOrder(end, from);
      [from] + Occurrences(kind, next, end)
  }

  /** `DateRange` together with its `Iterator` implementation. */
  class DateRange {
    var start: Date
    var end: Date
    var kind: FrequencyKind
    var reference: Date
    /** The aligned start the range was built with. */
    ghost var first: Date
    /** The dates yielded so far. */
    ghost var yielded: seq<Date>

    /** What has been yielded, followed by what is left, is the whole sequence from the aligned start. */
    ghost predicate Valid()
      reads this
    {
      yielded + Occurrences(kind, start, end) == Occurrences(kind, first, end)
    }

    /** The number of dates still to come: the iterator's termination measure. */
    ghost function Remaining(): nat
      reads this
    {
      |Occurrences(kind, start, end)|
    }

    /** `DateRange::new`, with today and the reference date passed in. */
    constructor (today: Date, end: Date, kind: FrequencyKind, reference: Date := ReferenceDate)
      requires AlignDefined(kind, Clamp(today, reference), reference)
      ensures start == FirstOccurrence(kind, today, reference)
      ensures this.end == end && this.kind == kind && this.reference == reference
      ensures first == start && yielded == [] && Valid()
    {
      this.start := FirstOccurrence(kind, today, reference);
      this.end := end;
      this.kind := kind;
      this.reference := reference;
      first := FirstOccurrence(kind, today, reference);
      yielded := [];
    }

    /** `Iterator::next`. */
    method Next() returns (r: Option<Date>)
      requires Valid()
      modifies this`start, this`yielded
      ensures Valid()
      ensures r.None? <==> Before(end, old(start))
      ensures r.None? ==> start == old(start) && yielded == old(yielded)
      ensures r.Some? ==> r.value == old(start) && start == Step(kind, old(start))
      ensures r.Some? ==> yielded == old(yielded) + [r.value] && Remaining() < old(Remaining())
    {
      if Before(end, start) {
        return None;
      }
      var next := Step(kind, start);
      r := Some(start);
      yielded := yielded + [start];
      start := next;
    }
  }

  // ---------------------------------------------------------------------------
  // The occurrence sequence
  // ---------------------------------------------------------------------------

  /** Every occurrence lies between the position and the end, and each one is the step of the previous. */
  lemma {:induction false} OccurrencesShape(kind: FrequencyKind, from: Date, end: Date)
    ensures var occ := Occurrences(kind, from, end);
      && (|occ| > 0 <==> !Before(end, from))
      && (|occ| > 0 ==> occ[0] == from)
      && (forall i :: 0 <= i < |occ| ==> !Before(occ[i], from) && !Before(end, occ[i]))
      && (forall i :: 0 <= i < |occ| - 1 ==> occ[i + 1] == Step(kind, occ[i]))
    decreases DayNumber(end) - DayNumber(from)
  {
    if !Before(end, from) {
      var next := Step(kind, from);
      DayNumberOrder(from, next);
      DayNumberOrder(end, from);
      OccurrencesShape(kind, next, end);
      var rest := Occurrences(kind, next, end);
      forall i | 0 <= i < |rest|
        ensures !Before(rest[i], from)
      {
        DayNumberOrder(rest[i], next);
        DayNumberOrder(rest[i], from);
      }
    }
  }

  /** The occurrences are strictly increasing. */
  lemma {:induction false} OccurrencesIncreasing(kind: FrequencyKind, from: Date, end: Date)
    ensures var occ := Occurrences(kind, from, end);
      forall i, j :: 0 <= i < j < |occ| ==> Before(occ[i], occ[j])
    decreases DayNumber(end) - DayNumber(from)
  {
    if !Before(end, from) {
      var next := Step(kind, from);
      DayNumberOrder(from, next);
      DayNumberOrder(end, from);
      OccurrencesIncreasing(kind, next, end);
      OccurrencesShape(kind, next, end);
      var occ := Occurrences(kind, from, end);
      forall i, j | 0 <= i < j < |occ|
        ensures Before(occ[i], occ[j])
      {
        if i == 0 {
          DayNumberOrder(from, next);
          DayNumberOrder(next, occ[j]);
          DayNumberOrder(from, occ[j]);
        }
      }
    }
  }

  /** A range whose end is its aligned start yields exactly that date. */
  lemma EndAtStartYieldsOne(kind: FrequencyKind, start: Date)
    ensures Occurrences(kind, start, start) == [start]
  {
    var next := Step(kind, start);
    OccurrencesShape(kind, next, start);
    DayNumberOrder(start, next);
    DayNumberOrder(next, start);
  }

  /** A range whose end is the day before its aligned start yields nothing. */
  lemma EndBeforeStartYieldsNone(kind: FrequencyKind, start: Date)
    ensures Occurrences(kind, start, AddDays(start, -1)) == []
  {
    AddDaysOrder(start, -1);
  }

  /** Whatever a valid range has yielded is strictly increasing and lies between its aligned start and its end. */
  lemma YieldsIncreasingAndBounded(range: DateRange)
    requires range.Valid()
    ensures forall i, j :: 0 <= i < j < |range.yielded| ==> Before(range.yielded[i], range.yielded[j])
    ensures forall i :: 0 <= i < |range.yielded| ==>
      !Before(range.yielded[i], range.first) && !Before(range.end, range.yielded[i])
  {
    var all := Occurrences(range.kind, range.first, range.end);
    OccurrencesIncreasing(range.kind, range.first, range.end);
    OccurrencesShape(range.kind, range.first, range.end);
    assert forall i :: 0 <= i < |range.yielded| ==> range.yielded[i] == all[i];
  }

  // ---------------------------------------------------------------------------
  // Alignment, kind by kind
  // ---------------------------------------------------------------------------

  /** After the clamp the day difference `reference - start` is never positive. */
  lemma ClampedDifferenceNonPositive(today: Date, reference: Date)
    ensures Difference(Clamp(today, reference), reference) <= 0
    ensures Before(today, reference) ==> Clamp(today, reference) == reference
  {
    DayNumberOrder(Clamp(today, reference), reference);
  }

  /**
   * `daily2` lands on the reference date when the clamped start is an even number of
   * days after it, and on the day before the reference date when it is an odd number.
   */
  lemma Daily2AlignsToReferenceOrDayBefore(start: Date, reference: Date)
    requires !Before(start, reference)
    ensures (DayNumber(start) - DayNumber(reference)) % 2 == 0 ==> Align(Daily2, start, reference) == reference
    ensures (DayNumber(start) - DayNumber(reference)) % 2 == 1 ==> Align(Daily2, start, reference) == AddDays(reference, -1)
  {
    DayNumberOrder(start, reference);
    var difference := Difference(start, reference);
    var parity := TruncRem(difference, 2);
    var result := Align(Daily2, start, reference);
    assert result == AddDays(start, difference + parity);
    NonPositiveParity(difference);
    AddDaysNumber(start, difference + parity);
    AddDaysNumber(reference, -1);
    if parity == 0 {
      DayNumberInjective(result, reference);
    } else {
      DayNumberInjective(result, AddDays(reference, -1));
    }
  }

  /** Rust's `x % 2` for `x <= 0` is 0 or -1. */
  lemma NonPositiveParity(x: int)
    requires x <= 0
    ensures TruncRem(x, 2) == -((-x) % 2)
  {
  }

  /** `weekly` moves forward (to the reference weekday), by less than a week. */
  lemma WeeklyAlignsToReferenceWeekday(start: Date, reference: Date)
    requires AlignDefined(Weekly, start, reference)
    ensures !Before(Align(Weekly, start, reference), start)
    ensures DayNumber(Align(Weekly, start, reference)) - DayNumber(start) < 7
  {
    WeekdayToReference(start, reference);
    DayNumberOrder(Align(Weekly, start, reference), start);
  }

  /**
   * `weekly2` is the `weekly` result shifted by `(whole weeks of reference - start) % 2`
   * weeks, which after the clamp is 0 or -1: it moves one week back, not forward, when the
   * truncated number of whole weeks is odd.
   */
  lemma Weekly2ShiftsBackOnOddWeeks(start: Date, reference: Date)
    requires !Before(start, reference) && AlignDefined(Weekly2, start, reference)
    ensures var weeks := TruncDiv(Difference(start, reference), 7);
      && (weeks % 2 == 0 ==> Align(Weekly2, start, reference) == Align(Weekly, start, reference))
      && (weeks % 2 != 0 ==> Align(Weekly2, start, reference) == AddDays(Align(Weekly, start, reference), -7))
  {
    DayNumberOrder(start, reference);
    var difference := Difference(start, reference);
    assert difference <= 0;
    var weeks := TruncDiv(difference, 7);
    WeeksNonPositive(difference);
    var parity := TruncRem(weeks, 2);
    NonPositiveParity(weeks);
    var weekly := Align(Weekly, start, reference);
    assert Align(Weekly2, start, reference) == AddDays(weekly, 7 * parity);
    assert weeks % 2 == 0 ==> parity == 0;
    assert weeks % 2 != 0 ==> parity == -1;
  }

  /** `num_weeks` of a non-positive duration is non-positive. */
  lemma WeeksNonPositive(x: int)
    requires x <= 0
    ensures TruncDiv(x, 7) <= 0
  {
  }

  /** `weekly2` can land before its start: a Monday one week after the reference goes back to the reference. */
  lemma Weekly2CanPrecedeStart()
    ensures Align(Weekly2, Ymd(2018, 1, 8), ReferenceDate) == ReferenceDate
    ensures Before(ReferenceDate, Ymd(2018, 1, 8))
  {
    var start: Date := Ymd(2018, 1, 8);
    assert DaysBeforeYear(2018) == 736694;
    assert DayNumber(ReferenceDate) == 736694;
    assert DayNumber(start) == 736701;
    assert Weekday(start) == 0 && Weekday(ReferenceDate) == 0;
    assert TruncDiv(Difference(start, ReferenceDate), 7) == -1;
    Weekly2ShiftsBackOnOddWeeks(start, ReferenceDate);
    assert Align(Weekly, start, ReferenceDate) == AddDays(start, 0) == start;
    AddDaysInMonth(start, -7);
  }

  /**
   * `monthly`, start day before the reference day: move forward by the day difference.
   * When the reference day exists in the start's month the result is that day of that month.
   */
  lemma MonthlyBeforeReferenceDay(start: Date, reference: Date)
    requires start.day < reference.day
    ensures Align(Monthly, start, reference) == AddDays(start, reference.day - start.day)
    ensures Before(start, Align(Monthly, start, reference))
    ensures reference.day <= DaysInMonth(start.year, start.month) ==>
      Align(Monthly, start, reference) == Ymd(start.year, start.month, reference.day)
  {
    AddDaysOrder(start, reference.day - start.day);
    if reference.day <= DaysInMonth(start.year, start.month) {
      AddDaysInMonth(start, reference.day - start.day);
    }
  }

  /**
   * `monthly`, start day on or after the reference day: add one calendar month, then go
   * back by the day difference. When the start day exists in the next month, the result is
   * the reference day of the next month, which is after the start.
   */
  lemma MonthlyFromReferenceDay(start: Date, reference: Date)
    requires start.day >= reference.day
    ensures Align(Monthly, start, reference) == AddDays(AddMonths(start, 1), -(start.day - reference.day))
    ensures var next := AddMonths(start, 1);
      start.day <= DaysInMonth(next.year, next.month) ==>
        Align(Monthly, start, reference) == Ymd(next.year, next.month, reference.day)
        && Before(start, Align(Monthly, start, reference))
  {
    var next := AddMonths(start, 1);
    if start.day <= DaysInMonth(next.year, next.month) {
      AddDaysInMonth(next, -(start.day - reference.day));
      LaterMonthIsLater(start, Ymd(next.year, next.month, reference.day));
    }
  }

  /**
   * `monthly` when the next month is shorter than the start day: 2018-01-31 goes to
   * 2018-02-28 (clamped), then back 30 days to 2018-01-29, before the start and not on
   * the reference day of month.
   */
  lemma MonthlyClampLandsBeforeStart()
    ensures Align(Monthly, Ymd(2018, 1, 31), ReferenceDate) == Ymd(2018, 1, 29)
  {
    var start: Date := Ymd(2018, 1, 31);
    var next := AddMonths(start, 1);
    assert next == Ymd(2018, 2, 28);
    var landed: Date := Ymd(2018, 1, 29);
    AddDaysNumber(next, -30);
    DayNumberInjective(AddDays(next, -30), landed);
  }

  /**
   * `monthly2` never adds a month: both branches step back `(reference_month - start_month) % 2`
   * months and then shift by `reference_day - start_day` days. When that day exists in the
   * month reached, the result is the reference day of that month.
   */
  lemma Monthly2StaysInShiftedMonth(start: Date, reference: Date)
    requires AlignDefined(Monthly2, start, reference)
    ensures var base := SubMonths(start, (reference.month - start.month) % 2);
      && Align(Monthly2, start, reference) == AddDays(base, reference.day - start.day)
      && (base.day == start.day && reference.day <= DaysInMonth(base.year, base.month) ==>
            Align(Monthly2, start, reference) == Ymd(base.year, base.month, reference.day))
  {
    var base := SubMonths(start, (reference.month - start.month) % 2);
    if base.day == start.day && reference.day <= DaysInMonth(base.year, base.month) {
      AddDaysInMonth(base, reference.day - start.day);
    }
  }

  /**
   * `monthly2` when the month step clamps: from 2019-03-31 with reference 2019-04-01, the
   * odd month gap steps back to 2019-02-28 and then 30 days back to 2019-01-29, although
   * 2019-02-01 exists.
   */
  lemma Monthly2ClampMissesReferenceDay()
    ensures Align(Monthly2, Ymd(2019, 3, 31), Ymd(2019, 4, 1)) == Ymd(2019, 1, 29)
  {
    var start: Date := Ymd(2019, 3, 31);
    var base := SubMonths(start, 1);
    assert base == Ymd(2019, 2, 28);
    var landed: Date := Ymd(2019, 1, 29);
    AddDaysNumber(base, -30);
    DayNumberInjective(AddDays(base, -30), landed);
  }

  /** With the default reference date (a Monday in January) the weekly kinds only align from a Monday, `monthly2` only from January. */
  lemma DefaultReferenceDefinedness(start: Date)
    ensures AlignDefined(Weekly, start, ReferenceDate) <==> Weekday(start) == 0
    ensures AlignDefined(Weekly2, start, ReferenceDate) <==> Weekday(start) == 0
    ensures AlignDefined(Monthly2, start, ReferenceDate) <==> start.month == 1
  {
    ReferenceDateIsMonday();
  }

  // ---------------------------------------------------------------------------
  // The step function
  // ---------------------------------------------------------------------------

  /** The day-based kinds move by exactly 1, 2, 7 and 14 days; the weekly kinds keep the weekday. */
  lemma StepDayKinds(kind: FrequencyKind, d: Date)
    requires kind in {Daily, Daily2, Weekly, Weekly2}
    ensures DayNumber(Step(kind, d)) == DayNumber(d) + StepDays(kind)
    ensures kind in {Weekly, Weekly2} ==> Weekday(Step(kind, d)) == Weekday(d)
  {
    AddDaysNumber(d, StepDays(kind));
    WeekdayAddWeeks(d, if kind == Weekly then 1 else 2);
  }

  /** The monthly kinds move 1 or 2 calendar months and keep the day of month when it exists there. */
  lemma StepMonthKinds(kind: FrequencyKind, d: Date)
    requires kind in {Monthly, Monthly2}
    ensures var next := Step(kind, d);
      && MonthIndex(next) == MonthIndex(d) + (if kind == Monthly then 1 else 2)
      && (d.day <= DaysInMonth(next.year, next.month) ==> next.day == d.day)
  {
  }

  /** Repeated `monthly` steps drift once clamped: 2018-01-31, 2018-02-28, 2018-03-28. */
  lemma MonthlyStepDrifts()
    ensures Step(Monthly, Ymd(2018, 1, 31)) == Ymd(2018, 2, 28)
    ensures Step(Monthly, Ymd(2018, 2, 28)) == Ymd(2018, 3, 28)
  {
  }
}
