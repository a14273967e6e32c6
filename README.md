# Recurrence date engine of habits_ms, in Dafny

This project models the recurrence core of the habits_ms service, a habit-tracking
backend written in Rust.

- **`Time`** (`src/utils/time.rs`) is `DateRange::new` and its `Iterator`. It clamps
  "today" to the reference date 2018-01-01. It then aligns the start to the phase of one
  of six frequency kinds (`daily`, `daily2`, `weekly`, `weekly2`, `monthly`, `monthly2`).
  It picks the step function of the kind and yields dates until the end date is passed.
  The range is a class with a `Next` method. Its ghost state records what has been
  yielded. A specification function, `Occurrences`, gives the whole sequence.
- **`Dates`** is the part of chrono's `NaiveDate` that the engine uses. Dates are
  proleptic Gregorian (year, month, day) triples. A day number counts from 0001-01-01,
  which is a Monday, so the weekday is the day number modulo 7 with Monday = 0. Adding
  months clamps to the last day of the target month, as `checked_add_months` and
  `checked_sub_months` do.
- **`HabitsQueries`** (`src/queries/habits_queries.rs`) is the habit table as a class
  holding a sequence of rows. It covers the owner check, the row `add_habit` inserts (in
  particular its first closure date), and `get_update_pending_habits`. That query loads
  the due habits, moves each one's closure date by one step of its own frequency, and
  returns the rows as they were before the update.
- **`Paging`** is the page-window computation repeated in `get_all_categories`,
  `get_all_user_habits`, `get_all_category_habits` and `get_all_user_category_habits`.
- **`Validators`** is `validate_bigdecimal`, the strictly-positive amount rule.
- **`Utils`** holds the constants of `src/utils/mod.rs`.

Inputs the source reads from the outside world are parameters: today's date (`Utc::now`,
`Local::now`), the reference date (it defaults to the constant), new habit ids
(`Uuid::new_v4`), and whether each database connection or statement succeeds.

Two functions the queries call are not in the source shown, so this model assumes their
behaviour. `get_next_closure_date` is taken to be the step function of `time.rs`
(`Time.Step`). `DateRange::get_next_closest_date(kind, Some(today), None)` is taken to be
the first date of a range built today with the constant reference date
(`Time.FirstOccurrence`).

Rust's `%` on `i64` and `Duration::num_weeks` truncate toward zero, and Dafny's `/` and
`%` do not. They are written out as `Time.TruncRem` and `Time.TruncDiv`. The `u32`
subtractions `reference_day_of_week - start_day_of_week` (time.rs lines 56 and 62) and
`reference_month - start_month` (line 87) panic when the right operand is larger. They
are the precondition `Time.AlignDefined`.

## Behaviour of the code as written

The model follows the code. In these places the code does less than its comments (or
the usual reading of "align to the first on-phase date on or after the start") say:

- `daily` aligns to the reference date itself, not to the start (`Time.Align`).
- `daily2` (marked `TODO: Fix this`) lands on the reference date or on the day before it,
  never after the start (`Time.Daily2AlignsToReferenceOrDayBefore`).
- `weekly` and `weekly2` are defined only when the start's weekday is not later than the
  reference weekday. With the constant reference, a Monday, that means only on Mondays
  (`Time.DefaultReferenceDefinedness`).
- `weekly2`'s "complete a week" moves back by 0 or 1 week, so the result can precede the
  start (`Time.Weekly2ShiftsBackOnOddWeeks`, `Time.Weekly2CanPrecedeStart`).
- `monthly` on a day the next month lacks goes back too far. For example, 2018-01-31
  aligns to 2018-01-29 (`Time.MonthlyClampLandsBeforeStart`).
- `monthly2` subtracts months and never adds one, in either branch
  (`Time.Monthly2StaysInShiftedMonth`). It is defined only when the start month is not
  later than the reference month, which means only in January with the constant.
- `monthly2` misses the reference day when its month step clamps. From 2019-03-31 with
  reference 2019-04-01, it steps back to 2019-02-28 and then 30 days further, to 2019-01-29
  (`Time.Monthly2ClampMissesReferenceDay`).
- Repeated `monthly` steps drift to an earlier day once a step clamps
  (`Time.MonthlyStepDrifts`).
- One run of `get_update_pending_habits` moves a due habit by one step only. A habit
  several periods behind stays due (`HabitsQueries.StillDueAfterAdvance`).

## Model

| member | source | states |
|---|---|---|
| `Dates.Before` | src/utils/time.rs:32 | `<` on `NaiveDate`, lexicographic on (year, month, day). `Dates.DayNumberOrder` states that it is day-number order |
| `Dates.AddDays` | src/utils/time.rs:47 | `d + Duration::days(n)`, one day at a time. `Dates.AddDaysNumber` states that it moves the day number by exactly `n` |
| `Dates.DayNumberOrder` | src/utils/time.rs:32 | Date order (`<` on `NaiveDate`) is the same as day-number order, in both directions |
| `Dates.AddDaysNumber` | src/utils/time.rs:47 | `d + Duration::days(n)` moves the day number by exactly `n`, for any sign of `n` |
| `Dates.AddDaysInMonth` | src/utils/time.rs:72-73 | Adding days that stay inside the month changes only the day of month |
| `Dates.AddDaysCompose` | src/utils/time.rs:65-67 | Adding `a` days and then `b` days is adding `a + b` days |
| `Dates.AddDaysOrder` | src/utils/time.rs:78 | `d + n days` is later than `d` iff `n > 0`, and earlier iff `n < 0` |
| `Dates.Weekday` | src/utils/time.rs:41-42 | `num_days_from_monday` lies in 0..6 |
| `Dates.WeekdayAddDays` | src/utils/time.rs:41-42 | Adding `n` days advances the weekday by `n` modulo 7 |
| `Dates.WeekdayAddWeeks` | src/utils/time.rs:64-67 | Adding whole weeks, forward or back, keeps the weekday |
| `Dates.AddMonths` | src/utils/time.rs:77 | `checked_add_months(k)` lands `k` months later, on the same day or, when that day does not exist, on the last day of that month |
| `Dates.SubMonths` | src/utils/time.rs:91-93 | `checked_sub_months(k)` lands `k` months earlier, on the same day or on that month's last day |
| `Dates.AddMonthsIsLater` | src/utils/time.rs:113 | Adding at least one month gives a strictly later date |
| `Dates.DayNumberInjective` | src/utils/time.rs:39 | Two dates with the same day number are the same date |
| `Time.ReferenceDateIsMonday` | src/utils/time.rs:6 | `REFERENCE_DATE`, 2018-01-01, is a Monday |
| `Time.TruncDiv` | src/utils/time.rs:61 | `num_weeks` and Rust's `/` round toward zero: `b*q <= a < b*(q+1)` for `a >= 0`, and `b*(q-1) < a <= b*q` for `a < 0` |
| `Time.TruncRem` | src/utils/time.rs:51 | Rust's `%`: `a == b * trunc(a / b) + r`, and `r` has the sign of `a` with `abs(r) < b` |
| `Time.Clamp` | src/utils/time.rs:31-34 | The start is today or the reference date, and is not earlier than either |
| `Time.Difference` | src/utils/time.rs:39 | `frequency_data - start_date` in days. `Time.ClampedDifferenceNonPositive` states that it is at most 0 after the clamp |
| `Time.AlignDefined` | src/utils/time.rs:55-94 | The `u32` subtractions at lines 56, 62 and 87 do not underflow. `Time.DefaultReferenceDefinedness` states what that means with the constant reference date |
| `Time.ClampedDifferenceNonPositive` | src/utils/time.rs:39 | After the clamp, `reference - start` is at most 0 days, and an earlier today is replaced by the reference date |
| `Time.Align` | src/utils/time.rs:46-104 | `daily` lands exactly on the reference date; `weekly` and `weekly2` land on the reference weekday |
| `Time.Daily2AlignsToReferenceOrDayBefore` | src/utils/time.rs:49-54 | After the clamp, `daily2` gives the reference date when the start is an even number of days after it, and the day before it when odd |
| `Time.WeeklyAlignsToReferenceWeekday` | src/utils/time.rs:55-59 | `weekly` moves forward from the start by fewer than 7 days |
| `Time.Weekly2ShiftsBackOnOddWeeks` | src/utils/time.rs:60-68 | After the clamp, `weekly2` equals `weekly` when the truncated whole weeks are even, and `weekly` minus 7 days when odd |
| `Time.Weekly2CanPrecedeStart` | src/utils/time.rs:60-68 | `weekly2` from 2018-01-08 with the constant reference gives 2018-01-01, before the start |
| `Time.MonthlyBeforeReferenceDay` | src/utils/time.rs:70-73 | If the start day is before the reference day, `monthly` moves forward by the difference. When that day exists, it lands on the reference day of the start's month |
| `Time.MonthlyFromReferenceDay` | src/utils/time.rs:74-79 | Otherwise `monthly` is one month later minus the day difference. When the start day exists next month, it lands on the reference day of the next month, after the start |
| `Time.MonthlyClampLandsBeforeStart` | src/utils/time.rs:77-78 | `monthly` from 2018-01-31 with the constant reference gives 2018-01-29 |
| `Time.Monthly2StaysInShiftedMonth` | src/utils/time.rs:81-102 | Both `monthly2` branches step back `(reference month - start month) % 2` months, then shift by the day difference. They land on the reference day of that month when the month step kept the start's day and the reference day exists in that month |
| `Time.Monthly2ClampMissesReferenceDay` | src/utils/time.rs:87-102 | `monthly2` from 2019-03-31 with reference 2019-04-01 clamps to 2019-02-28 and then lands on 2019-01-29, not on 2019-02-01 |
| `Time.DefaultReferenceDefinedness` | src/utils/time.rs:6 | With the constant reference date, the weekly kinds are defined only from a Monday and `monthly2` only from January |
| `Time.FirstOccurrence` | src/utils/time.rs:31-104 | Clamp, then align: the start of `DateRange::new`. `Time.Clamp`, `Time.Align` and the per-kind lemmas above state its properties, and `Time.DateRange.constructor` starts there |
| `Time.Step` | src/utils/time.rs:107-118 | Every kind's step gives a strictly later date |
| `Time.StepDayKinds` | src/utils/time.rs:108-111 | `daily`, `daily2`, `weekly` and `weekly2` step by exactly 1, 2, 7 and 14 days; the weekly steps keep the weekday |
| `Time.StepMonthKinds` | src/utils/time.rs:112-117 | `monthly` and `monthly2` step 1 and 2 calendar months and keep the day of month when it exists |
| `Time.MonthlyStepDrifts` | src/utils/time.rs:113 | Stepping `monthly` from 2018-01-31 gives 2018-02-28 and then 2018-03-28 |
| `Time.Occurrences` | src/utils/time.rs:131-142 | The dates the iterator still yields from a position. `Time.OccurrencesShape` and `Time.OccurrencesIncreasing` state its shape and order |
| `Time.OccurrencesShape` | src/utils/time.rs:134-142 | The remaining sequence is empty iff the end is before the position. Otherwise it starts at the position, stays within [position, end], and each date is the step of the previous |
| `Time.OccurrencesIncreasing` | src/utils/time.rs:134-142 | The yielded dates are strictly increasing |
| `Time.EndAtStartYieldsOne` | src/utils/time.rs:136-141 | A range whose end is its aligned start yields exactly that date |
| `Time.EndBeforeStartYieldsNone` | src/utils/time.rs:136-138 | A range whose end is the day before its aligned start yields nothing |
| `Time.YieldsIncreasingAndBounded` | src/utils/time.rs:131-142 | Everything a range has yielded is strictly increasing and lies between its aligned start and its end |
| `Time.DateRange.constructor` | src/utils/time.rs:19-128 | The range starts at the aligned, clamped today and keeps its end, kind and reference date |
| `Time.DateRange.Next` | src/utils/time.rs:134-142 | Returns nothing exactly when the end is before the current start, and then changes nothing. Otherwise it yields the current start and moves one step, so the count of dates still to come decreases |
| `HabitsQueries.Lookup` | src/queries/habits_queries.rs:32-35 | Finds a row with the given id exactly when one exists |
| `HabitsQueries.HabitTable.IsHabitAccessibleByUser` | src/queries/habits_queries.rs:20-43 | Connection failure gives a connection error. A missing habit or failed query gives a query error. Otherwise the result is true iff the habit's stored owner is the given user |
| `HabitsQueries.InitialClosureDate` | src/queries/habits_queries.rs:50-62 | With the creation date as anchor, the first closure date is today; otherwise it is the first occurrence of a range built today |
| `HabitsQueries.NewHabit` | src/queries/habits_queries.rs:64-82 | The new row's created and updated timestamps are the same instant, and its closure date is the creation day |
| `HabitsQueries.NewHabitDueOnCreation` | src/queries/habits_queries.rs:52-53 | With the anchor flag set, a new habit is due, and loaded by the job, on the day it is created |
| `HabitsQueries.HabitTable.AddHabit` | src/queries/habits_queries.rs:46-100 | On success, appends exactly the new row and returns its id. A connection failure, failed insert or taken id returns an error and leaves the table unchanged |
| `HabitsQueries.Advance` | src/queries/habits_queries.rs:293-297 | Only the closure date changes, and it moves strictly later |
| `HabitsQueries.AdvanceDue` | src/queries/habits_queries.rs:293-299 | Due rows are advanced by one step of their own frequency. Every other row is unchanged, and the row count is kept |
| `HabitsQueries.IsDue` | src/queries/habits_queries.rs:279 | `hab_next_closure_date <= current_date`. The same test filters the update at line 298 |
| `HabitsQueries.IsDueByDayNumber` | src/queries/habits_queries.rs:279 | A habit is due iff its closure date's day number is at most today's |
| `HabitsQueries.DueHabits` | src/queries/habits_queries.rs:277-280 | The due rows in table order. `HabitsQueries.DueHabitsExactly` states that they are exactly the due rows |
| `HabitsQueries.DueHabitsExactly` | src/queries/habits_queries.rs:277-280 | The loaded snapshot contains exactly the rows whose closure date is today or earlier |
| `HabitsQueries.NothingDueLoadsNothing` | src/queries/habits_queries.rs:277-280 | With no due row the snapshot is empty |
| `HabitsQueries.AdvanceKeepsIds` | src/queries/habits_queries.rs:293-299 | The update keeps every id in place, so ids stay unique |
| `HabitsQueries.StillDueAfterAdvance` | src/queries/habits_queries.rs:293-299 | After one run, a due habit is still due iff one step did not carry it past today |
| `HabitsQueries.SecondRunOnCaughtUpTable` | src/queries/habits_queries.rs:277-299 | Once no row is due, a second run the same day loads nothing and changes nothing |
| `HabitsQueries.HabitTable.GetUpdatePendingHabits` | src/queries/habits_queries.rs:266-306 | A read failure returns an error before any update. A write failure returns an error and leaves the table unchanged. Success returns the pre-update due rows and advances exactly those |
| `Paging.PageSize` | src/queries/categories_queries.rs:22-26 | The page size defaults to `DEFAULT_QUERY_LIMIT` and is capped at `MAX_QUERY_LIMIT`. Smaller values, zero and negative included, pass through |
| `Paging.PageWindow` | src/queries/categories_queries.rs:21-37 | `limit` is the page size, and `offset` is `(page - 1) * limit` with the page defaulting to 1 |
| `Paging.MissingPageIsFirst` | src/queries/habits_queries.rs:148-153 | A missing page is page 1, at offset 0 |
| `Paging.ConsecutivePagesAdjacent` | src/queries/habits_queries.rs:164-165 | Page `p + 1` starts where page `p` ends |
| `Validators.SignOf` | src/validators.rs:5 | `BigDecimal::sign`: `Plus` iff positive, `Minus` iff negative, `NoSign` iff zero |
| `Validators.ValidateBigDecimal` | src/validators.rs:4-10 | Accepts exactly the strictly positive amounts. Zero and negative amounts fail with code "Negative / zero value" |

## Left out

- Time.Align: the `u32` underflows at time.rs lines 56, 62 and 87 are a precondition, as in a debug build, which panics. The wrap-around of a release build is not modelled.
- Chrono's representable date range is not modelled. Years are unbounded here, so the `unwrap` of `checked_add_months` and `checked_sub_months` never fails.
- Paging.PageWindow: the `i64` overflow of `(page - 1) * per_page` is not modelled. How the database treats a negative limit or offset is not modelled either.
- The rows the listing queries load, and delete, update and get-by-id of habits and categories, are database plumbing outside this model. Only their page window is modelled.
- HabitsQueries.HabitTable.GetUpdatePendingHabits: a failed update is taken to change no row. Diesel's `get_result` on a zero-row update is an abstract success or failure. The read-then-write race between two runs is not modelled.
- `get_next_closure_date` and `DateRange::get_next_closest_date` are not part of this model. They are assumed to be `Time.Step` and `Time.FirstOccurrence`, as stated above.
- Timestamps carry a date and a second of the day. The difference between `Utc::now` (range start) and `Local::now` (habit creation, job) is not modelled.
- Habit columns that are copied unchanged (description, favourite flag, yes/no flag, colour, units, goal, location) are not modelled.
- Habit ids are parameters rather than random UUIDs.
- `BigDecimal` values are exact reals; only their sign matters to the validator.
- The calendar aggregation of collected data and the upcoming-events listing have no implementation in the source. `get_next_events_with_habits` returns an empty list. They are not modelled.
- The HTTP handlers and routes, the authentication filter, error-to-status mapping, connection pools, the cron job, and the reminder and habit-update services are I/O and concurrency. They are not modelled.
