/**
 * The habit table of src/queries/habits_queries.rs: the ownership check,
 * habit creation (the choice of the first closure date) and the periodic
 * job query that advances every due habit's closure date by one recurrence
 * step.
 *
 * The clock (`Local::now`), the random habit id (`Uuid::new_v4`) and the
 * success of each database step are parameters. The SQL function
 * `get_next_closure_date` is not part of this model; it is taken to be the
 * step function `Time.Step` of the habit's own frequency kind.
 */
module HabitsQueries {
  import opened Wrappers
  import opened Dates
  import opened Time
  import Utils

  /** `hab_id` (a UUID). */
  type HabitId = nat
  /** `usr_id`. */
  type UserId = string
  /** `cat_id` (a UUID). */
  type CategoryId = nat

  /** The time of day of a `NaiveDateTime`, in whole seconds since midnight. */
  type SecondOfDay = s: nat | s < 86400

  /** `NaiveDateTime`: a date and a time of day. */
  datatype Timestamp = Timestamp(date: Date, secondOfDay: SecondOfDay)

  /** The fields of `HabitCreateSchema` that the modelled rules read or copy. */
  datatype HabitCreate = HabitCreate(name: string, category: CategoryId, frequency: FrequencyKind)

  /** A row of the `habit` table. */
  datatype Habit = Habit(
    id: HabitId,
    name: string,
    createdAt: Timestamp,
    updatedAt: Timestamp,
    frequency: FrequencyKind,
    nextClosure: Date,
    owner: UserId,
    category: CategoryId)

  /** `crate::error::Error`, the variants these queries return. */
  datatype Error = DBConnectionError | QueryError

  predicate UniqueIds(rows: seq<Habit>) {
    forall i, j :: 0 <= i < j < |rows| ==> rows[i].id != rows[j].id
  }

  predicate HasHabit(rows: seq<Habit>, id: HabitId) {
    exists i :: 0 <= i < |rows| && rows[i].id == id
  }

  /** The row with id `id`, as `.filter(hab_id.eq(id)).first()` finds it. */
  function Lookup(rows: seq<Habit>, id: HabitId): (r: Option<Habit>)
    ensures r.None? <==> !HasHabit(rows, id)
    ensures r.Some? ==> r.value in rows && r.value.id == id
  {
    if |rows| == 0 then None
    else if rows[0].id == id then Some(rows[0])
    else
      var rest := Lookup(rows[1..], id);
      assert HasHabit(rows, id) ==> rows[0].id == id || HasHabit(rows[1..], id) by {
        if HasHabit(rows, id) {
          var i :| 0 <= i < |rows| && rows[i].id == id;
          if i > 0 {
            assert rows[1..][i - 1].id == id;
          }
        }
      }
      assert HasHabit(rows[1..], id) ==> HasHabit(rows, id) by {
        if HasHabit(rows[1..], id) {
          var i :| 0 <= i < |rows[1..]| && rows[1..][i].id == id;
          assert rows[i + 1].id == id;
        }
      }
      rest
  }

  /**
   * The closure date of a new habit: its creation day when the creation date anchors the
   * recurrences, otherwise the first occurrence on or after today (`get_next_closest_date`,
   * not part of this model, taken to be the first date of a `DateRange` built today).
   */
  function InitialClosureDate(kind: FrequencyKind, today: Date, creationDateAsReference: bool, reference: Date): (r: Date)
    requires !creationDateAsReference ==> AlignDefined(kind, Clamp(today, reference), reference)
    ensures creationDateAsReference ==> r == today
    ensures !creationDateAsReference ==> r == FirstOccurrence(kind, today, reference)
  {
    if creationDateAsReference then today else FirstOccurrence(kind, today, reference)
  }

  /** The row `add_habit` inserts. */
  function NewHabit(id: HabitId, owner: UserId, data: HabitCreate, now: Timestamp): (h: Habit)
    ensures h.createdAt == h.updatedAt == now
    ensures h.nextClosure == now.date
    ensures h.id == id && h.owner == owner && h.frequency == data.frequency
  {
    Habit(id, data.name, now, now, data.frequency,
          InitialClosureDate(data.frequency, now.date, Utils.HabitCreationDateAsReference, ReferenceDate),
          owner, data.category)
  }

  /** A habit is due once its closure date is today or earlier. */
  predicate IsDue(h: Habit, today: Date) {
    !Before(today, h.nextClosure)
  }

  /** Being due compares closure date and today by day number, as `.le(current_date)` does. */
  lemma IsDueByDayNumber(h: Habit, today: Date)
    ensures IsDue(h, today) <==> DayNumber(h.nextClosure) <= DayNumber(today)
  {
    DayNumberOrder(today, h.nextClosure);
  }

  /** The rows `.filter(hab_next_closure_date.le(today))` loads, in table order. */
  function DueHabits(rows: seq<Habit>, today: Date): seq<Habit> {
    if |rows| == 0 then []
    else if IsDue(rows[0], today) then [rows[0]] + DueHabits(rows[1..], today)
    else DueHabits(rows[1..], today)
  }

  /** One habit with its closure date moved one step of its own frequency. */
  function Advance(h: Habit): (a: Habit)
    ensures a == h.(nextClosure := a.nextClosure)
    ensures Before(h.nextClosure, a.nextClosure)
  {
    h.(nextClosure := Step(h.frequency, h.nextClosure))
  }

  /** The table after the bulk update: due rows advanced, every other row as it was. */
  function AdvanceDue(rows: seq<Habit>, today: Date): (r: seq<Habit>)
    ensures |r| == |rows|
    ensures forall i :: 0 <= i < |rows| ==> r[i] == if IsDue(rows[i], today) then Advance(rows[i]) else rows[i]
  {
    seq(|rows|, i requires 0 <= i < |rows| => if IsDue(rows[i], today) then Advance(rows[i]) else rows[i])
  }

  class HabitTable {
    var rows: seq<Habit>

    /** `hab_id` is the primary key. */
    ghost predicate Valid()
      reads this
    {
      UniqueIds(rows)
    }

    constructor ()
      ensures Valid() && rows == []
    {
      rows := [];
    }

    /**
     * `is_habit_accessible_by_user`: whether `userId` owns habit `habitId`. A missing habit
     * is a query error (`first` finds no row).
     */
    method IsHabitAccessibleByUser(userId: UserId, habitId: HabitId, readConnectionOk: bool, queryOk: bool)
      returns (r: Result<bool, Error>)
      requires Valid()
      ensures !readConnectionOk ==> r == Failure(DBConnectionError)
      ensures readConnectionOk && (!queryOk || !HasHabit(rows, habitId)) ==> r == Failure(QueryError)
      ensures readConnectionOk && queryOk && HasHabit(rows, habitId) ==>
        r.Success? && (r.value <==> exists i :: 0 <= i < |rows| && rows[i].id == habitId && rows[i].owner == userId)
    {
      if !readConnectionOk {
        return Failure(DBConnectionError);
      }
      var found := Lookup(rows, habitId);
      if !queryOk || found.None? {
        return Failure(QueryError);
      }
      r := Success(found.value.owner == userId);
      if r.value {
        var k :| 0 <= k < |rows| && rows[k] == found.value;
      }
    }

    /** `add_habit`: inserts the new habit under the fresh id `newId`; an id already present violates the primary key. */
    method AddHabit(userId: UserId, data: HabitCreate, now: Timestamp, newId: HabitId, writeConnectionOk: bool, insertOk: bool)
      returns (r: Result<HabitId, Error>)
      requires Valid()
      modifies this
      ensures Valid()
      ensures !writeConnectionOk ==> r == Failure(DBConnectionError) && rows == old(rows)
      ensures writeConnectionOk && (!insertOk || HasHabit(old(rows), newId)) ==>
        r == Failure(QueryError) && rows == old(rows)
      ensures writeConnectionOk && insertOk && !HasHabit(old(rows), newId) ==>
        r == Success(newId) && rows == old(rows) + [NewHabit(newId, userId, data, now)]
    {
      var habit := NewHabit(newId, userId, data, now);
      if !writeConnectionOk {
        return Failure(DBConnectionError);
      }
      if !insertOk || Lookup(rows, newId).Some? {
        return Failure(QueryError);
      }
      rows := rows + [habit];
      r := Success(newId);
    }

    /**
     * `get_update_pending_habits`: loads the habits due `today`, advances exactly those rows
     * by one step and returns them as they were before the update. A failed read leaves the
     * table as it was; so does a failed update, which is reported although the due habits
     * were read.
     */
    method GetUpdatePendingHabits(today: Date, readConnectionOk: bool, readQueryOk: bool, writeConnectionOk: bool, updateOk: bool)
      returns (r: Result<seq<Habit>, Error>)
      requires Valid()
      modifies this
      ensures Valid()
      ensures !readConnectionOk ==> r == Failure(DBConnectionError)
      ensures readConnectionOk && !readQueryOk ==> r == Failure(QueryError)
      ensures readConnectionOk && readQueryOk && !writeConnectionOk ==> r == Failure(DBConnectionError)
      ensures readConnectionOk && readQueryOk && writeConnectionOk && !updateOk ==> r == Failure(QueryError)
      ensures r.Failure? ==> rows == old(rows)
      ensures r.Success? ==> r.value == DueHabits(old(rows), today) && rows == AdvanceDue(old(rows), today)
    {
      if !readConnectionOk {
        return Failure(DBConnectionError);
      }
      if !readQueryOk {
        return Failure(QueryError);
      }
      var search := DueHabits(rows, today);
      if !writeConnectionOk {
        return Failure(DBConnectionError);
      }
      if !updateOk {
        return Failure(QueryError);
      }
      AdvanceKeepsIds(rows, today);
      rows := AdvanceDue(rows, today);
      r := Success(search);
    }
  }

  // ---------------------------------------------------------------------------
  // Properties of the closure-advancement query
  // ---------------------------------------------------------------------------

  /** The loaded snapshot holds exactly the due habits. */
  lemma {:induction false} DueHabitsExactly(rows: seq<Habit>, today: Date)
    ensures forall h :: h in DueHabits(rows, today) <==> h in rows && IsDue(h, today)
  {
    if |rows| > 0 {
      DueHabitsExactly(rows[1..], today);
      assert rows == [rows[0]] + rows[1..];
    }
  }

  /** A table with no due habit loads an empty snapshot. */
  lemma {:induction false} NothingDueLoadsNothing(rows: seq<Habit>, today: Date)
    requires forall i :: 0 <= i < |rows| ==> !IsDue(rows[i], today)
    ensures DueHabits(rows, today) == []
  {
    if |rows| > 0 {
      NothingDueLoadsNothing(rows[1..], today);
    }
  }

  /** The advanced table keeps every id in place, so the primary key stays unique. */
  lemma AdvanceKeepsIds(rows: seq<Habit>, today: Date)
    ensures forall i :: 0 <= i < |rows| ==> AdvanceDue(rows, today)[i].id == rows[i].id
    ensures UniqueIds(rows) ==> UniqueIds(AdvanceDue(rows, today))
  {
  }

  /**
   * After one run a due habit is still due exactly when one step did not carry its closure
   * date past today: a habit several periods behind stays due.
   */
  lemma StillDueAfterAdvance(rows: seq<Habit>, today: Date, i: int)
    requires 0 <= i < |rows| && IsDue(rows[i], today)
    ensures IsDue(AdvanceDue(rows, today)[i], today) <==> !Before(today, Step(rows[i].frequency, rows[i].nextClosure))
  {
  }

  /**
   * Running the query twice on the same day advances a habit a second time only when it
   * was still due after the first run; a caught-up table is left as it is.
   */
  lemma {:induction false} SecondRunOnCaughtUpTable(rows: seq<Habit>, today: Date)
    requires forall i :: 0 <= i < |rows| ==> !IsDue(AdvanceDue(rows, today)[i], today)
    ensures DueHabits(AdvanceDue(rows, today), today) == []
    ensures AdvanceDue(AdvanceDue(rows, today), today) == AdvanceDue(rows, today)
  {
    var once := AdvanceDue(rows, today);
    NothingDueLoadsNothing(once, today);
  }

  /** With the creation date as anchor, a new habit is due on the day it is created. */
  lemma NewHabitDueOnCreation(id: HabitId, owner: UserId, data: HabitCreate, now: Timestamp)
    ensures IsDue(NewHabit(id, owner, data, now), now.date)
    ensures DueHabits([NewHabit(id, owner, data, now)], now.date) == [NewHabit(id, owner, data, now)]
  {
  }
}
