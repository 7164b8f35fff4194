/** Expansion of a repeating appointment into its copies
    (`generateRecurringAppointments`, scheduling.js:418-455): from the first day, one
    copy per step while the day is not after the end day, at most fifty copies. A
    daily step adds a day, a weekly step seven days, a monthly step is JavaScript's
    `setMonth(getMonth() + 1)`, and any other frequency does not move. Dates are
    taken in UTC, where `new Date("YYYY-MM-DD")` falls. */
module Recurrence {
  import opened Wrappers
  import opened Calendar
  import opened Appointments
  import opened Seqs

  const MaxAppointments: nat := 50

  /** `setMonth(getMonth() + 1)` on day n: the same day of the next month, or, when
      that month is too short, as many days into the month after as the day
      overshoots. */
  function MonthlyStep(n: Day): (r: Day)
    ensures MonthShifted(ToDate(n), 1, ToDate(r))
  {
    NextMonthExists(ToDate(n));
    AddMonths(n, 1)
  }

  lemma NextMonthExists(d: Date)
    requires d.year >= 1 && 1 <= d.month <= 12
    ensures NormalizeMonth(d.year, d.month - 1 + 1).0 >= 1
  {
    assert NormalizeMonth(d.year, d.month - 1 + 1) == NextMonth(d.year, d.month);
  }

  /** The day after `n` for the given frequency. */
  function Advance(frequency: string, n: Day): Day {
    if frequency == "daily" then n + 1
    else if frequency == "weekly" then n + 7
    else if frequency == "monthly" then MonthlyStep(n)
    else n
  }

  /** Copy number k (1-based) of the base data on the given day, with its own id. */
  function Instance(base: AppointmentData, id: nat, date: Day, k: nat, now: int): (a: Appointment)
    requires base.recurring.Some?
    ensures a.id == id && a.data.date == date && a.createdAt == Some(now) && a.updatedAt.None?
    ensures a.data.recurring == Some(base.recurring.value.(instance := Some(k)))
    ensures a.data.(date := base.date, recurring := base.recurring) == base
  {
    Appointment(id, base.(date := date, recurring := Some(base.recurring.value.(instance := Some(k)))), Some(now), None)
  }

  /** True while the loop goes on: the day is not past a valid end day and fewer
      than fifty copies exist. */
  predicate Continues(base: AppointmentData, cursor: Day, count: nat)
    requires base.recurring.Some?
  {
    var end := base.recurring.value.endDate;
    count < MaxAppointments && end.Some? && cursor <= end.value
  }

  /** The copies the loop still adds once `count` copies exist and the cursor is on
      `cursor`; copy number k gets id `firstId + k - 1`. */
  function Expand(base: AppointmentData, cursor: Day, count: nat, firstId: nat, now: int): seq<Appointment>
    requires base.recurring.Some? && count <= MaxAppointments
    decreases MaxAppointments - count
  {
    if Continues(base, cursor, count) then
      [Instance(base, firstId + count, cursor, count + 1, now)]
        + Expand(base, Advance(base.recurring.value.frequency, cursor), count + 1, firstId, now)
    else []
  }

  /** All copies of a repeating appointment. */
  function Recurrences(base: AppointmentData, firstId: nat, now: int): seq<Appointment>
    requires base.recurring.Some?
  {
    Expand(base, base.date, 0, firstId, now)
  }

  /** `generateRecurringAppointments`: the loop that moves the cursor day and
      collects the copies. */
  method GenerateRecurringAppointments(base: AppointmentData, firstId: nat, now: int)
    returns (appointments: seq<Appointment>)
    requires base.recurring.Some?
    ensures appointments == Recurrences(base, firstId, now)
  {
    var frequency := base.recurring.value.frequency;
    var endDate := base.recurring.value.endDate;
    var current: Day := base.date;
    var count := 0;
    appointments := [];
    while endDate.Some? && current <= endDate.value && count < MaxAppointments
      invariant count <= MaxAppointments && |appointments| == count
      invariant appointments + Expand(base, current, count, firstId, now) == Recurrences(base, firstId, now)
      decreases MaxAppointments - count
    {
      var appointment := Instance(base, firstId + count, current, count + 1, now);
      var later := Expand(base, Advance(frequency, current), count + 1, firstId, now);
      assert Expand(base, current, count, firstId, now) == [appointment] + later;
      AppendAssoc(appointments, [appointment], later);
      appointments := appointments + [appointment];
      count := count + 1;
      current := Advance(frequency, current);
    }
    assert Expand(base, current, count, firstId, now) == [];
    assert appointments + [] == appointments;
  }

  /** At most fifty copies remain to be added. */
  lemma {:induction false} ExpandBound(base: AppointmentData, cursor: Day, count: nat, firstId: nat, now: int)
    requires base.recurring.Some? && count <= MaxAppointments
    ensures |Expand(base, cursor, count, firstId, now)| <= MaxAppointments - count
    decreases MaxAppointments - count
  {
    if Continues(base, cursor, count) {
      ExpandBound(base, Advance(base.recurring.value.frequency, cursor), count + 1, firstId, now);
    }
  }

  /** The copies are numbered on: the j-th one still to come is copy count + j + 1,
      with id firstId + count + j, and keeps every field of the base except its day
      and its position. */
  lemma {:induction false} ExpandInstances(base: AppointmentData, cursor: Day, count: nat, firstId: nat, now: int, j: nat)
    requires base.recurring.Some? && count <= MaxAppointments
    requires j < |Expand(base, cursor, count, firstId, now)|
    ensures var a := Expand(base, cursor, count, firstId, now)[j];
            a == Instance(base, firstId + count + j, a.data.date, count + j + 1, now)
    decreases MaxAppointments - count
  {
    if j > 0 {
      ExpandInstances(base, Advance(base.recurring.value.frequency, cursor), count + 1, firstId, now, j - 1);
    }
  }

  /** Every copy falls on a day no later than the end day. */
  lemma {:induction false} ExpandBeforeEnd(base: AppointmentData, cursor: Day, count: nat, firstId: nat, now: int, j: nat)
    requires base.recurring.Some? && count <= MaxAppointments
    requires j < |Expand(base, cursor, count, firstId, now)|
    ensures base.recurring.value.endDate.Some?
    ensures Expand(base, cursor, count, firstId, now)[j].data.date <= base.recurring.value.endDate.value
    decreases MaxAppointments - count
  {
    if j > 0 {
      ExpandBeforeEnd(base, Advance(base.recurring.value.frequency, cursor), count + 1, firstId, now, j - 1);
    }
  }

  /** Each copy after the first falls one step after the one before it. */
  lemma {:induction false} ExpandSteps(base: AppointmentData, cursor: Day, count: nat, firstId: nat, now: int, j: nat)
    requires base.recurring.Some? && count <= MaxAppointments
    requires 0 < j < |Expand(base, cursor, count, firstId, now)|
    ensures var r := Expand(base, cursor, count, firstId, now);
            r[j].data.date == Advance(base.recurring.value.frequency, r[j - 1].data.date)
    decreases MaxAppointments - count
  {
    if j > 1 {
      ExpandSteps(base, Advance(base.recurring.value.frequency, cursor), count + 1, firstId, now, j - 1);
    }
  }

  /** Bounds: at most fifty copies, each with the ids and numbers in order and a day
      not past the end day. */
  lemma RecurrencesBounds(base: AppointmentData, firstId: nat, now: int)
    requires base.recurring.Some?
    ensures var r := Recurrences(base, firstId, now);
            && |r| <= MaxAppointments
            && (forall k :: 0 <= k < |r| ==> r[k] == Instance(base, firstId + k, r[k].data.date, k + 1, now))
            && (r != [] ==> base.recurring.value.endDate.Some?)
            && (forall k :: 0 <= k < |r| ==> r[k].data.date <= base.recurring.value.endDate.value)
  {
    ExpandBound(base, base.date, 0, firstId, now);
    RecurrencesNumbered(base, firstId, now);
    RecurrencesBeforeEnd(base, firstId, now);
  }

  lemma RecurrencesNumbered(base: AppointmentData, firstId: nat, now: int)
    requires base.recurring.Some?
    ensures var r := Recurrences(base, firstId, now);
            forall k :: 0 <= k < |r| ==> r[k] == Instance(base, firstId + k, r[k].data.date, k + 1, now)
  {
    var r := Recurrences(base, firstId, now);
    forall k | 0 <= k < |r|
      ensures r[k] == Instance(base, firstId + k, r[k].data.date, k + 1, now)
    {
      RecurrenceAt(base, firstId, now, k);
    }
  }

  lemma RecurrenceAt(base: AppointmentData, firstId: nat, now: int, k: nat)
    requires base.recurring.Some? && k < |Recurrences(base, firstId, now)|
    ensures var a := Recurrences(base, firstId, now)[k];
            a == Instance(base, firstId + k, a.data.date, k + 1, now)
  {
    ExpandInstances(base, base.date, 0, firstId, now, k);
  }

  lemma RecurrencesBeforeEnd(base: AppointmentData, firstId: nat, now: int)
    requires base.recurring.Some?
    ensures var r := Recurrences(base, firstId, now);
            && (r != [] ==> base.recurring.value.endDate.Some?)
            && (forall k :: 0 <= k < |r| ==> r[k].data.date <= base.recurring.value.endDate.value)
  {
    var r := Recurrences(base, firstId, now);
    forall k | 0 <= k < |r|
      ensures base.recurring.value.endDate.Some? && r[k].data.date <= base.recurring.value.endDate.value
    {
      ExpandBeforeEnd(base, base.date, 0, firstId, now, k);
    }
    if r != [] {
      ExpandBeforeEnd(base, base.date, 0, firstId, now, 0);
    }
  }

  /** The copies of a repeating appointment are numbered from the first id upwards. */
  lemma RecurrenceIds(base: AppointmentData, firstId: nat, now: int)
    requires base.recurring.Some?
    ensures var r := Recurrences(base, firstId, now);
            forall k :: 0 <= k < |r| ==> r[k].id == firstId + k
  {
    RecurrencesBounds(base, firstId, now);
  }

  /** An end day before the first day, or no end day, gives no copy at all, not even
      one on the first day. */
  lemma NothingPastEnd(base: AppointmentData, firstId: nat, now: int)
    requires base.recurring.Some?
    requires base.recurring.value.endDate.None? || base.date > base.recurring.value.endDate.value
    ensures Recurrences(base, firstId, now) == []
  {
  }

  /** Daily and weekly copies fall a fixed number of days apart: copy k (from 0) on
      the first day plus k days, or plus 7k days. */
  lemma {:induction false} FixedStepDates(base: AppointmentData, firstId: nat, now: int, k: nat)
    requires base.recurring.Some? && base.recurring.value.frequency in {"daily", "weekly"}
    requires k < |Recurrences(base, firstId, now)|
    ensures var step := if base.recurring.value.frequency == "daily" then 1 else 7;
            Recurrences(base, firstId, now)[k].data.date == base.date + k * step
  {
    var step := if base.recurring.value.frequency == "daily" then 1 else 7;
    if k > 0 {
      FixedStepDates(base, firstId, now, k - 1);
      ExpandSteps(base, base.date, 0, firstId, now, k);
    }
  }

  /** A frequency other than daily, weekly or monthly never moves the cursor: fifty
      copies, all on the first day, whenever the first day is not past the end. */
  lemma {:induction false} UnknownFrequencyRepeats(base: AppointmentData, count: nat, firstId: nat, now: int)
    requires base.recurring.Some? && count <= MaxAppointments
    requires base.recurring.value.frequency !in {"daily", "weekly", "monthly"}
    requires base.recurring.value.endDate.Some? && base.date <= base.recurring.value.endDate.value
    ensures |Expand(base, base.date, count, firstId, now)| == MaxAppointments - count
    ensures forall j :: 0 <= j < MaxAppointments - count ==> Expand(base, base.date, count, firstId, now)[j].data.date == base.date
    decreases MaxAppointments - count
  {
    if count < MaxAppointments {
      UnknownFrequencyRepeats(base, count + 1, firstId, now);
    }
  }

  /** Monthly copies: each is `setMonth(+1)` of the one before, so a day the next month
      lacks rolls over, and later copies go on from the rolled day. */
  lemma MonthlyDates(base: AppointmentData, firstId: nat, now: int, k: nat)
    requires base.recurring.Some? && base.recurring.value.frequency == "monthly"
    requires 0 < k < |Recurrences(base, firstId, now)|
    ensures var r := Recurrences(base, firstId, now);
            r[k].data.date == MonthlyStep(r[k - 1].data.date)
  {
    ExpandSteps(base, base.date, 0, firstId, now, k);
  }

  /** Weekly from Monday 2024-01-01 until 2024-01-22 gives four copies: the 1st, 8th,
      15th and 22nd of January. */
  lemma WeeklyExample(base: AppointmentData, firstId: nat, now: int)
    requires base.date == DayNumber(Date(2024, 1, 1))
    requires base.recurring == Some(Recurrence("weekly", Some(DayNumber(Date(2024, 1, 22))), base.date, None))
    ensures |Recurrences(base, firstId, now)| == 4
  {
    var d := base.date;
    assert DayNumber(Date(2024, 1, 22)) == d + 21;
    var r := Recurrences(base, firstId, now);
    assert r == Expand(base, d, 0, firstId, now);
    assert Expand(base, d + 28, 4, firstId, now) == [];
  }

  /** Monthly from 2024-01-31: February 2024 has 29 days, so the second copy falls on
      2024-03-02, and the third goes on from there to 2024-04-02. */
  lemma MonthlyRolloverExample(n: Day)
    requires ToDate(n) == Date(2024, 1, 31)
    ensures ToDate(MonthlyStep(n)) == Date(2024, 3, 2)
    ensures ToDate(MonthlyStep(MonthlyStep(n))) == Date(2024, 4, 2)
  {
    JanuaryThirtyFirst(ToDate(MonthlyStep(n)));
    MarchSecond(ToDate(MonthlyStep(MonthlyStep(n))));
  }

  lemma JanuaryThirtyFirst(e: Date)
    requires MonthShifted(Date(2024, 1, 31), 1, e)
    ensures e == Date(2024, 3, 2)
  {
    assert NormalizeMonth(2024, 1) == (2024, 2);
    assert DaysInMonth(2024, 2) == 29;
  }

  lemma MarchSecond(e: Date)
    requires MonthShifted(Date(2024, 3, 2), 1, e)
    ensures e == Date(2024, 4, 2)
  {
    assert NormalizeMonth(2024, 3) == (2024, 4);
  }
}
