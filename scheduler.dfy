/** The appointment store of the scheduling screen and its mutations
    (scheduling.js): saving a form as an edit, a single appointment or a series of
    repeats, cycling and completing a status, deleting, and the month the calendar
    shows. The store is the in-memory sequence behind the `appointments` key; ids
    come from a counter the store owns. */
module Scheduler {
  import opened Wrappers
  import opened Calendar
  import opened Seqs
  import opened Appointments
  import opened Recurrence

  /** Every id is below the counter and no two records share an id. */
  ghost predicate IdsFresh(appointments: seq<Appointment>, nextId: nat) {
    && (forall i :: 0 <= i < |appointments| ==> appointments[i].id < nextId)
    && (forall i, j :: 0 <= i < j < |appointments| ==> appointments[i].id != appointments[j].id)
  }

  /** `findIndex(a => a.id === id)`. */
  function IndexOfId(appointments: seq<Appointment>, id: nat): (i: int)
    ensures -1 <= i < |appointments|
    ensures i == -1 <==> forall j :: 0 <= j < |appointments| ==> appointments[j].id != id
    ensures 0 <= i ==> appointments[i].id == id
  {
    FindIndex(appointments, (a: Appointment) => a.id, id)
  }

  /** `filter(a => a.id !== id)`: the store after a delete. */
  function WithoutId(appointments: seq<Appointment>, id: nat): seq<Appointment> {
    Filter(appointments, (a: Appointment) => a.id != id)
  }

  /** After a delete no record has the id. */
  lemma WithoutIdRemoves(appointments: seq<Appointment>, id: nat)
    ensures IndexOfId(WithoutId(appointments, id), id) == -1
  {
  }

  /** A delete keeps every other record, in order. */
  lemma WithoutIdKeepsOthers(appointments: seq<Appointment>, id: nat)
    ensures Subsequence(WithoutId(appointments, id), appointments)
    ensures forall j :: 0 <= j < |appointments| && appointments[j].id != id ==> appointments[j] in WithoutId(appointments, id)
  {
    FilterIsSubsequence(appointments, (a: Appointment) => a.id != id);
  }

  /** Deleting twice is deleting once. */
  lemma WithoutIdIdempotent(appointments: seq<Appointment>, id: nat)
    ensures WithoutId(WithoutId(appointments, id), id) == WithoutId(appointments, id)
  {
    var r := WithoutId(appointments, id);
    FilterKeepsAll(r, (a: Appointment) => a.id != id);
  }

  /** Deleting an id no record has changes nothing. */
  lemma WithoutIdUnknown(appointments: seq<Appointment>, id: nat)
    requires IndexOfId(appointments, id) == -1
    ensures WithoutId(appointments, id) == appointments
  {
    FilterKeepsAll(appointments, (a: Appointment) => a.id != id);
  }

  /** Dropping the first record keeps the ids fresh. */
  lemma IdsFreshTail(appointments: seq<Appointment>, nextId: nat)
    requires IdsFresh(appointments, nextId) && appointments != []
    ensures IdsFresh(appointments[1..], nextId)
  {
    var rest := appointments[1..];
    forall i, j | 0 <= i < j < |rest| ensures rest[i].id != rest[j].id {
      assert rest[i] == appointments[i + 1] && rest[j] == appointments[j + 1];
    }
  }

  /** A record whose id is below the counter and unlike all others may go in front. */
  lemma IdsFreshCons(a: Appointment, rest: seq<Appointment>, nextId: nat)
    requires IdsFresh(rest, nextId) && a.id < nextId
    requires forall k :: 0 <= k < |rest| ==> rest[k].id != a.id
    ensures IdsFresh([a] + rest, nextId)
  {
    var s := [a] + rest;
    forall i, j | 0 <= i < j < |s| ensures s[i].id != s[j].id {
      assert s[j] == rest[j - 1];
      if i > 0 {
        assert s[i] == rest[i - 1];
      }
    }
  }

  /** A delete keeps the ids fresh. */
  lemma {:induction false} WithoutIdKeepsIdsFresh(appointments: seq<Appointment>, nextId: nat, id: nat)
    requires IdsFresh(appointments, nextId)
    ensures IdsFresh(WithoutId(appointments, id), nextId)
    decreases |appointments|
  {
    if appointments != [] {
      var rest := appointments[1..];
      IdsFreshTail(appointments, nextId);
      WithoutIdKeepsIdsFresh(rest, nextId, id);
      var r := WithoutId(rest, id);
      assert WithoutId(appointments, id) == if appointments[0].id != id then [appointments[0]] + r else r;
      if appointments[0].id != id {
        forall k | 0 <= k < |r| ensures r[k].id != appointments[0].id {
          assert r[k] in rest;
          var m :| 0 <= m < |rest| && rest[m] == r[k];
          assert rest[m] == appointments[m + 1];
        }
        IdsFreshCons(appointments[0], r, nextId);
      }
    }
  }

  /** Replacing a record by one with the same id keeps the ids fresh. */
  lemma IdsFreshUpdate(appointments: seq<Appointment>, nextId: nat, i: nat, a: Appointment)
    requires IdsFresh(appointments, nextId) && i < |appointments| && a.id == appointments[i].id
    ensures IdsFresh(appointments[i := a], nextId)
  {
    var s := appointments[i := a];
    assert forall k :: 0 <= k < |s| ==> s[k].id == appointments[k].id;
  }

  /** Appending records numbered from the counter upwards keeps the ids fresh. */
  lemma IdsFreshAppend(before: seq<Appointment>, copies: seq<Appointment>, nextId: nat)
    requires IdsFresh(before, nextId)
    requires forall k :: 0 <= k < |copies| ==> copies[k].id == nextId + k
    ensures IdsFresh(before + copies, nextId + |copies|)
  {
    var s := before + copies;
    forall i | 0 <= i < |s| ensures s[i].id < nextId + |copies| {
      if i >= |before| {
        assert s[i] == copies[i - |before|];
      } else {
        assert s[i] == before[i];
      }
    }
    forall i, j | 0 <= i < j < |s| ensures s[i].id != s[j].id {
      if j < |before| {
        assert s[i] == before[i] && s[j] == before[j];
      } else if i < |before| {
        assert s[i] == before[i] && s[j] == copies[j - |before|];
      } else {
        assert s[i] == copies[i - |before|] && s[j] == copies[j - |before|];
      }
    }
  }

  /** The calendar month as written (scheduling.js:652): `setMonth(getMonth() +
      direction)` on the full current date, so the day of month comes along and lands
      where MonthShifted says. */
  function NavigateAsWritten(current: Day, direction: int): (r: int)
    requires NormalizeMonth(ToDate(current).year, ToDate(current).month - 1 + direction).0 >= 1
    ensures r >= 0 && MonthShifted(ToDate(current), direction, ToDate(r))
  {
    AddMonths(current, direction)
  }

  /** As written, from 31 January 2023 "next month" lands on 3 March 2023: February
      is skipped. */
  lemma NavigateAsWrittenSkipsFebruary(e: Date)
    requires MonthShifted(Date(2023, 1, 31), 1, e)
    ensures e == Date(2023, 3, 3)
  {
    assert NormalizeMonth(2023, 1) == (2023, 2);
    assert DaysInMonth(2023, 2) == 28;
  }

  /** As written, from 31 March 2023 "previous month" lands on 3 March 2023: the
      calendar stays on March. */
  lemma NavigateAsWrittenSticks(e: Date)
    requires MonthShifted(Date(2023, 3, 31), -1, e)
    ensures e == Date(2023, 3, 3)
  {
    assert NormalizeMonth(2023, 1) == (2023, 2);
    assert DaysInMonth(2023, 2) == 28;
  }

  /** The first day of the month k months after month m of year y. */
  lemma FirstOfShiftedMonth(y: int, m: int, k: int)
    requires y >= 1 && 1 <= m <= 12 && NormalizeMonth(y, m - 1 + k).0 >= 1
    ensures MakeDay(y, m - 1 + k, 1) >= 0
    ensures var s := NormalizeMonth(y, m - 1 + k);
            ToDate(MakeDay(y, m - 1 + k, 1)) == Date(s.0, s.1, 1)
  {
    var s := NormalizeMonth(y, m - 1 + k);
    var t := Date(s.0, s.1, 1);
    assert ValidDate(t);
    assert MakeDay(y, m - 1 + k, 1) == DayNumber(t);
    ToDateOfDayNumber(t);
  }

  /** The month navigation as intended: the first day of the month `direction`
      months away from the shown one. */
  function NavigateTarget(current: Day, direction: int): (r: Day)
    requires NormalizeMonth(ToDate(current).year, ToDate(current).month - 1 + direction).0 >= 1
    ensures var s := NormalizeMonth(ToDate(current).year, ToDate(current).month - 1 + direction);
            ToDate(r) == Date(s.0, s.1, 1)
  {
    var d := ToDate(current);
    FirstOfShiftedMonth(d.year, d.month, direction);
    MakeDay(d.year, d.month - 1 + direction, 1)
  }

  /** The intended navigation moves the shown month by exactly `direction` months and
      lands on its first day. */
  lemma NavigateTargetMoves(current: Day, direction: int)
    requires NormalizeMonth(ToDate(current).year, ToDate(current).month - 1 + direction).0 >= 1
    ensures var d := ToDate(current);
            var e := ToDate(NavigateTarget(current, direction));
            e.day == 1 && 12 * e.year + e.month == 12 * d.year + d.month + direction
  {
  }

  /** Moving forward and back again returns to the first day of the shown month. */
  lemma NavigateThereAndBack(current: Day, direction: int)
    requires NormalizeMonth(ToDate(current).year, ToDate(current).month - 1 + direction).0 >= 1
    ensures NormalizeMonth(ToDate(NavigateTarget(current, direction)).year,
                           ToDate(NavigateTarget(current, direction)).month - 1 - direction).0 >= 1
    ensures var d := ToDate(current);
            ToDate(NavigateTarget(NavigateTarget(current, direction), -direction)) == Date(d.year, d.month, 1)
  {
    var d := ToDate(current);
    var t := NavigateTarget(current, direction);
    NavigateTargetMoves(current, direction);
    var e := ToDate(t);
    var back := NormalizeMonth(e.year, e.month - 1 - direction);
    SameMonthIndex(back.0, back.1, d.year, d.month);
    NavigateTargetMoves(t, -direction);
    var f := ToDate(NavigateTarget(t, -direction));
    SameMonthIndex(f.year, f.month, d.year, d.month);
  }

  lemma SameMonthIndex(y1: int, m1: int, y2: int, m2: int)
    requires 1 <= m1 <= 12 && 1 <= m2 <= 12 && 12 * y1 + m1 == 12 * y2 + m2
    ensures y1 == y2 && m1 == m2
  {
  }

  class Store {
    var appointments: seq<Appointment>
    var nextId: nat
    /** The id of the record the open form edits (`editingAppointmentId`). */
    var editingId: Option<nat>
    /** The day whose month the calendar shows (`currentDate`). */
    var currentDate: Day

    ghost predicate Valid()
      reads this
    {
      IdsFresh(appointments, nextId)
    }

    /** An empty store showing today's month. */
    constructor(today: Day)
      ensures Valid()
      ensures appointments == [] && editingId == None && currentDate == today
    {
      appointments := [];
      nextId := 0;
      editingId := None;
      currentDate := today;
    }

    /** `openAppointmentModal()` for a new appointment. */
    method OpenNew()
      modifies this
      ensures editingId == None
      ensures appointments == old(appointments) && nextId == old(nextId) && currentDate == old(currentDate)
    {
      editingId := None;
    }

    /** `editAppointment(id)`: opens the form on the record with that id, if any. */
    method Edit(id: nat)
      modifies this
      ensures editingId == if IndexOfId(appointments, id) == -1 then old(editingId) else Some(id)
      ensures appointments == old(appointments) && nextId == old(nextId) && currentDate == old(currentDate)
    {
      if IndexOfId(appointments, id) != -1 {
        editingId := Some(id);
      }
    }

    /** `closeAppointmentModal()`. */
    method CloseModal()
      modifies this
      ensures editingId == None
      ensures appointments == old(appointments) && nextId == old(nextId) && currentDate == old(currentDate)
    {
      editingId := None;
    }

    /** `saveAppointment` (scheduling.js:353-416): an edit merges the form into the
        record with the edited id, keeping its place (nothing happens when the id is
        gone); otherwise the form is appended as one new record, or as all its
        repeats when the repeat box is ticked. The form closes either way. */
    method Save(data: AppointmentData, now: int)
      requires Valid()
      modifies this
      ensures Valid()
      ensures editingId == None && currentDate == old(currentDate)
      ensures old(editingId).Some? ==>
                var i := IndexOfId(old(appointments), old(editingId).value);
                nextId == old(nextId)
                && appointments == if i == -1 then old(appointments)
                                   else old(appointments)[i := Merge(old(appointments)[i], data, now)]
      ensures old(editingId).None? && data.recurring.Some? ==>
                var copies := Recurrences(data, old(nextId), now);
                appointments == old(appointments) + copies && nextId == old(nextId) + |copies|
      ensures old(editingId).None? && data.recurring.None? ==>
                appointments == old(appointments) + [NewAppointment(old(nextId), data, now)]
                && nextId == old(nextId) + 1
    {
      if editingId.Some? {
        var i := IndexOfId(appointments, editingId.value);
        if i != -1 {
          IdsFreshUpdate(appointments, nextId, i, Merge(appointments[i], data, now));
          appointments := appointments[i := Merge(appointments[i], data, now)];
        }
      } else if data.recurring.Some? {
        var copies := GenerateRecurringAppointments(data, nextId, now);
        RecurrenceIds(data, nextId, now);
        IdsFreshAppend(appointments, copies, nextId);
        appointments := appointments + copies;
        nextId := nextId + |copies|;
      } else {
        IdsFreshAppend(appointments, [NewAppointment(nextId, data, now)], nextId);
        appointments := appointments + [NewAppointment(nextId, data, now)];
        nextId := nextId + 1;
      }
      editingId := None;
    }

    /** `toggleAppointmentStatus(id)`: the record with that id moves to the next
        status of the cycle; nothing else changes, and an unknown id changes nothing. */
    method ToggleStatus(id: nat)
      requires Valid()
      modifies this
      ensures Valid()
      ensures var i := IndexOfId(old(appointments), id);
              appointments == if i == -1 then old(appointments)
                               else old(appointments)[i := old(appointments)[i].(data := old(appointments)[i].data.(status := NextStatus(old(appointments)[i].data.status)))]
      ensures nextId == old(nextId) && editingId == old(editingId) && currentDate == old(currentDate)
    {
      var i := IndexOfId(appointments, id);
      if i != -1 {
        var a := appointments[i];
        IdsFreshUpdate(appointments, nextId, i, a.(data := a.data.(status := NextStatus(a.data.status))));
        appointments := appointments[i := a.(data := a.data.(status := NextStatus(a.data.status)))];
      }
    }

    /** `completeAppointment(id)`: the record with that id becomes completed;
        nothing else changes, and an unknown id changes nothing. */
    method Complete(id: nat)
      requires Valid()
      modifies this
      ensures Valid()
      ensures var i := IndexOfId(old(appointments), id);
              appointments == if i == -1 then old(appointments)
                               else old(appointments)[i := old(appointments)[i].(data := old(appointments)[i].data.(status := "completed"))]
      ensures nextId == old(nextId) && editingId == old(editingId) && currentDate == old(currentDate)
    {
      var i := IndexOfId(appointments, id);
      if i != -1 {
        var a := appointments[i];
        appointments := appointments[i := a.(data := a.data.(status := "completed"))];
      }
    }

    /** `deleteAppointment(id)` once the user confirms: every record with that id
        goes, the others stay in order. */
    method Delete(id: nat)
      requires Valid()
      modifies this
      ensures Valid()
      ensures appointments == WithoutId(old(appointments), id)
      ensures nextId == old(nextId) && editingId == old(editingId) && currentDate == old(currentDate)
    {
      WithoutIdKeepsIdsFresh(appointments, nextId, id);
      appointments := WithoutId(appointments, id);
    }

    /** `navigateMonth(direction)` as written: `setMonth(getMonth() + direction)` on
        the full shown date, so the day of month comes along and may roll over
        (see NavigateAsWrittenSkipsFebruary). */
    method NavigateMonth(direction: int)
      requires NormalizeMonth(ToDate(currentDate).year, ToDate(currentDate).month - 1 + direction).0 >= 1
      modifies this
      ensures MonthShifted(ToDate(old(currentDate)), direction, ToDate(currentDate))
      ensures appointments == old(appointments) && nextId == old(nextId) && editingId == old(editingId)
    {
      var shifted := NavigateAsWritten(currentDate, direction);
      currentDate := shifted;
    }

    /** The "today" button: the calendar shows today's month. */
    method GoToday(today: Day)
      modifies this
      ensures currentDate == today
      ensures appointments == old(appointments) && nextId == old(nextId) && editingId == old(editingId)
    {
      currentDate := today;
    }
  }
}
