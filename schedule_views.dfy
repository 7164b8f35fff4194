/** The read-only views of the scheduling screen: the filtered and ordered list
    (`renderAppointments`), resource occupancy (`renderResourceStatus`), the month
    grid and its per-day counts (`renderCalendar`) and the four counters
    (`updateQuickStats`). "Today" is a day number and "now" the milliseconds since
    today's midnight, both taken in UTC. */
module ScheduleViews {
  import opened Wrappers
  import opened Calendar
  import opened Seqs
  import opened Sorting
  import opened Text
  import opened Appointments
  import opened Recurrence

  // ---------------------------------------------------------------- list view

  /** The status filter of the list (scheduling.js:663-666): "all" keeps everything,
      any other value keeps the records whose status is that value lower-cased. */
  predicate ShownUnder(filterStatus: string, a: Appointment) {
    filterStatus == "all" || a.data.status == ToLower(filterStatus)
  }

  /** The list order: by day, then by time of day. */
  predicate ByDateTime(a: Appointment, b: Appointment) {
    a.data.date < b.data.date || (a.data.date == b.data.date && a.data.time <= b.data.time)
  }

  lemma ByDateTimeIsTotalPreorder()
    ensures TotalPreorder(ByDateTime)
  {
  }

  /** The rows of the appointment list (scheduling.js:663-673). */
  function ListView(appointments: seq<Appointment>, filterStatus: string): seq<Appointment> {
    SortBy(Filter(appointments, (a: Appointment) => ShownUnder(filterStatus, a)), ByDateTime)
  }

  /** The list holds exactly the stored records the filter accepts, each as often as
      it is stored, in (day, time) order; records with the same day and time keep
      their stored order. */
  lemma ListViewSpec(appointments: seq<Appointment>, filterStatus: string, k: Appointment)
    ensures var r := ListView(appointments, filterStatus);
            && multiset(r) == multiset(Filter(appointments, (a: Appointment) => ShownUnder(filterStatus, a)))
            && (forall a :: a in r <==> a in appointments && ShownUnder(filterStatus, a))
            && SortedBy(r, ByDateTime)
            && Filter(r, y => Equivalent(ByDateTime, y, k))
               == Filter(Filter(appointments, (a: Appointment) => ShownUnder(filterStatus, a)), y => Equivalent(ByDateTime, y, k))
  {
    var kept := Filter(appointments, (a: Appointment) => ShownUnder(filterStatus, a));
    var r := ListView(appointments, filterStatus);
    ByDateTimeIsTotalPreorder();
    SortBySorted(kept, ByDateTime);
    SortByStable(kept, ByDateTime, k);
    forall a
      ensures a in r <==> a in appointments && ShownUnder(filterStatus, a)
    {
      assert a in r <==> a in multiset(r);
      assert a in kept <==> a in multiset(kept);
      if a in appointments && ShownUnder(filterStatus, a) {
        var i :| 0 <= i < |appointments| && appointments[i] == a;
      }
      if a in kept {
        var i :| 0 <= i < |kept| && kept[i] == a;
      }
    }
  }

  /** With the filter "all" the list is a reordering of the whole store. */
  lemma ListViewAll(appointments: seq<Appointment>)
    ensures multiset(ListView(appointments, "all")) == multiset(appointments)
  {
    FilterKeepsAll(appointments, (a: Appointment) => ShownUnder("all", a));
  }

  // ---------------------------------------------------------------- occupancy

  /** Appointment a holds `resource` at instant `now` of day `today`: booked on that
      resource for today, neither completed nor cancelled, and now lies between its
      start and its end, both included (scheduling.js:866-874). */
  predicate Occupies(a: Appointment, resource: string, today: Day, now: nat) {
    && a.data.resource == Some(resource)
    && a.data.date == today
    && a.data.status != "completed" && a.data.status != "cancelled"
    && a.data.time * MillisPerMinute <= now <= (a.data.time + EffectiveDuration(a.data)) * MillisPerMinute
  }

  /** `appointments.some(...)`: whether the resource card shows "In Use". */
  function ResourceInUse(appointments: seq<Appointment>, resource: string, today: Day, now: nat): (b: bool)
    ensures b <==> exists i :: 0 <= i < |appointments| && Occupies(appointments[i], resource, today, now)
  {
    if appointments == [] then false
    else if Occupies(appointments[0], resource, today, now) then true
    else
      var b := ResourceInUse(appointments[1..], resource, today, now);
      assert forall i :: 1 <= i < |appointments| ==> appointments[i] == appointments[1..][i - 1];
      b
  }

  /** Dryer 1 booked 2024-03-01 at 09:00 for an hour and confirmed is in use at 09:30
      and at 10:00, free at 10:30, and free once the booking is completed. */
  lemma DryerExample(a: Appointment, today: Day)
    requires a.data.resource == Some("Dryer 1") && a.data.date == today
    requires a.data.time == 540 && a.data.duration == Some(60) && a.data.status == "confirmed"
    ensures ResourceInUse([a], "Dryer 1", today, 570 * MillisPerMinute)
    ensures ResourceInUse([a], "Dryer 1", today, 600 * MillisPerMinute)
    ensures !ResourceInUse([a], "Dryer 1", today, 630 * MillisPerMinute)
    ensures !ResourceInUse([a.(data := a.data.(status := "completed"))], "Dryer 1", today, 570 * MillisPerMinute)
  {
    assert Occupies(a, "Dryer 1", today, 570 * MillisPerMinute);
    assert Occupies(a, "Dryer 1", today, 600 * MillisPerMinute);
  }

  // ---------------------------------------------------------------- calendar

  /** Appointments on day d (scheduling.js:522). */
  function DayCount(appointments: seq<Appointment>, d: Day): nat {
    if appointments == [] then 0
    else (if appointments[0].data.date == d then 1 else 0) + DayCount(appointments[1..], d)
  }

  /** Appointments on the days lo .. hi-1. */
  function RangeCount(appointments: seq<Appointment>, lo: int, hi: int): nat {
    if appointments == [] then 0
    else (if lo <= appointments[0].data.date < hi then 1 else 0) + RangeCount(appointments[1..], lo, hi)
  }

  /** No range holds more appointments than the store. */
  lemma {:induction false} RangeCountBound(appointments: seq<Appointment>, lo: int, hi: int)
    ensures RangeCount(appointments, lo, hi) <= |appointments|
  {
    if appointments != [] {
      RangeCountBound(appointments[1..], lo, hi);
    }
  }

  /** `new Date(year, monthIndex + 1, 0).getDate()`: the length of the shown month. */
  function MonthLength(year: int, monthIndex: int): (n: int)
    requires year >= 1 && 0 <= monthIndex < 12
    ensures 28 <= n <= 31 && n == DaysInMonth(year, monthIndex + 1)
  {
    NewDateZero(year, monthIndex + 1);
    ToDate(NewDate(year, monthIndex + 1, 0)).day
  }

  /** `new Date(year, monthIndex, 1).getDay()`: the empty cells before day 1. The
      constructor reads a year of 1 to 99 as 1900 + year, so such a month is laid out
      on the weekdays of the year 1900 later. */
  function LeadingBlanks(year: int, monthIndex: int): (b: int)
    requires year >= 1 && 0 <= monthIndex < 12
    ensures 0 <= b < 7
    ensures b == Weekday(DayNumber(Date(ConstructorYear(year), monthIndex + 1, 1)))
  {
    NewDateInRange(year, monthIndex, 1);
    Weekday(NewDate(year, monthIndex, 1))
  }

  /** January of year 50 opens on the weekday of 1 January 1950, a Sunday, so the
      grid has no blank cells, although 1 January of year 50 was a Saturday. */
  lemma TwoDigitYearBlanks()
    ensures LeadingBlanks(50, 0) == 0
    ensures Weekday(DayNumber(Date(50, 1, 1))) == 6
  {
    NewYear1950();
    NewYear50();
  }

  lemma NewYear1950()
    ensures Weekday(DayNumber(Date(1950, 1, 1))) == 0
  {
    DaysBeforeYearClosed(1950);
    assert DaysBeforeYear(1950) == 711857;
    assert DayNumber(Date(1950, 1, 1)) == DaysBeforeYear(1950);
  }

  lemma NewYear50()
    ensures Weekday(DayNumber(Date(50, 1, 1))) == 6
  {
    DaysBeforeYearClosed(50);
    assert DaysBeforeYear(50) == 17897;
    assert DayNumber(Date(50, 1, 1)) == DaysBeforeYear(50);
  }


  /** The counts of n consecutive days from day `first`. */
  function DayCounts(appointments: seq<Appointment>, first: Day, n: nat): (r: seq<nat>)
    ensures |r| == n
    ensures forall i :: 0 <= i < n ==> r[i] == DayCount(appointments, first + i)
  {
    if n == 0 then [] else DayCounts(appointments, first, n - 1) + [DayCount(appointments, first + n - 1)]
  }

  /** The count shown on each day cell of the month. */
  function MonthCounts(appointments: seq<Appointment>, year: int, monthIndex: int): (r: seq<nat>)
    requires year >= 1 && 0 <= monthIndex < 12
    ensures |r| == DaysInMonth(year, monthIndex + 1)
    ensures forall i :: 0 <= i < |r| ==> r[i] == DayCount(appointments, DayNumber(Date(year, monthIndex + 1, 1)) + i)
  {
    DayCounts(appointments, DayNumber(Date(year, monthIndex + 1, 1)), DaysInMonth(year, monthIndex + 1))
  }

  function Sum(s: seq<nat>): nat {
    if s == [] then 0 else Sum(s[..|s| - 1]) + s[|s| - 1]
  }

  /** One more day in a range adds that day's appointments. */
  lemma {:induction false} RangeCountStep(appointments: seq<Appointment>, lo: int, hi: int)
    requires lo <= hi && hi >= 0
    ensures RangeCount(appointments, lo, hi + 1) == RangeCount(appointments, lo, hi) + DayCount(appointments, hi)
  {
    if appointments != [] {
      RangeCountStep(appointments[1..], lo, hi);
    }
  }

  /** The day counts of n consecutive days add up to the appointments in those days. */
  lemma {:induction false} DayCountsTotal(appointments: seq<Appointment>, first: Day, n: nat)
    ensures Sum(DayCounts(appointments, first, n)) == RangeCount(appointments, first, first + n)
  {
    if n == 0 {
      EmptyRange(appointments, first);
    } else {
      var r := DayCounts(appointments, first, n);
      DayCountsTotal(appointments, first, n - 1);
      assert r[..n - 1] == DayCounts(appointments, first, n - 1);
      RangeCountStep(appointments, first, first + n - 1);
    }
  }

  /** The day counts of a month add up to the appointments dated in that month. */
  lemma MonthCountsTotal(appointments: seq<Appointment>, year: int, monthIndex: int)
    requires year >= 1 && 0 <= monthIndex < 12
    ensures var first := DayNumber(Date(year, monthIndex + 1, 1));
            Sum(MonthCounts(appointments, year, monthIndex))
              == RangeCount(appointments, first, first + DaysInMonth(year, monthIndex + 1))
  {
    DayCountsTotal(appointments, DayNumber(Date(year, monthIndex + 1, 1)), DaysInMonth(year, monthIndex + 1));
  }

  lemma {:induction false} EmptyRange(appointments: seq<Appointment>, lo: int)
    ensures RangeCount(appointments, lo, lo) == 0
  {
    if appointments != [] {
      EmptyRange(appointments[1..], lo);
    }
  }

  // ---------------------------------------------------------------- counters

  /** "Today" (scheduling.js:830). */
  function TodayCount(appointments: seq<Appointment>, today: Day): nat {
    DayCount(appointments, today)
  }

  /** Sunday of the week that holds `today`. */
  function WeekStart(today: Day): (s: int)
    ensures today - 6 <= s <= today
  {
    today - Weekday(today)
  }

  /** "This week": the appointments from Sunday to Saturday of the current week. */
  function WeekCount(appointments: seq<Appointment>, today: Day): nat {
    RangeCount(appointments, WeekStart(today), WeekStart(today) + 7)
  }

  predicate IsPending(a: Appointment) {
    a.data.status == "pending"
  }

  predicate NotPending(a: Appointment) {
    a.data.status != "pending"
  }

  /** `apt.recurring` is set: the record carries repeat settings. */
  predicate Repeats(a: Appointment) {
    a.data.recurring.Some?
  }

  /** "Pending" (scheduling.js:846). */
  function PendingCount(appointments: seq<Appointment>): nat {
    Count(appointments, IsPending)
  }

  /** "Recurring": every record that carries repeat settings, copies included
      (scheduling.js:850). */
  function RecurringCount(appointments: seq<Appointment>): nat {
    Count(appointments, Repeats)
  }

  /** Every record is pending or in another status: "Pending" and the records in the
      other statuses add up to the store. */
  lemma PendingCountSplits(appointments: seq<Appointment>)
    ensures PendingCount(appointments) + Count(appointments, NotPending) == |appointments|
  {
    CountComplement(appointments, IsPending, NotPending);
  }

  /** Saving a new repeating booking raises "Recurring" by the number of its copies,
      since every copy keeps the repeat settings; a new single booking, which has
      none, leaves it as it was. */
  lemma SaveRecurringCount(appointments: seq<Appointment>, data: AppointmentData, firstId: nat, now: int)
    ensures data.recurring.Some? ==>
              RecurringCount(appointments + Recurrences(data, firstId, now))
              == RecurringCount(appointments) + |Recurrences(data, firstId, now)|
    ensures data.recurring.None? ==>
              RecurringCount(appointments + [NewAppointment(firstId, data, now)]) == RecurringCount(appointments)
  {
    if data.recurring.Some? {
      var copies := Recurrences(data, firstId, now);
      forall i | 0 <= i < |copies| ensures Repeats(copies[i]) {
        RecurrenceAt(data, firstId, now, i);
      }
      FilterKeepsAll(copies, Repeats);
      FilterAppend(appointments, copies, Repeats);
    } else {
      var single := [NewAppointment(firstId, data, now)];
      FilterAppend(appointments, single, Repeats);
      assert single[1..] == [];
    }
  }

  /** The week runs from a Sunday and holds today. */
  lemma WeekHoldsToday(today: Day)
    ensures WeekStart(today) >= 0 ==> Weekday(WeekStart(today)) == 0
    ensures WeekStart(today) <= today < WeekStart(today) + 7
  {
  }

  /** Every appointment of today is one of this week's. */
  lemma {:induction false} TodayWithinWeek(appointments: seq<Appointment>, today: Day)
    ensures TodayCount(appointments, today) <= WeekCount(appointments, today)
  {
    if appointments != [] {
      TodayWithinWeek(appointments[1..], today);
    }
  }

  /** The week counter as written (scheduling.js:834-842): the window runs from
      Sunday at the current time of day to Saturday at the same time, and each
      appointment is taken at midnight of its day. */
  function WeekCountAsWritten(appointments: seq<Appointment>, today: Day, now: nat): nat {
    InstantCount(appointments, WeekStart(today) * MillisPerDay + now, (WeekStart(today) + 6) * MillisPerDay + now)
  }

  /** Appointments whose midnight lies between two instants, both included. */
  function InstantCount(appointments: seq<Appointment>, from: int, to: int): nat {
    if appointments == [] then 0
    else (if from <= appointments[0].data.date * MillisPerDay <= to then 1 else 0)
         + InstantCount(appointments[1..], from, to)
  }

  /** As written, any time after midnight the window covers Monday to Saturday only. */
  lemma {:induction false} WeekCountAsWrittenWindow(appointments: seq<Appointment>, today: Day, now: nat)
    requires 0 < now < MillisPerDay
    ensures WeekCountAsWritten(appointments, today, now)
            == RangeCount(appointments, WeekStart(today) + 1, WeekStart(today) + 7)
  {
    if appointments != [] {
      WeekCountAsWrittenWindow(appointments[1..], today, now);
    }
  }

  /** As written, once the clock is past midnight the window drops the week's Sunday:
      on a Sunday at 10:00 an appointment booked for today counts for "Today" but not
      for "This week". */
  lemma WeekCountAsWrittenMissesSunday(a: Appointment, today: Day)
    requires Weekday(today) == 0 && a.data.date == today
    ensures TodayCount([a], today) == 1
    ensures WeekCountAsWritten([a], today, 600 * MillisPerMinute) == 0
    ensures WeekCount([a], today) == 1
  {
    var s := [a];
    assert WeekStart(today) == today;
    assert s[0] == a && s[1..] == [];
    assert DayCount(s, today) == 1 + DayCount([], today);
    assert RangeCount(s, today, today + 7) == 1 + RangeCount([], today, today + 7);
    var now := 600 * MillisPerMinute;
    assert InstantCount(s, today * MillisPerDay + now, (today + 6) * MillisPerDay + now)
        == 0 + InstantCount([], today * MillisPerDay + now, (today + 6) * MillisPerDay + now);
  }
}
