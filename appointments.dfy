/** Appointment records of the scheduling screen (scheduling.js) and the pure rules
    about a single record: the fields a save writes, the merge an edit performs, the
    four-state status cycle and the default length of an appointment.

    Dates are day numbers (the `YYYY-MM-DD` strings of the store, see FullDate),
    times of day are minutes since midnight, timestamps are milliseconds, and ids
    are the numbers the store hands out in order. */
module Appointments {
  import opened Wrappers
  import opened Calendar

  /** How an appointment repeats: `frequency` as chosen, the `Repeat until` day (None
      for an empty field, which JavaScript reads as an invalid date), the first day,
      and the 1-based position among the generated copies. */
  datatype Recurrence = Recurrence(
    frequency: string,
    endDate: Option<Day>,
    originalDate: Day,
    instance: Option<nat>)

  /** The fields `saveAppointment` reads from the form; `recurring` is present only
      when the repeat box is ticked. `resource` is None for "Any Available", and
      `duration` is None when the field does not read as a number. */
  datatype AppointmentData = AppointmentData(
    customer: string,
    phone: string,
    service: string,
    resource: Option<string>,
    date: Day,
    time: nat,
    duration: Option<int>,
    status: string,
    notes: string,
    recurring: Option<Recurrence>)

  /** A stored appointment: an id, the saved fields and the two timestamps. */
  datatype Appointment = Appointment(
    id: nat,
    data: AppointmentData,
    createdAt: Option<int>,
    updatedAt: Option<int>)

  /** The data an edit stores: the new fields over the old record; the old repeat
      settings survive when the form has none, since a spread only overwrites the
      keys it has. */
  function Merged(prev: AppointmentData, form: AppointmentData): (r: AppointmentData)
    ensures r.recurring == if form.recurring.Some? then form.recurring else prev.recurring
    ensures r.(recurring := form.recurring) == form
  {
    if form.recurring.Some? then form else form.(recurring := prev.recurring)
  }

  /** The record an edit stores (scheduling.js:383-387): same id and creation time,
      the merged fields and a new `updatedAt`. */
  function Merge(a: Appointment, form: AppointmentData, now: int): (r: Appointment)
    ensures r.id == a.id && r.createdAt == a.createdAt && r.updatedAt == Some(now)
    ensures r.data == Merged(a.data, form)
  {
    Appointment(a.id, Merged(a.data, form), a.createdAt, Some(now))
  }

  /** Saving the fields a record already has changes only its `updatedAt`. */
  lemma MergeOwnData(a: Appointment, now: int)
    ensures Merge(a, a.data, now) == a.(updatedAt := Some(now))
  {
  }

  /** A second edit with the same form changes nothing but the timestamp. */
  lemma MergeIdempotent(a: Appointment, form: AppointmentData, t1: int, t2: int)
    ensures Merge(Merge(a, form, t1), form, t2) == Merge(a, form, t2)
  {
  }

  /** A new single appointment (scheduling.js:399-403). */
  function NewAppointment(id: nat, form: AppointmentData, now: int): (r: Appointment)
    ensures r.id == id && r.data == form
    ensures r.createdAt == Some(now) && r.updatedAt.None?
  {
    Appointment(id, form, Some(now), None)
  }

  /** The statuses in the order the toggle walks them. */
  const StatusOrder: seq<string> := ["pending", "confirmed", "completed", "cancelled"]

  /** `Array.prototype.indexOf`: first position of s, or -1. */
  function IndexOf(list: seq<string>, s: string): (i: int)
    ensures -1 <= i < |list|
    ensures 0 <= i ==> list[i] == s && forall j :: 0 <= j < i ==> list[j] != s
    ensures i == -1 <==> s !in list
  {
    if list == [] then -1
    else if list[0] == s then 0
    else
      var j := IndexOf(list[1..], s);
      if j == -1 then -1 else j + 1
  }

  /** The status after one press of the toggle (scheduling.js:736-741). */
  function NextStatus(s: string): (r: string)
    ensures r in StatusOrder
  {
    StatusOrder[(IndexOf(StatusOrder, s) + 1) % |StatusOrder|]
  }

  /** pending, confirmed, completed and cancelled follow each other in a cycle. */
  lemma StatusCycle()
    ensures NextStatus("pending") == "confirmed"
    ensures NextStatus("confirmed") == "completed"
    ensures NextStatus("completed") == "cancelled"
    ensures NextStatus("cancelled") == "pending"
  {
    NextAt(0);
    NextAt(1);
    NextAt(2);
    NextAt(3);
  }

  /** The status after the i-th listed one is the next listed one, wrapping to the
      first after the last. */
  lemma NextAt(i: nat)
    requires i < |StatusOrder|
    ensures NextStatus(StatusOrder[i])
            == if i + 1 < |StatusOrder| then StatusOrder[i + 1] else StatusOrder[0]
  {
    StatusesDistinct();
    var k := IndexOf(StatusOrder, StatusOrder[i]);
    assert StatusOrder[k] == StatusOrder[i] && k == i;
    if i + 1 < |StatusOrder| {
      assert (k + 1) % |StatusOrder| == i + 1;
    } else {
      assert (k + 1) % |StatusOrder| == 0;
    }
  }

  /** The four listed statuses are different words. */
  lemma StatusesDistinct()
    ensures forall j, k :: 0 <= j < k < |StatusOrder| ==> StatusOrder[j] != StatusOrder[k]
  {
    var p, f, m, c := StatusOrder[0], StatusOrder[1], StatusOrder[2], StatusOrder[3];
    assert |p| == 7 && |f| == 9 && |m| == 9 && |c| == 9;
    assert f[3] == 'f' && m[3] == 'p' && c[1] == 'a' && f[1] == 'o' && m[1] == 'o';
  }

  /** A status outside the list becomes pending. */
  lemma UnknownStatusBecomesPending(s: string)
    requires s !in StatusOrder
    ensures NextStatus(s) == "pending"
  {
  }

  /** Four presses bring every listed status back. */
  lemma FourTogglesRestore(s: string)
    requires s in StatusOrder
    ensures NextStatus(NextStatus(NextStatus(NextStatus(s)))) == s
  {
    assert s == "pending" || s == "confirmed" || s == "completed" || s == "cancelled";
    StatusCycle();
  }

  /** `duration || 60`: a missing or zero length counts as an hour. */
  function EffectiveDuration(d: AppointmentData): (m: int)
    ensures d.duration.Some? && d.duration.value != 0 ==> m == d.duration.value
    ensures d.duration.None? || d.duration.value == 0 ==> m == 60
  {
    match d.duration
    case Some(v) => if v != 0 then v else 60
    case None => 60
  }
}
