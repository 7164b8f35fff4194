/** The time-slot choices of the appointment form (`generateTimeSlots`,
    scheduling.js:278-296): from the opening time, one slot every `slotDuration`
    minutes while the slot starts before the closing time. */
module Slots {
  import opened Wrappers
  import opened TimeOfDay
  import opened Seqs

  /** Slot start times from `start`, `step` minutes apart, each before `end`. */
  function SlotStarts(start: nat, end: nat, step: nat): (r: seq<nat>)
    requires step > 0
    ensures r == [] <==> start >= end
    ensures r != [] ==> r[0] == start && r[|r| - 1] + step >= end
    ensures forall i :: 0 <= i < |r| ==> start <= r[i] < end
    decreases if start < end then end - start else 0
  {
    if start < end then [start] + SlotStarts(start + step, end, step) else []
  }

  /** The `HH:MM` label of each time. */
  function Labels(ts: seq<nat>): (r: seq<string>)
  {
    seq(|ts|, i requires 0 <= i < |ts| => FormatTime(ts[i]))
  }

  /** The labels `generateTimeSlots` lists for the configured opening and closing
      times; a time that does not parse is an invalid date, which no comparison
      accepts, so there are then no slots. */
  function SlotLabels(startText: string, endText: string, step: nat): seq<string>
    requires step > 0
  {
    match (ParseTime(startText), ParseTime(endText))
    case (Some(s), Some(e)) => Labels(SlotStarts(s, e, step))
    case _ => []
  }

  /** `generateTimeSlots`: the loop that advances the clock by one slot at a time. */
  method GenerateTimeSlots(startText: string, endText: string, slotDuration: nat)
    returns (slots: seq<string>)
    requires slotDuration > 0
    ensures slots == SlotLabels(startText, endText, slotDuration)
  {
    slots := [];
    var startTime := ParseTime(startText);
    var endTime := ParseTime(endText);
    if startTime.None? || endTime.None? {
      return;
    }
    var s, e := startTime.value, endTime.value;
    ghost var all := Labels(SlotStarts(s, e, slotDuration));
    assert SlotLabels(startText, endText, slotDuration) == all;
    var current := s;
    assert slots + all == all;
    while current < e
      invariant slots + Labels(SlotStarts(current, e, slotDuration)) == all
      decreases e - current
    {
      LabelsStep(current, e, slotDuration);
      AppendAssoc(slots, [FormatTime(current)], Labels(SlotStarts(current + slotDuration, e, slotDuration)));
      slots := slots + [FormatTime(current)];
      current := current + slotDuration;
    }
    assert Labels(SlotStarts(current, e, slotDuration)) == [];
  }

  lemma LabelsCons(t: nat, ts: seq<nat>)
    ensures Labels([t] + ts) == [FormatTime(t)] + Labels(ts)
  {
  }

  /** The labels from a time before closing are its own label and those of the
      following slots. */
  lemma LabelsStep(current: nat, e: nat, step: nat)
    requires step > 0 && current < e
    ensures Labels(SlotStarts(current, e, step))
            == [FormatTime(current)] + Labels(SlotStarts(current + step, e, step))
  {
    var rest := SlotStarts(current + step, e, step);
    assert SlotStarts(current, e, step) == [current] + rest;
    LabelsCons(current, rest);
  }

  /** Slot i starts i slot lengths after the opening time. */
  lemma {:induction false} SlotOffset(start: nat, end: nat, step: nat, i: nat)
    requires step > 0 && i < |SlotStarts(start, end, step)|
    ensures SlotStarts(start, end, step)[i] == start + i * step
    decreases i
  {
    if i > 0 {
      var rest := SlotStarts(start + step, end, step);
      assert start < end;
      assert SlotStarts(start, end, step) == [start] + rest;
      assert SlotStarts(start, end, step)[i] == rest[i - 1];
      SlotOffset(start + step, end, step, i - 1);
      assert rest[i - 1] == start + step + (i - 1) * step;
      assert (i - 1) * step + step == i * step;
    } else {
      assert i * step == 0;
    }
  }

  /** There are as many slots as whole or partial slot lengths fit between the
      opening and the closing time: the last one starts before closing and a
      further one would not. */
  lemma SlotCount(start: nat, end: nat, step: nat)
    requires step > 0 && start < end
    ensures var n := |SlotStarts(start, end, step)|;
            n >= 1 && start + (n - 1) * step < end <= start + n * step
  {
    var n := |SlotStarts(start, end, step)|;
    SlotOffset(start, end, step, n - 1);
    assert start + (n - 1) * step + step == start + n * step;
  }

  /** Within one day, each label reads back as the time of its slot. */
  lemma SlotLabelsReadBack(s: nat, e: nat, step: nat, i: nat)
    requires step > 0 && e <= MinutesPerDay && i < |SlotStarts(s, e, step)|
    ensures ParseTime(Labels(SlotStarts(s, e, step))[i]) == Some(SlotStarts(s, e, step)[i])
  {
    var ts := SlotStarts(s, e, step);
    assert Labels(ts)[i] == FormatTime(ts[i]);
    ParseFormatTimeWithinDay(ts[i]);
  }

  /** The default settings, 08:00 to 20:00 in hour slots, give twelve slots from
      08:00 to 19:00. */
  lemma DefaultSlots(opening: nat, closing: nat, step: nat)
    requires opening == 480 && closing == 1200 && step == 60
    ensures SlotStarts(opening, closing, step) == [480, 540, 600, 660, 720, 780, 840, 900, 960, 1020, 1080, 1140]
  {
    var r := SlotStarts(opening, closing, step);
    DefaultSlotCount(opening, closing, step);
    forall i | 0 <= i < 12
      ensures r[i] == 480 + 60 * i
    {
      SlotOffset(opening, closing, step, i);
      assert i * step == 60 * i;
    }
  }

  lemma DefaultSlotCount(opening: nat, closing: nat, step: nat)
    requires opening == 480 && closing == 1200 && step == 60
    ensures |SlotStarts(opening, closing, step)| == 12
  {
    SlotCount(opening, closing, step);
    var n := |SlotStarts(opening, closing, step)|;
    assert (n - 1) * step == (n - 1) * 60 && n * step == n * 60;
  }
}
