/** Clock times as minutes since today's midnight, read from and written as `HH:MM`
    (`parseTime` and `formatTime` in scheduling.js). */
module TimeOfDay {
  import opened Wrappers
  import opened Text

  const MinutesPerDay: nat := 1440

  /** `Number(piece)` for a piece made of decimal digits; the empty piece reads as 0,
      as it does in JavaScript. */
  function ReadNumber(p: string): (r: Option<nat>)
    ensures r.Some? <==> AllDigits(p)
  {
    if AllDigits(p) then Some(DigitsValue(p)) else None
  }

  /** `parseTime`: `setHours(hours, minutes)` on today's date, as minutes since
      midnight; hours and minutes past their range carry over into the next hours and
      days. The pieces after a second colon are ignored; a missing or unreadable piece
      gives an invalid date, here None. */
  function ParseTime(s: string): Option<nat> {
    var parts := Split(s, ':');
    if |parts| < 2 then None
    else
      match (ReadNumber(parts[0]), ReadNumber(parts[1]))
      case (Some(h), Some(m)) => Some(60 * h + m)
      case _ => None
  }

  /** `formatTime`: the `HH:MM` of the local clock at minute t of the timeline that
      starts at today's midnight. */
  function FormatTime(t: nat): (s: string)
    ensures |s| == 5 && s[2] == ':'
    ensures AllDigits(s[..2]) && AllDigits(s[3..])
  {
    var s := Padded((t / 60) % 24, 2) + ":" + Padded(t % 60, 2);
    assert s[..2] == Padded((t / 60) % 24, 2) && s[3..] == Padded(t % 60, 2);
    s
  }

  lemma DigitsHaveNoColon(s: string)
    requires AllDigits(s)
    ensures ':' !in s
  {
  }

  /** Reading a formatted time gives back the minute of the day. */
  lemma ParseFormatTime(t: nat)
    ensures ParseTime(FormatTime(t)) == Some(t % MinutesPerDay)
  {
    var h, m := (t / 60) % 24, t % 60;
    assert FormatTime(t) == Padded(h, 2) + ":" + Padded(m, 2);
    ParseCanonicalTime(h, m);
    MinuteOfDay(t);
  }

  /** Within one day, a formatted time reads back exactly. */
  lemma ParseFormatTimeWithinDay(t: nat)
    requires t < MinutesPerDay
    ensures ParseTime(FormatTime(t)) == Some(t)
  {
    assert t % MinutesPerDay == t;
    ParseFormatTime(t);
  }

  lemma MinuteOfDay(t: nat)
    ensures 60 * ((t / 60) % 24) + t % 60 == t % MinutesPerDay
  {
    var q, k := t / 60, t / 60 / 24;
    assert t == 60 * q + t % 60;
    assert q == 24 * k + q % 24;
    assert t == 1440 * k + (60 * (q % 24) + t % 60);
  }

  /** A well-formed `HH:MM` reads as its minute of the day. */
  lemma ParseCanonicalTime(h: nat, m: nat)
    requires h < 24 && m < 60
    ensures ParseTime(Padded(h, 2) + ":" + Padded(m, 2)) == Some(60 * h + m)
  {
    var a, b := Padded(h, 2), Padded(m, 2);
    DigitsHaveNoColon(a);
    DigitsHaveNoColon(b);
    SplitTwo(a, b, ':');
    assert a + ":" + b == a + [':'] + b;
    PaddedValue(h, 2);
    PaddedValue(m, 2);
  }

  /** A minute of the day is written as its hour and minute, each in two digits. */
  lemma FormatCanonicalTime(h: nat, m: nat)
    requires h < 24 && m < 60
    ensures FormatTime(60 * h + m) == Padded(h, 2) + ":" + Padded(m, 2)
  {
    HourAndMinute(h, m);
  }

  lemma HourAndMinute(h: nat, m: nat)
    requires h < 24 && m < 60
    ensures (60 * h + m) / 60 % 24 == h && (60 * h + m) % 60 == m
  {
  }

  /** Text without a colon is not a time. */
  lemma ParseTimeNeedsColon(s: string)
    requires ':' !in s
    ensures ParseTime(s) == None
  {
    SplitPrefix(s, [], ':');
    assert s + [] == s;
  }
}
