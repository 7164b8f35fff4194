/** "How long ago" as the customer table (js/crm.js:211-222) and the content list
    (js/marketing.js:820-831) both compute it: the absolute distance between two
    instants rounded up to whole days, then bucketed into yesterday, days, weeks and
    longer. */
module RelativeTime {
  import opened Calendar

  /** `Math.ceil(Math.abs(now - then) / (1000 * 60 * 60 * 24))`. */
  function ElapsedDays(since: int, now: int): (d: nat)
    ensures d == 0 <==> since == now
    ensures var gap := if now >= since then now - since else since - now;
            (d - 1) * MillisPerDay < gap <= d * MillisPerDay
  {
    var gap := if now >= since then now - since else since - now;
    (gap + MillisPerDay - 1) / MillisPerDay
  }

  datatype Age = Yesterday | DaysAgo(days: nat) | WeeksAgo(weeks: nat) | Older(months: nat)

  /** The bucket of a distance of d whole days: exactly one day is "yesterday", up
      to six days count days (zero included), up to 29 count whole weeks, and beyond
      that whole months of thirty days. */
  function AgeOf(d: nat): (a: Age)
    ensures a == Yesterday <==> d == 1
    ensures a.DaysAgo? <==> d != 1 && d < 7
    ensures a.DaysAgo? ==> a.days == d
    ensures a.WeeksAgo? <==> 7 <= d < 30
    ensures a.WeeksAgo? ==> 1 <= a.weeks <= 4 && 7 * a.weeks <= d < 7 * a.weeks + 7
    ensures a.Older? <==> 30 <= d
    ensures a.Older? ==> 1 <= a.months && 30 * a.months <= d < 30 * a.months + 30
  {
    if d == 1 then Yesterday
    else if d < 7 then DaysAgo(d)
    else if d < 30 then WeeksAgo(d / 7)
    else Older(d / 30)
  }

  /** The order of the buckets. */
  function Rank(a: Age): nat {
    match a
    case DaysAgo(n) => if n == 0 then 0 else 2
    case Yesterday => 1
    case WeeksAgo(_) => 3
    case Older(_) => 4
  }

  /** A longer distance never falls in an earlier bucket, and within a bucket never
      shows a smaller count. */
  lemma AgeMonotone(d1: nat, d2: nat)
    requires d1 <= d2
    ensures Rank(AgeOf(d1)) <= Rank(AgeOf(d2))
    ensures AgeOf(d1).WeeksAgo? && AgeOf(d2).WeeksAgo? ==> AgeOf(d1).weeks <= AgeOf(d2).weeks
    ensures AgeOf(d1).Older? && AgeOf(d2).Older? ==> AgeOf(d1).months <= AgeOf(d2).months
  {
    assert d1 / 7 <= d2 / 7;
    assert d1 / 30 <= d2 / 30;
  }
}
