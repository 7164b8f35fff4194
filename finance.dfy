/** The financial records of the business (finance.js): appending a record, the
    per-month buckets behind the charts, the current month's totals, the goal
    progress bars, the recent-transactions view and category labels. Amounts are
    whole cents; dates are the `YYYY-MM-DD` strings the record form produces. */
module Finance {
  import opened Seqs
  import opened Sorting
  import opened Text
  import opened Calendar
  import opened FullDate

  datatype FinancialRecord = FinancialRecord(
    id: nat,
    recordType: string,
    amount: int,
    category: string,
    date: string,
    description: string,
    createdAt: int)

  /** `date.slice(0, 7)`: the `YYYY-MM` part of a date string. */
  function MonthOf(date: string): (k: string)
    ensures |k| == if |date| < 7 then |date| else 7
    ensures StartsWith(date, k)
  {
    if |date| <= 7 then date else date[..7]
  }

  // ---------------------------------------------------------------------------
  // Monthly buckets (finance.js:211-228)

  /** The totals of one month. The buckets are kept in the order their keys were
      first met, which is the order a JavaScript object lists such keys in. */
  datatype Bucket = Bucket(key: string, revenue: int, expenses: int)

  /** A revenue record adds to the revenue, any other record to the expenses. */
  function Credit(b: Bucket, r: FinancialRecord): Bucket {
    if r.recordType == "revenue" then b.(revenue := b.revenue + r.amount)
    else b.(expenses := b.expenses + r.amount)
  }

  function IndexOfKey(months: seq<Bucket>, k: string): int {
    FindIndex(months, (b: Bucket) => b.key, k)
  }

  /** One step of the `forEach`: create the record's bucket when it is missing, then
      credit the record to it. */
  function Post(months: seq<Bucket>, r: FinancialRecord): seq<Bucket> {
    var k := MonthOf(r.date);
    var i := IndexOfKey(months, k);
    if i == -1 then months + [Credit(Bucket(k, 0, 0), r)]
    else months[i := Credit(months[i], r)]
  }

  /** The buckets after posting the records in order. */
  function Grouped(records: seq<FinancialRecord>): seq<Bucket> {
    if records == [] then []
    else Post(Grouped(records[..|records| - 1]), records[|records| - 1])
  }

  /** `groupRecordsByMonth(records)`. */
  method GroupRecordsByMonth(records: seq<FinancialRecord>) returns (months: seq<Bucket>)
    ensures months == Grouped(records)
  {
    months := [];
    for i := 0 to |records|
      invariant months == Grouped(records[..i])
    {
      var r := records[i];
      var k := MonthOf(r.date);
      var j := IndexOfKey(months, k);
      if j == -1 {
        months := months + [Bucket(k, 0, 0)];
        j := |months| - 1;
      }
      months := months[j := Credit(months[j], r)];
      assert records[..i + 1][..i] == records[..i];
    }
    assert records[..|records|] == records;
  }

  /** The revenue of the records dated in month k. */
  function RevenueIn(records: seq<FinancialRecord>, k: string): int {
    if records == [] then 0
    else
      var r := records[|records| - 1];
      RevenueIn(records[..|records| - 1], k)
      + (if MonthOf(r.date) == k && r.recordType == "revenue" then r.amount else 0)
  }

  /** The amounts of the records dated in month k that are not revenue. */
  function ExpensesIn(records: seq<FinancialRecord>, k: string): int {
    if records == [] then 0
    else
      var r := records[|records| - 1];
      ExpensesIn(records[..|records| - 1], k)
      + (if MonthOf(r.date) == k && r.recordType != "revenue" then r.amount else 0)
  }

  function SumAmounts(records: seq<FinancialRecord>): int {
    if records == [] then 0
    else SumAmounts(records[..|records| - 1]) + records[|records| - 1].amount
  }

  function BucketTotal(b: Bucket): int {
    b.revenue + b.expenses
  }

  function SumBuckets(months: seq<Bucket>): int {
    if months == [] then 0
    else SumBuckets(months[..|months| - 1]) + BucketTotal(months[|months| - 1])
  }

  ghost predicate DistinctKeys(months: seq<Bucket>) {
    forall i, j :: 0 <= i < j < |months| ==> months[i].key != months[j].key
  }

  /** No two buckets share a month. */
  lemma {:induction false} GroupedDistinctKeys(records: seq<FinancialRecord>)
    ensures DistinctKeys(Grouped(records))
    decreases |records|
  {
    if records != [] {
      var prev := Grouped(records[..|records| - 1]);
      GroupedDistinctKeys(records[..|records| - 1]);
      var m := Grouped(records);
      var k := MonthOf(records[|records| - 1].date);
      if IndexOfKey(prev, k) == -1 {
        forall i, j | 0 <= i < j < |m| ensures m[i].key != m[j].key {
          if j < |prev| {
            assert m[i] == prev[i] && m[j] == prev[j];
          } else {
            assert m[i] == prev[i] && m[j].key == k;
          }
        }
      }
    }
  }

  /** There is a bucket for month k exactly when some record is dated in month k. */
  lemma {:induction false} GroupedKeys(records: seq<FinancialRecord>, k: string)
    ensures (exists j :: 0 <= j < |Grouped(records)| && Grouped(records)[j].key == k)
            <==> (exists i :: 0 <= i < |records| && MonthOf(records[i].date) == k)
    decreases |records|
  {
    if records != [] {
      var init := records[..|records| - 1];
      var r := records[|records| - 1];
      GroupedKeys(init, k);
      PostKeys(Grouped(init), r, Grouped(records), k);
      DatedSnoc(records, k);
    }
  }

  /** Posting a record adds its month to the bucket keys and keeps the others. */
  lemma PostKeys(months: seq<Bucket>, r: FinancialRecord, m: seq<Bucket>, k: string)
    requires m == Post(months, r)
    ensures (exists j :: 0 <= j < |m| && m[j].key == k)
            <==> (exists j :: 0 <= j < |months| && months[j].key == k) || MonthOf(r.date) == k
  {
    var i := IndexOfKey(months, MonthOf(r.date));
    assert |m| == if i == -1 then |months| + 1 else |months|;
    assert forall j :: 0 <= j < |months| ==> m[j].key == months[j].key;
    if MonthOf(r.date) == k {
      var j := if i == -1 then |months| else i;
      assert m[j].key == k;
    }
    if exists j :: 0 <= j < |m| && m[j].key == k {
      var j :| 0 <= j < |m| && m[j].key == k;
      if j < |months| {
        assert months[j].key == k;
      }
    }
  }

  /** The last record adds its month to the months the records before it are
      dated in. */
  lemma DatedSnoc(records: seq<FinancialRecord>, k: string)
    requires records != []
    ensures var init, r := records[..|records| - 1], records[|records| - 1];
            (exists i :: 0 <= i < |records| && MonthOf(records[i].date) == k)
            <==> (exists i :: 0 <= i < |init| && MonthOf(init[i].date) == k) || MonthOf(r.date) == k
  {
    var init, r := records[..|records| - 1], records[|records| - 1];
    assert forall i :: 0 <= i < |init| ==> records[i] == init[i];
    if exists i :: 0 <= i < |records| && MonthOf(records[i].date) == k {
      var i :| 0 <= i < |records| && MonthOf(records[i].date) == k;
      if i < |init| {
        assert MonthOf(init[i].date) == k;
      }
    }
  }

  /** Each bucket holds the revenue of its month and every other amount of its
      month as expenses. */
  ghost predicate HoldsTotals(m: seq<Bucket>, records: seq<FinancialRecord>) {
    forall j :: 0 <= j < |m| ==>
      m[j].revenue == RevenueIn(records, m[j].key) && m[j].expenses == ExpensesIn(records, m[j].key)
  }

  lemma {:induction false} GroupedTotals(records: seq<FinancialRecord>)
    ensures HoldsTotals(Grouped(records), records)
    decreases |records|
  {
    if records != [] {
      var init := records[..|records| - 1];
      var r := records[|records| - 1];
      var prev := Grouped(init);
      var m := Grouped(records);
      GroupedTotals(init);
      GroupedDistinctKeys(init);
      var k := MonthOf(r.date);
      var i := IndexOfKey(prev, k);
      forall j | 0 <= j < |m|
        ensures m[j].revenue == RevenueIn(records, m[j].key) && m[j].expenses == ExpensesIn(records, m[j].key)
      {
        var key := m[j].key;
        assert RevenueIn(records, key)
               == RevenueIn(init, key) + (if k == key && r.recordType == "revenue" then r.amount else 0);
        assert ExpensesIn(records, key)
               == ExpensesIn(init, key) + (if k == key && r.recordType != "revenue" then r.amount else 0);
        if j < |prev| && j != i {
          assert m[j] == prev[j];
          if i != -1 {
            assert prev[j].key != prev[i].key;
          }
        } else if j == |prev| && i == -1 {
          assert m[j] == Credit(Bucket(k, 0, 0), r);
          NoBucketNoTotals(init, k);
        } else {
          assert m[j] == Credit(prev[j], r);
        }
      }
    }
  }

  /** A month without a bucket has no amounts. */
  lemma NoBucketNoTotals(records: seq<FinancialRecord>, k: string)
    requires IndexOfKey(Grouped(records), k) == -1
    ensures RevenueIn(records, k) == 0 && ExpensesIn(records, k) == 0
  {
    GroupedKeys(records, k);
    NoRecordNoTotals(records, k);
  }

  lemma {:induction false} NoRecordNoTotals(records: seq<FinancialRecord>, k: string)
    requires forall i :: 0 <= i < |records| ==> MonthOf(records[i].date) != k
    ensures RevenueIn(records, k) == 0 && ExpensesIn(records, k) == 0
    decreases |records|
  {
    if records != [] {
      var init := records[..|records| - 1];
      assert forall i :: 0 <= i < |init| ==> init[i] == records[i];
      NoRecordNoTotals(init, k);
    }
  }

  lemma {:induction false} SumBucketsUpdate(months: seq<Bucket>, i: nat, b: Bucket)
    requires i < |months|
    ensures SumBuckets(months[i := b]) == SumBuckets(months) - BucketTotal(months[i]) + BucketTotal(b)
    decreases |months|
  {
    var n := |months|;
    var u := months[i := b];
    assert u[..n - 1] == if i == n - 1 then months[..n - 1] else months[..n - 1][i := b];
    if i < n - 1 {
      SumBucketsUpdate(months[..n - 1], i, b);
    }
  }

  /** The buckets together hold every amount once: nothing is lost or counted twice. */
  lemma {:induction false} GroupedConserves(records: seq<FinancialRecord>)
    ensures SumBuckets(Grouped(records)) == SumAmounts(records)
    decreases |records|
  {
    if records != [] {
      var init := records[..|records| - 1];
      var r := records[|records| - 1];
      var prev := Grouped(init);
      GroupedConserves(init);
      var i := IndexOfKey(prev, MonthOf(r.date));
      if i == -1 {
        assert (prev + [Credit(Bucket(MonthOf(r.date), 0, 0), r)])[..|prev|] == prev;
      } else {
        SumBucketsUpdate(prev, i, Credit(prev[i], r));
      }
    }
  }

  // ---------------------------------------------------------------------------
  // Chart labels (finance.js:234, finance.js:289)

  function Keys(months: seq<Bucket>): (ks: seq<string>)
    ensures |ks| == |months| && forall i :: 0 <= i < |months| ==> ks[i] == months[i].key
  {
    seq(|months|, i requires 0 <= i < |months| => months[i].key)
  }

  /** `Object.keys(monthlyData).sort()`: the default sort compares strings by code
      units. */
  function ChartLabels(months: seq<Bucket>): seq<string> {
    SortBy(Keys(months), LexLe)
  }

  lemma LexLeIsTotalPreorder()
    ensures TotalPreorder(LexLe)
  {
    forall a: string, b: string ensures LexLe(a, b) || LexLe(b, a) {
      LexLeTotal(a, b);
    }
    forall a: string, b: string, c: string | LexLe(a, b) && LexLe(b, c) ensures LexLe(a, c) {
      LexLeTransitive(a, b, c);
    }
  }

  /** The labels are the bucket keys, each once, in ascending order. */
  lemma ChartLabelsSorted(months: seq<Bucket>)
    ensures multiset(ChartLabels(months)) == multiset(Keys(months))
    ensures SortedBy(ChartLabels(months), LexLe)
  {
    LexLeIsTotalPreorder();
    SortBySorted(Keys(months), LexLe);
  }

  /** The chart labels of the grouped records: a label for each month that holds a
      record, for no other month, and none of them twice. */
  lemma ChartLabelsOfRecords(records: seq<FinancialRecord>, k: string)
    ensures k in ChartLabels(Grouped(records))
            <==> exists i :: 0 <= i < |records| && MonthOf(records[i].date) == k
    ensures multiset(ChartLabels(Grouped(records)))[k] <= 1
  {
    GroupedKeys(records, k);
    GroupedDistinctKeys(records);
    ChartLabelsOnce(Grouped(records), k);
  }

  /** With distinct keys, the labels are the keys, each once. */
  lemma ChartLabelsOnce(months: seq<Bucket>, k: string)
    requires DistinctKeys(months)
    ensures k in ChartLabels(months) <==> exists j :: 0 <= j < |months| && months[j].key == k
    ensures multiset(ChartLabels(months))[k] <= 1
  {
    ChartLabelsSorted(months);
    KeysOnce(months, k);
    assert k in multiset(ChartLabels(months)) <==> k in multiset(Keys(months));
    if k in Keys(months) {
      var j :| 0 <= j < |months| && Keys(months)[j] == k;
      assert months[j].key == k;
    }
  }

  /** Distinct bucket keys each appear once in the key list. */
  lemma {:induction false} KeysOnce(months: seq<Bucket>, k: string)
    requires DistinctKeys(months)
    ensures multiset(Keys(months))[k] <= 1
    decreases |months|
  {
    if months != [] {
      var init := months[..|months| - 1];
      var last := months[|months| - 1];
      assert DistinctKeys(init) by {
        forall i, j | 0 <= i < j < |init| ensures init[i].key != init[j].key {
          assert init[i] == months[i] && init[j] == months[j];
        }
      }
      KeysOnce(init, k);
      assert Keys(months) == Keys(init) + [last.key];
    }
  }

  /** Two months spelled `YYYY-MM` are the same string only when they are the same
      month. */
  lemma MonthKeyInjective(y1: int, m1: int, y2: int, m2: int)
    requires 1 <= y1 <= 9999 && 1 <= m1 <= 12
    requires 1 <= y2 <= 9999 && 1 <= m2 <= 12
    requires MonthKey(y1, m1) == MonthKey(y2, m2)
    ensures y1 == y2 && m1 == m2
  {
    LexLeTotal(MonthKey(y1, m1), MonthKey(y2, m2));
    MonthKeyOrder(y1, m1, y2, m2);
    MonthKeyOrder(y2, m2, y1, m1);
  }

  /** For labels spelled `YYYY-MM`, the ascending order is the calendar order. */
  lemma ChartLabelsChronological(months: seq<Bucket>, i: int, j: int, y1: int, m1: int, y2: int, m2: int)
    requires 0 <= i < j < |months|
    requires 1 <= y1 <= 9999 && 1 <= m1 <= 12
    requires 1 <= y2 <= 9999 && 1 <= m2 <= 12
    requires ChartLabels(months)[i] == MonthKey(y1, m1) && ChartLabels(months)[j] == MonthKey(y2, m2)
    ensures y1 < y2 || (y1 == y2 && m1 <= m2)
  {
    ChartLabelsSorted(months);
    MonthKeyOrder(y1, m1, y2, m2);
  }

  // ---------------------------------------------------------------------------
  // Current month (finance.js:153-164)

  /** The revenue of the records whose date starts with `month`. */
  function MonthRevenue(records: seq<FinancialRecord>, month: string): int {
    if records == [] then 0
    else
      var r := records[|records| - 1];
      MonthRevenue(records[..|records| - 1], month)
      + (if StartsWith(r.date, month) && r.recordType == "revenue" then r.amount else 0)
  }

  /** The amounts of type `expense` among the records whose date starts with
      `month`; other types are not counted here. */
  function MonthExpenses(records: seq<FinancialRecord>, month: string): int {
    if records == [] then 0
    else
      var r := records[|records| - 1];
      MonthExpenses(records[..|records| - 1], month)
      + (if StartsWith(r.date, month) && r.recordType == "expense" then r.amount else 0)
  }

  /** The amounts of types other than revenue and expense whose date starts with
      `month`. */
  function MonthOther(records: seq<FinancialRecord>, month: string): int {
    if records == [] then 0
    else
      var r := records[|records| - 1];
      MonthOther(records[..|records| - 1], month)
      + (if StartsWith(r.date, month) && r.recordType != "revenue" && r.recordType != "expense" then r.amount else 0)
  }

  datatype Overview = Overview(revenue: int, expenses: int, profit: int, margin: real)

  /** The overview cards for the month of `today` (`toISOString().slice(0, 7)`). The
      margin is the exact percentage; its one-decimal rendering is not modelled. */
  function MonthOverview(records: seq<FinancialRecord>, today: Date): (o: Overview)
    requires Spellable(today)
    ensures o.profit == o.revenue - o.expenses
    ensures o.revenue <= 0 ==> o.margin == 0.0
    ensures o.revenue > 0 ==> o.margin * (o.revenue as real) == 100.0 * (o.profit as real)
  {
    var month := MonthKey(today.year, today.month);
    var revenue := MonthRevenue(records, month);
    var expenses := MonthExpenses(records, month);
    var profit := revenue - expenses;
    var margin := Margin(profit, revenue);
    assert revenue > 0 ==> margin * (revenue as real) == 100.0 * (profit as real);
    Overview(revenue, expenses, profit, margin)
  }

  /** The profit margin in percent; zero when there is no revenue. */
  function Margin(profit: int, revenue: int): (m: real)
    ensures revenue <= 0 ==> m == 0.0
    ensures revenue > 0 ==> m * (revenue as real) == 100.0 * (profit as real)
  {
    if revenue > 0 then (profit as real / revenue as real) * 100.0 else 0.0
  }

  /** A profit no larger than the revenue is a margin of at most 100 percent, and
      the margin is negative exactly on a loss. */
  lemma MarginRange(profit: int, revenue: int)
    requires revenue > 0
    ensures profit <= revenue ==> Margin(profit, revenue) <= 100.0
    ensures Margin(profit, revenue) < 0.0 <==> profit < 0
  {
    var rv := revenue as real;
    assert Margin(profit, revenue) == (profit as real / rv) * 100.0;
    if profit <= revenue {
      DivideAtMostOne(profit as real, rv);
    }
    DivideSign(profit as real, rv);
  }

  /** With revenue and no negative expenses the margin is at most 100 percent, and
      it is negative exactly when the month made a loss. */
  lemma MarginBounds(records: seq<FinancialRecord>, today: Date)
    requires Spellable(today)
    ensures var o := MonthOverview(records, today);
            && (o.revenue > 0 && o.expenses >= 0 ==> o.margin <= 100.0)
            && (o.revenue > 0 ==> (o.margin < 0.0 <==> o.profit < 0))
  {
    var o := MonthOverview(records, today);
    assert o.margin == Margin(o.profit, o.revenue);
    if o.revenue > 0 {
      MarginRange(o.profit, o.revenue);
    }
  }

  lemma DivideAtMostOne(p: real, r: real)
    requires r > 0.0 && p <= r
    ensures p / r <= 1.0
  {
  }

  lemma DivideSign(p: real, r: real)
    requires r > 0.0
    ensures (p / r) * 100.0 < 0.0 <==> p < 0.0
  {
  }

  /** For a seven-character month, "starts with the month" is "has that month". */
  lemma StartsWithMonth(date: string, month: string)
    requires |month| == 7
    ensures StartsWith(date, month) <==> MonthOf(date) == month
  {
  }

  /** The current month's revenue is its bucket's revenue; the bucket's expenses are
      the current month's expenses plus the amounts of any other record types. */
  lemma {:induction false} OverviewMatchesBucket(records: seq<FinancialRecord>, month: string)
    requires |month| == 7
    ensures MonthRevenue(records, month) == RevenueIn(records, month)
    ensures ExpensesIn(records, month) == MonthExpenses(records, month) + MonthOther(records, month)
    decreases |records|
  {
    if records != [] {
      var r := records[|records| - 1];
      OverviewMatchesBucket(records[..|records| - 1], month);
      StartsWithMonth(r.date, month);
    }
  }

  /** A record dated by the form counts towards the overview of `today` exactly
      when it falls in today's month and year. */
  lemma OverviewMonthOfDate(d: Date, today: Date)
    requires Spellable(d) && Spellable(today)
    ensures StartsWith(Format(d), MonthKey(today.year, today.month)) <==> d.year == today.year && d.month == today.month
  {
    var key := MonthKey(today.year, today.month);
    StartsWithMonth(Format(d), key);
    if MonthOf(Format(d)) == key {
      MonthKeyInjective(d.year, d.month, today.year, today.month);
    }
  }

  // ---------------------------------------------------------------------------
  // Goal progress (finance.js:179-200)

  /** `Math.min(percentage, 100)`. */
  function BarWidth(percentage: real): (w: real)
    ensures w <= percentage && w <= 100.0
    ensures w == percentage || w == 100.0
  {
    if percentage < 100.0 then percentage else 100.0
  }

  /** The bar turns green once the width reaches 100. */
  predicate BarGreen(percentage: real) {
    BarWidth(percentage) >= 100.0
  }

  /** Progress towards a positive goal, as a percentage. */
  function Progress(actual: int, goal: int): real
    requires goal > 0
  {
    (actual as real / goal as real) * 100.0
  }

  /** The bar is green exactly when the actual amount reached the goal, and it is
      full exactly then. */
  lemma BarGreenIffGoalReached(actual: int, goal: int)
    requires goal > 0
    ensures BarGreen(Progress(actual, goal)) <==> actual >= goal
    ensures BarWidth(Progress(actual, goal)) == 100.0 <==> actual >= goal
  {
    var g := goal as real;
    var a := actual as real;
    assert Progress(actual, goal) >= 100.0 <==> a / g >= 1.0;
    DivideReaches(a, g);
  }

  lemma DivideReaches(a: real, g: real)
    requires g > 0.0
    ensures a / g >= 1.0 <==> a >= g
  {
    assert a == (a / g) * g;
  }

  // ---------------------------------------------------------------------------
  // Recent transactions (finance.js:350-352)

  /** `records.slice(-10).reverse()`. */
  function Recent(records: seq<FinancialRecord>): (r: seq<FinancialRecord>)
    ensures |r| == if |records| < 10 then |records| else 10
    ensures forall i :: 0 <= i < |r| ==> r[i] == records[|records| - 1 - i]
  {
    var last := if |records| <= 10 then records else records[|records| - 10..];
    seq(|last|, i requires 0 <= i < |last| => last[|last| - 1 - i])
  }

  /** A newly added record heads the view and pushes the others one place down. */
  lemma RecentAfterAdd(records: seq<FinancialRecord>, x: FinancialRecord)
    ensures Recent(records + [x])[0] == x
    ensures Recent(records + [x])[1..] == Recent(records)[..|Recent(records + [x])| - 1]
  {
    var a := Recent(records + [x]);
    var b := Recent(records);
    assert |a| - 1 <= |b|;
    forall i | 1 <= i < |a| ensures a[i] == b[i - 1] {
      assert (records + [x])[|records| - i] == records[|records| - 1 - (i - 1)];
    }
  }

  // ---------------------------------------------------------------------------
  // Category labels (finance.js:378-382)

  /** `word.charAt(0).toUpperCase() + word.slice(1)`. */
  function Capitalize(w: string): string {
    if w == [] then [] else [ToUpperChar(w[0])] + w[1..]
  }

  /** The pieces, each capitalised except, when `first` is false, the first one. */
  function CapitalizeAll(ws: seq<string>, first: bool): (r: seq<string>)
    ensures |r| == |ws|
  {
    if ws == [] then []
    else [if first then Capitalize(ws[0]) else ws[0]] + CapitalizeAll(ws[1..], true)
  }

  /** `category.split('-').map(capitalise).join(' ')`. */
  function FormatCategory(category: string): string {
    Join(CapitalizeAll(Split(category, '-'), true), ' ')
  }

  /** The same label written character by character: a hyphen becomes a space and
      the character after a hyphen (or the first, when `atStart`) is upper-cased. */
  function Titled(s: string, atStart: bool): (r: string)
    ensures |r| == |s|
    ensures forall i :: 0 <= i < |s| && s[i] == '-' ==> r[i] == ' '
    ensures forall i :: 0 < i < |s| && s[i] != '-' ==>
              r[i] == if s[i - 1] == '-' then ToUpperChar(s[i]) else s[i]
    ensures |s| > 0 && s[0] != '-' ==> r[0] == if atStart then ToUpperChar(s[0]) else s[0]
  {
    if s == [] then []
    else if s[0] == '-' then [' '] + Titled(s[1..], true)
    else [if atStart then ToUpperChar(s[0]) else s[0]] + Titled(s[1..], false)
  }

  lemma JoinGrowHead(c: char, w: string, ws: seq<string>, sep: char)
    ensures Join([[c] + w] + ws, sep) == [c] + Join([w] + ws, sep)
  {
    if ws != [] {
      assert ([[c] + w] + ws)[1..] == ws;
      assert ([w] + ws)[1..] == ws;
    }
  }

  lemma {:induction false} TitledIsFormat(s: string, atStart: bool)
    ensures Titled(s, atStart) == Join(CapitalizeAll(Split(s, '-'), atStart), ' ')
    decreases |s|
  {
    if s != [] {
      var rest := Split(s[1..], '-');
      TitledIsFormat(s[1..], s[0] == '-');
      if s[0] == '-' {
        assert Split(s, '-') == [""] + rest;
        assert CapitalizeAll([""] + rest, atStart) == [""] + CapitalizeAll(rest, true);
      } else {
        var w := rest[0];
        assert Split(s, '-') == [[s[0]] + w] + rest[1..];
        var tail := CapitalizeAll(rest[1..], true);
        var head := if atStart then ToUpperChar(s[0]) else s[0];
        assert CapitalizeAll(Split(s, '-'), atStart) == [[head] + w] + tail;
        assert rest == [w] + rest[1..];
        assert CapitalizeAll(rest, false) == [w] + tail;
        JoinGrowHead(head, w, tail, ' ');
      }
    }
  }

  /** The label has the category's length, one word per hyphen-separated piece, a
      space where each hyphen was and every piece's first character upper-cased. */
  lemma FormatCategorySpec(category: string)
    ensures FormatCategory(category) == Titled(category, true)
    ensures |FormatCategory(category)| == |category|
    ensures |CapitalizeAll(Split(category, '-'), true)| == Occurrences(category, '-') + 1
  {
    TitledIsFormat(category, true);
    SplitJoin(category, '-');
  }

  // ---------------------------------------------------------------------------
  // The record store (finance.js:124-140)

  ghost predicate IdsFresh(records: seq<FinancialRecord>, nextId: nat) {
    && (forall i :: 0 <= i < |records| ==> records[i].id < nextId)
    && (forall i, j :: 0 <= i < j < |records| ==> records[i].id != records[j].id)
  }

  class Ledger {
    var records: seq<FinancialRecord>
    var nextId: nat

    ghost predicate Valid()
      reads this
    {
      IdsFresh(records, nextId)
    }

    constructor()
      ensures Valid() && records == []
    {
      records := [];
      nextId := 0;
    }

    /** `addFinancialRecord()`: the form's record, with a fresh id and the creation
        time, goes at the end; the earlier records stay as they were. */
    method AddRecord(recordType: string, amount: int, category: string, date: string, description: string, now: int)
      requires Valid()
      modifies this
      ensures Valid()
      ensures records == old(records) + [FinancialRecord(old(nextId), recordType, amount, category, date, description, now)]
      ensures nextId == old(nextId) + 1
    {
      var r := FinancialRecord(nextId, recordType, amount, category, date, description, now);
      records := records + [r];
      nextId := nextId + 1;
    }
  }
}
