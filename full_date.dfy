/** The `full-date` text format of section 5.6 of RFC 3339 (`YYYY-MM-DD`) and its
    `YYYY-MM` prefix, for four-digit years. Formatting and parsing are inverse, so
    comparing two such strings for equality compares the days they name, and
    comparing them code unit by code unit compares them in time. */
module FullDate {
  import opened Wrappers
  import opened Calendar
  import opened Text

  /** A valid date whose year has four digits. */
  predicate Spellable(d: Date) {
    ValidDate(d) && d.year <= 9999
  }

  /** `YYYY-MM`. */
  function MonthKey(year: int, month: int): (s: string)
    requires 1 <= year <= 9999 && 1 <= month <= 12
    ensures |s| == 7 && s[4] == '-'
  {
    Padded(year, 4) + "-" + Padded(month, 2)
  }

  /** `YYYY-MM-DD`. */
  function Format(d: Date): (s: string)
    requires Spellable(d)
    ensures |s| == 10 && s[4] == '-' && s[7] == '-'
    ensures s[..7] == MonthKey(d.year, d.month)
  {
    var s := MonthKey(d.year, d.month) + "-" + Padded(d.day, 2);
    assert s[..7] == MonthKey(d.year, d.month);
    s
  }

  /** Reads `YYYY-MM-DD`; anything else, or a date that does not exist, is None. */
  function Parse(s: string): (r: Option<Date>)
    ensures r.Some? ==> Spellable(r.value)
  {
    if |s| == 10 && s[4] == '-' && s[7] == '-'
       && AllDigits(s[..4]) && AllDigits(s[5..7]) && AllDigits(s[8..])
    then
      PaddedBound(s[..4]);
      var d := Date(DigitsValue(s[..4]), DigitsValue(s[5..7]), DigitsValue(s[8..]));
      if ValidDate(d) then Some(d) else None
    else None
  }

  /** A string of w digits is the padded rendering of its value. */
  lemma {:induction false} PaddedOfDigits(s: string)
    requires AllDigits(s)
    ensures DigitsValue(s) < Pow10(|s|)
    ensures Padded(DigitsValue(s), |s|) == s
    decreases |s|
  {
    if s != [] {
      var t := s[..|s| - 1];
      PaddedOfDigits(t);
      var n := DigitsValue(s);
      assert n / 10 == DigitsValue(t) && n % 10 == DigitValue(s[|s| - 1]);
      assert s == t + [s[|s| - 1]];
    }
  }

  lemma PaddedBound(s: string)
    requires AllDigits(s)
    ensures DigitsValue(s) < Pow10(|s|)
  {
    PaddedOfDigits(s);
  }

  /** Parsing a formatted date gives the date back. */
  lemma ParseFormat(d: Date)
    requires Spellable(d)
    ensures Parse(Format(d)) == Some(d)
  {
    var s := Format(d);
    assert s[..4] == Padded(d.year, 4);
    assert s[5..7] == Padded(d.month, 2);
    assert s[8..] == Padded(d.day, 2);
    PaddedValue(d.year, 4);
    PaddedValue(d.month, 2);
    PaddedValue(d.day, 2);
  }

  /** Every string that parses is the formatting of what it parses to. */
  lemma FormatParse(s: string)
    requires Parse(s).Some?
    ensures Format(Parse(s).value) == s
  {
    var y, m, dd := s[..4], s[5..7], s[8..];
    var d := Parse(s).value;
    assert d == Date(DigitsValue(y), DigitsValue(m), DigitsValue(dd));
    PaddedOfDigits(y);
    PaddedOfDigits(m);
    PaddedOfDigits(dd);
    assert MonthKey(d.year, d.month) == y + "-" + m;
    assert Format(d) == (y + "-" + m) + "-" + dd;
    assert s == (y + "-" + m) + "-" + dd;
  }

  /** Distinct dates have distinct spellings, so equal strings name the same day. */
  lemma FormatInjective(a: Date, b: Date)
    requires Spellable(a) && Spellable(b) && Format(a) == Format(b)
    ensures a == b
  {
    ParseFormat(a);
    ParseFormat(b);
  }

  /** `YYYY-MM` keys sort, code unit by code unit, in calendar order. */
  lemma MonthKeyOrder(y1: int, m1: int, y2: int, m2: int)
    requires 1 <= y1 <= 9999 && 1 <= m1 <= 12
    requires 1 <= y2 <= 9999 && 1 <= m2 <= 12
    ensures LexLe(MonthKey(y1, m1), MonthKey(y2, m2)) <==> y1 < y2 || (y1 == y2 && m1 <= m2)
  {
    var a, b := Padded(y1, 4), Padded(y2, 4);
    LexLeConcat(a, "-" + Padded(m1, 2), b, "-" + Padded(m2, 2));
    assert MonthKey(y1, m1) == a + ("-" + Padded(m1, 2));
    assert MonthKey(y2, m2) == b + ("-" + Padded(m2, 2));
    LexLeConcat("-", Padded(m1, 2), "-", Padded(m2, 2));
    PaddedOrder(y1, y2, 4);
    PaddedOrder(m1, m2, 2);
    PaddedValue(y1, 4);
    PaddedValue(y2, 4);
    if y1 != y2 {
      LexLeAntisymmetricIff(a, b);
      PaddedOrder(y2, y1, 4);
    }
  }
}
