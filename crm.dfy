/** The customer book (js/crm.js): the stored customers, the filter chain of the
    customer table, the tags and "last contact" line of each row, and the
    operations that add, update, annotate and contact customers. Timestamps are
    milliseconds counted from the start of day 0 (0001-01-01, UTC); `lastVisit` is
    kept as the day number its `YYYY-MM-DD` string names. */
module Crm {
  import opened Wrappers
  import opened Calendar
  import opened Seqs
  import opened Text
  import opened RelativeTime

  datatype Note = Note(id: nat, content: string, timestamp: int, author: string)

  /** The fields the customer form writes. */
  datatype CustomerData = CustomerData(
    name: string,
    phone: string,
    email: string,
    address: string,
    preferences: string,
    status: string,
    lastVisit: Option<Day>,
    lastContact: Option<int>,
    notes: Option<seq<Note>>,
    tags: Option<seq<string>>)

  datatype Customer = Customer(id: nat, data: CustomerData, createdAt: int, totalSpent: int, updatedAt: Option<int>)

  /** What the user typed into the customer form. */
  datatype CustomerForm = CustomerForm(name: string, phone: string, email: string, address: string, preferences: string, status: string)

  /** `customer.notes || []`. */
  function NotesOf(c: Customer): seq<Note> {
    if c.data.notes.Some? then c.data.notes.value else []
  }

  function TagsOf(c: Customer): seq<string> {
    if c.data.tags.Some? then c.data.tags.value else []
  }

  function IndexOfCustomer(customers: seq<Customer>, id: nat): (i: int)
    ensures -1 <= i < |customers|
    ensures i == -1 <==> forall j :: 0 <= j < |customers| ==> customers[j].id != id
    ensures 0 <= i ==> customers[i].id == id
  {
    FindIndex(customers, (c: Customer) => c.id, id)
  }

  // ---------------------------------------------------------------------------
  // Row tags (js/crm.js:193-208)

  /** `Math.floor((now - lastVisit) / day)`, with the visit at midnight of its day. */
  function DaysSinceVisit(lastVisit: Day, now: nat): int {
    (now - lastVisit * MillisPerDay) / MillisPerDay
  }

  /** The days since a visit are the difference of the day numbers. */
  lemma DaysSinceVisitIsDayDifference(lastVisit: Day, now: nat)
    ensures DaysSinceVisit(lastVisit, now) == DayOf(now) - lastVisit
  {
    var q := now / MillisPerDay;
    var r := now % MillisPerDay;
    assert now - lastVisit * MillisPerDay == (q - lastVisit) * MillisPerDay + r;
  }

  predicate LapsedVisit(c: Customer, now: nat) {
    c.data.lastVisit.Some? && DaysSinceVisit(c.data.lastVisit.value, now) > 30
  }

  /** The tags of a row: Inactive when the last visit is more than thirty days
      back, Premium for premium customers, in that order. */
  function CustomerTags(c: Customer, now: nat): (tags: seq<string>)
    ensures "Inactive" in tags <==> LapsedVisit(c, now)
    ensures "Premium" in tags <==> c.data.status == "premium"
    ensures tags == [] <==> !LapsedVisit(c, now) && c.data.status != "premium"
    ensures |tags| <= 2
  {
    (if LapsedVisit(c, now) then ["Inactive"] else [])
    + (if c.data.status == "premium" then ["Premium"] else [])
  }

  /** A customer is tagged Inactive exactly when today is more than thirty days
      after the day of the last visit. */
  lemma InactiveAfterThirtyDays(c: Customer, now: nat)
    requires c.data.lastVisit.Some?
    ensures "Inactive" in CustomerTags(c, now) <==> DayOf(now) > c.data.lastVisit.value + 30
  {
    DaysSinceVisitIsDayDifference(c.data.lastVisit.value, now);
  }

  // ---------------------------------------------------------------------------
  // Last contact line (js/crm.js:211-222)

  const ContactPrefix: string := "Contacted "

  function ContactLabel(a: Age): string {
    match a
    case Yesterday => ContactPrefix + "yesterday"
    case DaysAgo(n) => ContactPrefix + Decimal(n) + " days ago"
    case WeeksAgo(n) => ContactPrefix + Decimal(n) + " weeks ago"
    case Older(n) => ContactPrefix + Decimal(n) + " months ago"
  }

  /** `getLastContactInfo(customer)`. */
  function LastContactInfo(c: Customer, now: int): (line: string)
    ensures c.data.lastContact.None? <==> line == "No contact yet"
    ensures c.data.lastContact.Some? ==> StartsWith(line, ContactPrefix)
  {
    match c.data.lastContact
    case None => "No contact yet"
    case Some(t) => ContactLabel(AgeOf(ElapsedDays(t, now)))
  }

  /** The line for each distance d in days: exactly one day is "Contacted
      yesterday"; below seven days it counts days (zero included), below thirty
      whole weeks, and beyond that whole months of thirty days. */
  lemma LastContactLines(c: Customer, now: int)
    requires c.data.lastContact.Some?
    ensures var d := ElapsedDays(c.data.lastContact.value, now);
            var line := LastContactInfo(c, now);
            && (d == 1 <==> line == "Contacted yesterday")
            && (d != 1 && d < 7 ==> line == "Contacted " + Decimal(d) + " days ago")
            && (7 <= d < 30 ==> line == "Contacted " + Decimal(d / 7) + " weeks ago")
            && (30 <= d ==> line == "Contacted " + Decimal(d / 30) + " months ago")
  {
    var a := AgeOf(ElapsedDays(c.data.lastContact.value, now));
    if ContactLabel(a) == ContactLabel(Yesterday) {
      ContactLabelInjective(a, Yesterday);
    }
  }

  lemma SameSuffix(x: string, s: string, y: string, t: string)
    requires x + s == y + t && |s| == |t|
    ensures x == y && s == t
  {
    assert x == (x + s)[..|x|];
    assert y == (y + t)[..|y|];
    assert s == (x + s)[|x|..];
    assert t == (y + t)[|y|..];
  }

  lemma DecimalInjective(m: nat, n: nat)
    requires Decimal(m) == Decimal(n)
    ensures m == n
  {
    DecimalValue(m);
    DecimalValue(n);
  }

  /** The tail of a label: `yesterday`, or a count followed by its unit. */
  function LabelTail(a: Age): string {
    match a
    case Yesterday => "yesterday"
    case DaysAgo(n) => Decimal(n) + " days ago"
    case WeeksAgo(n) => Decimal(n) + " weeks ago"
    case Older(n) => Decimal(n) + " months ago"
  }

  /** The last nine characters of a label tell its kind apart. */
  lemma LabelEnding(a: Age)
    ensures |LabelTail(a)| >= 9
    ensures var t := LabelTail(a);
            var e := t[|t| - 9..];
            && (a.Yesterday? <==> e == "yesterday")
            && (a.DaysAgo? <==> e == " days ago")
            && (a.WeeksAgo? <==> e == "weeks ago")
            && (a.Older? <==> e == "onths ago")
  {
    var t := LabelTail(a);
    match a
    case Yesterday =>
    case DaysAgo(n) => assert t[|t| - 9..] == " days ago";
    case WeeksAgo(n) => assert t[|t| - 9..] == "weeks ago";
    case Older(n) => assert t[|t| - 9..] == "onths ago";
  }

  /** Different buckets give different lines: the line reads back the bucket and
      its count. */
  lemma ContactLabelInjective(a: Age, b: Age)
    requires ContactLabel(a) == ContactLabel(b)
    ensures a == b
  {
    LabelSplits(a);
    LabelSplits(b);
    SamePrefix(ContactPrefix, LabelTail(a), ContactPrefix, LabelTail(b));
    TailInjective(a, b);
  }

  lemma LabelSplits(a: Age)
    ensures ContactLabel(a) == ContactPrefix + LabelTail(a)
  {
    match a
    case Yesterday =>
    case DaysAgo(n) => AppendAssoc(ContactPrefix, Decimal(n), " days ago");
    case WeeksAgo(n) => AppendAssoc(ContactPrefix, Decimal(n), " weeks ago");
    case Older(n) => AppendAssoc(ContactPrefix, Decimal(n), " months ago");
  }

  lemma SamePrefix(x: string, s: string, y: string, t: string)
    requires x + s == y + t && |x| == |y|
    ensures x == y && s == t
  {
    assert x == (x + s)[..|x|];
    assert y == (y + t)[..|y|];
  }

  lemma TailInjective(a: Age, b: Age)
    requires LabelTail(a) == LabelTail(b)
    ensures a == b
  {
    LabelEnding(a);
    LabelEnding(b);
    match a
    case Yesterday =>
    case DaysAgo(m) =>
      SameSuffix(Decimal(m), " days ago", Decimal(b.days), " days ago");
      DecimalInjective(m, b.days);
    case WeeksAgo(m) =>
      SameSuffix(Decimal(m), " weeks ago", Decimal(b.weeks), " weeks ago");
      DecimalInjective(m, b.weeks);
    case Older(m) =>
      SameSuffix(Decimal(m), " months ago", Decimal(b.months), " months ago");
      DecimalInjective(m, b.months);
  }

  // ---------------------------------------------------------------------------
  // Filter chain (js/crm.js:225-249)

  datatype Filters = Filters(status: string, preferences: string, search: string)

  /** The search box matches the lower-cased name, e-mail or address, or the phone
      number as typed. */
  predicate MatchesSearch(c: Customer, term: string) {
    || Contains(ToLower(c.data.name), term)
    || Contains(ToLower(c.data.email), term)
    || Contains(c.data.phone, term)
    || Contains(ToLower(c.data.address), term)
  }

  predicate PassesSearch(f: Filters, c: Customer) {
    f.search == "" || MatchesSearch(c, f.search)
  }

  predicate PassesStatus(f: Filters, c: Customer) {
    f.status == "all" || c.data.status == f.status
  }

  predicate PassesPreference(f: Filters, c: Customer) {
    f.preferences == "all" || c.data.preferences == f.preferences
  }

  function SearchStage(customers: seq<Customer>, f: Filters): seq<Customer> {
    if f.search != "" then Filter(customers, (c: Customer) => MatchesSearch(c, f.search)) else customers
  }

  function StatusStage(customers: seq<Customer>, f: Filters): seq<Customer> {
    if f.status != "all" then Filter(customers, (c: Customer) => c.data.status == f.status) else customers
  }

  function PreferenceStage(customers: seq<Customer>, f: Filters): seq<Customer> {
    if f.preferences != "all" then Filter(customers, (c: Customer) => c.data.preferences == f.preferences) else customers
  }

  /** `applyFilters()`: the search stage, then the status stage, then the
      preference stage, each skipped when its filter is empty or "all". */
  function ApplyFilters(customers: seq<Customer>, f: Filters): seq<Customer> {
    PreferenceStage(StatusStage(SearchStage(customers, f), f), f)
  }

  predicate Passes(f: Filters, c: Customer) {
    PassesSearch(f, c) && PassesStatus(f, c) && PassesPreference(f, c)
  }

  lemma SearchStageIsFilter(customers: seq<Customer>, f: Filters)
    ensures SearchStage(customers, f) == Filter(customers, (c: Customer) => PassesSearch(f, c))
  {
    if f.search != "" {
      FilterCongruent(customers, (c: Customer) => MatchesSearch(c, f.search), (c: Customer) => PassesSearch(f, c));
    } else {
      FilterKeepsAll(customers, (c: Customer) => PassesSearch(f, c));
    }
  }

  lemma StatusStageIsFilter(customers: seq<Customer>, f: Filters)
    ensures StatusStage(customers, f) == Filter(customers, (c: Customer) => PassesStatus(f, c))
  {
    if f.status != "all" {
      FilterCongruent(customers, (c: Customer) => c.data.status == f.status, (c: Customer) => PassesStatus(f, c));
    } else {
      FilterKeepsAll(customers, (c: Customer) => PassesStatus(f, c));
    }
  }

  lemma PreferenceStageIsFilter(customers: seq<Customer>, f: Filters)
    ensures PreferenceStage(customers, f) == Filter(customers, (c: Customer) => PassesPreference(f, c))
  {
    if f.preferences != "all" {
      FilterCongruent(customers, (c: Customer) => c.data.preferences == f.preferences, (c: Customer) => PassesPreference(f, c));
    } else {
      FilterKeepsAll(customers, (c: Customer) => PassesPreference(f, c));
    }
  }

  /** The table shows, in stored order, exactly the customers passing all three
      filters. */
  lemma ApplyFiltersSpec(customers: seq<Customer>, f: Filters)
    ensures ApplyFilters(customers, f) == Filter(customers, (c: Customer) => Passes(f, c))
    ensures Subsequence(ApplyFilters(customers, f), customers)
  {
    SearchStageIsFilter(customers, f);
    StatusStageIsFilter(SearchStage(customers, f), f);
    PreferenceStageIsFilter(StatusStage(SearchStage(customers, f), f), f);
    FilterChain(customers, (c: Customer) => PassesSearch(f, c), (c: Customer) => PassesStatus(f, c),
                (c: Customer) => PassesPreference(f, c), (c: Customer) => Passes(f, c));
    FilterIsSubsequence(customers, (c: Customer) => Passes(f, c));
  }

  /** With every filter off the table shows the whole book. */
  lemma NoFiltersShowsAll(customers: seq<Customer>)
    ensures ApplyFilters(customers, Filters("all", "all", "")) == customers
  {
    ApplyFiltersSpec(customers, Filters("all", "all", ""));
    FilterKeepsAll(customers, (c: Customer) => Passes(Filters("all", "all", ""), c));
  }

  // ---------------------------------------------------------------------------
  // The form (js/crm.js:287-301)

  /** The record the form submits: a new customer always starts active with no
      notes or tags; an edit takes the chosen status and keeps the edited
      customer's notes and tags. Either way the visit is today and the contact now. */
  function FormData(form: CustomerForm, editing: Option<Customer>, now: nat): (d: CustomerData)
    ensures d.name == form.name && d.phone == form.phone && d.email == form.email
    ensures d.address == form.address && d.preferences == form.preferences
    ensures d.status == if editing.Some? then form.status else "active"
    ensures d.notes == Some(if editing.Some? then NotesOf(editing.value) else [])
    ensures d.tags == Some(if editing.Some? then TagsOf(editing.value) else [])
    ensures d.lastVisit == Some(DayOf(now)) && d.lastContact == Some(now)
  {
    CustomerData(
      form.name, form.phone, form.email, form.address, form.preferences,
      if editing.Some? then form.status else "active",
      Some(DayOf(now)), Some(now),
      Some(if editing.Some? then NotesOf(editing.value) else []),
      Some(if editing.Some? then TagsOf(editing.value) else []))
  }

  ghost predicate IdsFresh(customers: seq<Customer>, nextId: nat) {
    && (forall i :: 0 <= i < |customers| ==> customers[i].id < nextId)
    && (forall i, j :: 0 <= i < j < |customers| ==> customers[i].id != customers[j].id)
  }

  lemma IdsFreshAppend(customers: seq<Customer>, c: Customer, nextId: nat)
    requires IdsFresh(customers, nextId) && c.id == nextId
    ensures IdsFresh(customers + [c], nextId + 1)
  {
    var s := customers + [c];
    forall i, j | 0 <= i < j < |s| ensures s[i].id != s[j].id {
      assert s[i] == customers[i];
    }
  }

  class CustomerBook {
    var customers: seq<Customer>
    var nextId: nat
    /** The customer the open form edits (`currentCustomer`), as it was when opened. */
    var current: Option<Customer>
    var filters: Filters

    ghost predicate Valid()
      reads this
    {
      IdsFresh(customers, nextId)
    }

    constructor()
      ensures Valid()
      ensures customers == [] && current == None && filters == Filters("all", "all", "")
    {
      customers := [];
      nextId := 0;
      current := None;
      filters := Filters("all", "all", "");
    }

    /** The search box keeps its text lower-cased. */
    method SetSearch(text: string)
      modifies this
      ensures filters == old(filters).(search := ToLower(text))
      ensures customers == old(customers) && nextId == old(nextId) && current == old(current)
    {
      filters := filters.(search := ToLower(text));
    }

    method SetStatusFilter(status: string)
      modifies this
      ensures filters == old(filters).(status := status)
      ensures customers == old(customers) && nextId == old(nextId) && current == old(current)
    {
      filters := filters.(status := status);
    }

    method SetPreferenceFilter(preferences: string)
      modifies this
      ensures filters == old(filters).(preferences := preferences)
      ensures customers == old(customers) && nextId == old(nextId) && current == old(current)
    {
      filters := filters.(preferences := preferences);
    }

    /** `openCustomerModal(customer)`; `None` opens the form for a new customer. */
    method OpenForm(customer: Option<Customer>)
      modifies this
      ensures current == customer
      ensures customers == old(customers) && nextId == old(nextId) && filters == old(filters)
    {
      current := customer;
    }

    /** `editCustomer(id)`: opens the form on that customer when there is one. */
    method Edit(id: nat)
      modifies this
      ensures var i := IndexOfCustomer(customers, id);
              current == if i == -1 then old(current) else Some(customers[i])
      ensures customers == old(customers) && nextId == old(nextId) && filters == old(filters)
    {
      var i := IndexOfCustomer(customers, id);
      if i != -1 {
        current := Some(customers[i]);
      }
    }

    method CloseForm()
      modifies this
      ensures current == None
      ensures customers == old(customers) && nextId == old(nextId) && filters == old(filters)
    {
      current := None;
    }

    /** `addCustomer(data)`: one new customer at the end, with a fresh id and
        nothing spent yet. */
    method AddCustomer(data: CustomerData, now: int)
      requires Valid()
      modifies this
      ensures Valid()
      ensures customers == old(customers) + [Customer(old(nextId), data, now, 0, None)]
      ensures nextId == old(nextId) + 1
      ensures current == old(current) && filters == old(filters)
    {
      IdsFreshAppend(customers, Customer(nextId, data, now, 0, None), nextId);
      customers := customers + [Customer(nextId, data, now, 0, None)];
      nextId := nextId + 1;
    }

    /** `updateCustomer(id, data)`: the form's fields replace the customer's in
        place; id, creation time and spending stay. An unknown id changes nothing. */
    method UpdateCustomer(id: nat, data: CustomerData, now: int)
      requires Valid()
      modifies this
      ensures Valid()
      ensures var i := IndexOfCustomer(old(customers), id);
              customers == if i == -1 then old(customers)
                            else old(customers)[i := old(customers)[i].(data := data, updatedAt := Some(now))]
      ensures nextId == old(nextId) && current == old(current) && filters == old(filters)
    {
      var i := IndexOfCustomer(customers, id);
      if i != -1 {
        customers := customers[i := customers[i].(data := data, updatedAt := Some(now))];
      }
    }

    /** `handleCustomerFormSubmit`: update the edited customer or add a new one,
        then close the form. */
    method SubmitForm(form: CustomerForm, now: nat)
      requires Valid()
      modifies this
      ensures Valid()
      ensures current == None && filters == old(filters)
      ensures old(current).Some? ==>
                var i := IndexOfCustomer(old(customers), old(current).value.id);
                nextId == old(nextId)
                && customers == if i == -1 then old(customers)
                                else old(customers)[i := old(customers)[i].(data := FormData(form, old(current), now), updatedAt := Some(now))]
      ensures old(current).None? ==>
                customers == old(customers) + [Customer(old(nextId), FormData(form, None, now), now, 0, None)]
                && nextId == old(nextId) + 1
    {
      var data := FormData(form, current, now);
      if current.Some? {
        UpdateCustomer(current.value.id, data, now);
      } else {
        AddCustomer(data, now);
      }
      current := None;
    }

    /** `addCustomerNote(id, content)`: a new note goes to the front of that
        customer's notes, which are created when missing; nobody else changes, and
        an unknown id changes nothing. */
    method AddCustomerNote(id: nat, content: string, now: int)
      requires Valid()
      modifies this
      ensures Valid()
      ensures var i := IndexOfCustomer(old(customers), id);
              if i == -1 then customers == old(customers) && nextId == old(nextId)
              else
                var c := old(customers)[i];
                && customers == old(customers)[i := c.(data := c.data.(notes := Some([Note(old(nextId), content, now, "You")] + NotesOf(c))))]
                && nextId == old(nextId) + 1
      ensures current == old(current) && filters == old(filters)
    {
      var i := IndexOfCustomer(customers, id);
      if i != -1 {
        var c := customers[i];
        var note := Note(nextId, content, now, "You");
        customers := customers[i := c.(data := c.data.(notes := Some([note] + NotesOf(c))))];
        nextId := nextId + 1;
      }
    }

    /** `updateLastContact(id)`: only that customer's last contact changes. */
    method UpdateLastContact(id: nat, now: int)
      requires Valid()
      modifies this
      ensures Valid()
      ensures var i := IndexOfCustomer(old(customers), id);
              customers == if i == -1 then old(customers)
                            else old(customers)[i := old(customers)[i].(data := old(customers)[i].data.(lastContact := Some(now)))]
      ensures nextId == old(nextId) && current == old(current) && filters == old(filters)
    {
      var i := IndexOfCustomer(customers, id);
      if i != -1 {
        var c := customers[i];
        customers := customers[i := c.(data := c.data.(lastContact := Some(now)))];
      }
    }

    /** `emailCustomer(id)`: contacting by e-mail counts only for a customer who has
        an address; the mail window itself is outside the model. */
    method EmailCustomer(id: nat, now: int)
      requires Valid()
      modifies this
      ensures Valid()
      ensures var i := IndexOfCustomer(old(customers), id);
              customers == if i == -1 || old(customers)[i].data.email == "" then old(customers)
                            else old(customers)[i := old(customers)[i].(data := old(customers)[i].data.(lastContact := Some(now)))]
      ensures nextId == old(nextId) && current == old(current) && filters == old(filters)
    {
      var i := IndexOfCustomer(customers, id);
      if i != -1 && customers[i].data.email != "" {
        UpdateLastContact(id, now);
      }
    }
  }
}
