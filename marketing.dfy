/** The marketing content planner (js/marketing.js): the content form and its tag
    field, saving a piece as scheduled or as a draft, publishing and deleting, the
    filtered and ordered content list, the status counters and the "created" line.
    Publish dates are the calendar dates the date field offers, or none. */
module Marketing {
  import opened Wrappers
  import opened Calendar
  import opened Seqs
  import opened Sorting
  import opened Text
  import opened RelativeTime

  datatype ContentData = ContentData(
    title: string,
    platforms: seq<string>,
    contentType: string,
    status: string,
    text: string,
    tags: seq<string>,
    notes: string,
    publishDate: Option<Date>,
    publishTime: string)

  datatype Content = Content(id: nat, data: ContentData, createdAt: int, updatedAt: int, publishedAt: Option<int>)

  /** What the content form holds: the ticked platforms and the raw tag text. */
  datatype ContentForm = ContentForm(
    title: string,
    platforms: seq<string>,
    contentType: string,
    status: string,
    text: string,
    tagsText: string,
    notes: string,
    publishDate: Option<Date>,
    publishTime: string)

  // ---------------------------------------------------------------------------
  // Tags (js/marketing.js:396, js/marketing.js:301)

  function TrimAll(ws: seq<string>): (r: seq<string>)
    ensures |r| == |ws| && forall i :: 0 <= i < |ws| ==> r[i] == Trim(ws[i])
  {
    if ws == [] then [] else [Trim(ws[0])] + TrimAll(ws[1..])
  }

  /** A tag as the tag field yields it: not empty, no comma, no white space at
      either end. */
  predicate CleanTag(t: string) {
    t != [] && ',' !in t && !IsWhitespace(t[0]) && !IsWhitespace(t[|t| - 1])
  }

  /** `value.split(',').map(tag => tag.trim()).filter(tag => tag)`. */
  function ParseTags(text: string): seq<string> {
    Filter(TrimAll(Split(text, ',')), (t: string) => t != "")
  }

  lemma TrimKeepsOut(p: string, c: char)
    requires c !in p
    ensures c !in Trim(p)
  {
    var r := Trim(p);
    var i :| TrimmedAt(p, r, i);
    assert r == p[i..i + |r|];
    forall k | 0 <= k < |r| ensures r[k] != c {
      assert r[k] == p[i + k];
    }
  }

  /** Every parsed tag is clean. */
  lemma ParseTagsClean(text: string)
    ensures forall k :: 0 <= k < |ParseTags(text)| ==> CleanTag(ParseTags(text)[k])
  {
    var pieces := Split(text, ',');
    var trimmed := TrimAll(pieces);
    var tags := Filter(trimmed, (t: string) => t != "");
    forall k | 0 <= k < |tags| ensures CleanTag(tags[k]) {
      assert tags[k] in trimmed && tags[k] != "";
      var j :| 0 <= j < |trimmed| && trimmed[j] == tags[k];
      TrimKeepsOut(pieces[j], ',');
    }
  }

  /** There is at most one tag more than there are commas. */
  lemma ParseTagsCount(text: string)
    ensures |ParseTags(text)| <= Occurrences(text, ',') + 1
  {
    SplitJoin(text, ',');
  }

  /** `tags.join(', ')`: how a saved piece's tags are written back into the field. */
  function TagsText(tags: seq<string>): string {
    if |tags| == 0 then ""
    else if |tags| == 1 then tags[0]
    else tags[0] + ", " + TagsText(tags[1..])
  }

  /** Each piece with one space in front. */
  function Spaced(ws: seq<string>): (r: seq<string>)
    ensures |r| == |ws| && forall i :: 0 <= i < |ws| ==> r[i] == " " + ws[i]
  {
    if ws == [] then [] else [" " + ws[0]] + Spaced(ws[1..])
  }

  lemma {:induction false} SplitTagsText(tags: seq<string>)
    requires |tags| >= 1 && forall k :: 0 <= k < |tags| ==> CleanTag(tags[k])
    ensures Split(TagsText(tags), ',') == [tags[0]] + Spaced(tags[1..])
    decreases |tags|
  {
    if |tags| == 1 {
      SplitNoSeparator(tags[0], ',');
    } else {
      var rest := tags[1..];
      var w := TagsText(rest);
      SplitTagsText(rest);
      assert TagsText(tags) == tags[0] + [','] + (" " + w);
      SplitAfterSeparator(tags[0], " " + w, ',');
      SplitPrefix(" ", w, ',');
      assert " " + rest[0] + "" == " " + rest[0];
      assert Spaced(rest) == [" " + rest[0]] + Spaced(rest[1..]);
    }
  }

  lemma TrimClean(t: string)
    requires CleanTag(t)
    ensures Trim(t) == t && Trim(" " + t) == t
  {
    assert (" " + t)[1..] == t;
    assert TrimStart(" " + t) == TrimStart(t);
  }

  lemma TrimPieces(tags: seq<string>)
    requires |tags| >= 1 && forall k :: 0 <= k < |tags| ==> CleanTag(tags[k])
    ensures TrimAll([tags[0]] + Spaced(tags[1..])) == tags
  {
    var pieces := [tags[0]] + Spaced(tags[1..]);
    var r := TrimAll(pieces);
    forall k | 0 <= k < |tags| ensures r[k] == tags[k] {
      TrimClean(tags[k]);
      if k == 0 {
        assert pieces[k] == tags[k];
      } else {
        assert pieces[k] == Spaced(tags[1..])[k - 1] == " " + tags[k];
      }
    }
    assert r == tags;
  }

  /** Writing clean tags into the field and reading the field back gives the same
      tags. */
  lemma TagsRoundTrip(tags: seq<string>)
    requires forall k :: 0 <= k < |tags| ==> CleanTag(tags[k])
    ensures ParseTags(TagsText(tags)) == tags
  {
    if tags == [] {
      assert Split("", ',') == [""];
      assert TrimAll([""]) == [""];
    } else {
      SplitTagsText(tags);
      TrimPieces(tags);
      FilterKeepsAll(tags, (t: string) => t != "");
    }
  }

  // ---------------------------------------------------------------------------
  // The form (js/marketing.js:379-404)

  /** `getFormData()`: without a ticked platform the form is refused. */
  function GetFormData(form: ContentForm): (r: Result<ContentData>)
    ensures r.Err? <==> form.platforms == []
    ensures r.Ok? ==> r.value == ContentData(form.title, form.platforms, form.contentType, form.status,
                                             form.text, ParseTags(form.tagsText), form.notes,
                                             form.publishDate, form.publishTime)
  {
    if form.platforms == [] then Err("No platforms selected")
    else Ok(ContentData(form.title, form.platforms, form.contentType, form.status, form.text,
                        ParseTags(form.tagsText), form.notes, form.publishDate, form.publishTime))
  }

  function IndexOfContent(contents: seq<Content>, id: nat): (i: int)
    ensures -1 <= i < |contents|
    ensures i == -1 <==> forall j :: 0 <= j < |contents| ==> contents[j].id != id
    ensures 0 <= i ==> contents[i].id == id
  {
    FindIndex(contents, (c: Content) => c.id, id)
  }

  function WithoutContent(contents: seq<Content>, id: nat): seq<Content> {
    Filter(contents, (c: Content) => c.id != id)
  }

  /** A delete removes every piece with that id and keeps the others in order. */
  lemma WithoutContentSpec(contents: seq<Content>, id: nat)
    ensures IndexOfContent(WithoutContent(contents, id), id) == -1
    ensures Subsequence(WithoutContent(contents, id), contents)
    ensures forall j :: 0 <= j < |contents| && contents[j].id != id ==> contents[j] in WithoutContent(contents, id)
  {
    FilterIsSubsequence(contents, (c: Content) => c.id != id);
  }

  ghost predicate IdsFresh(contents: seq<Content>, nextId: nat) {
    && (forall i :: 0 <= i < |contents| ==> contents[i].id < nextId)
    && (forall i, j :: 0 <= i < j < |contents| ==> contents[i].id != contents[j].id)
  }

  lemma IdsFreshAppend(contents: seq<Content>, c: Content, nextId: nat)
    requires IdsFresh(contents, nextId) && c.id == nextId
    ensures IdsFresh(contents + [c], nextId + 1)
  {
    var s := contents + [c];
    forall i, j | 0 <= i < j < |s| ensures s[i].id != s[j].id {
      assert s[i] == contents[i];
    }
  }

  lemma IdsFreshTail(contents: seq<Content>, nextId: nat)
    requires IdsFresh(contents, nextId) && contents != []
    ensures IdsFresh(contents[1..], nextId)
  {
    var rest := contents[1..];
    forall i, j | 0 <= i < j < |rest| ensures rest[i].id != rest[j].id {
      assert rest[i] == contents[i + 1] && rest[j] == contents[j + 1];
    }
  }

  lemma IdsFreshCons(c: Content, rest: seq<Content>, nextId: nat)
    requires IdsFresh(rest, nextId) && c.id < nextId
    requires forall k :: 0 <= k < |rest| ==> rest[k].id != c.id
    ensures IdsFresh([c] + rest, nextId)
  {
    var s := [c] + rest;
    forall i, j | 0 <= i < j < |s| ensures s[i].id != s[j].id {
      assert s[j] == rest[j - 1];
      if i > 0 {
        assert s[i] == rest[i - 1];
      }
    }
  }

  lemma {:induction false} WithoutContentKeepsIdsFresh(contents: seq<Content>, nextId: nat, id: nat)
    requires IdsFresh(contents, nextId)
    ensures IdsFresh(WithoutContent(contents, id), nextId)
    decreases |contents|
  {
    if contents != [] {
      var rest := contents[1..];
      IdsFreshTail(contents, nextId);
      WithoutContentKeepsIdsFresh(rest, nextId, id);
      var r := WithoutContent(rest, id);
      assert WithoutContent(contents, id) == if contents[0].id != id then [contents[0]] + r else r;
      if contents[0].id != id {
        forall k | 0 <= k < |r| ensures r[k].id != contents[0].id {
          assert r[k] in rest;
          var m :| 0 <= m < |rest| && rest[m] == r[k];
          assert rest[m] == contents[m + 1];
        }
        IdsFreshCons(contents[0], r, nextId);
      }
    }
  }

  /** What saving `data` at `now` makes of the store (contents, next id, edited
      id): an edit of a piece that is gone changes nothing. */
  ghost predicate Saved(contents: seq<Content>, nextId: nat, editing: Option<nat>, data: ContentData, now: int,
                        contents': seq<Content>, nextId': nat, editing': Option<nat>)
  {
    if editing.Some? then
      var i := IndexOfContent(contents, editing.value);
      && nextId' == nextId
      && (i == -1 ==> contents' == contents && editing' == editing)
      && (i != -1 ==> contents' == contents[i := contents[i].(data := data, updatedAt := now)] && editing' == None)
    else
      contents' == contents + [Content(nextId, data, now, now, None)] && nextId' == nextId + 1 && editing' == None
  }

  // ---------------------------------------------------------------------------
  // The content store (js/marketing.js:365-477, 696-725, 739-741)

  class ContentStore {
    var contents: seq<Content>
    var nextId: nat
    /** The id of the piece the open form edits (`editingContentId`). */
    var editingId: Option<nat>
    var currentView: string

    ghost predicate Valid()
      reads this
    {
      IdsFresh(contents, nextId)
    }

    constructor()
      ensures Valid()
      ensures contents == [] && editingId == None && currentView == "list"
    {
      contents := [];
      nextId := 0;
      editingId := None;
      currentView := "list";
    }

    /** `openContentModal(content)`: editing a piece remembers its id, a new piece
        clears it. */
    method OpenForm(content: Option<Content>)
      modifies this
      ensures editingId == if content.Some? then Some(content.value.id) else None
      ensures contents == old(contents) && nextId == old(nextId) && currentView == old(currentView)
    {
      editingId := if content.Some? then Some(content.value.id) else None;
    }

    /** `editContent(id)`. */
    method Edit(id: nat)
      modifies this
      ensures editingId == if IndexOfContent(contents, id) == -1 then old(editingId) else Some(id)
      ensures contents == old(contents) && nextId == old(nextId) && currentView == old(currentView)
    {
      var i := IndexOfContent(contents, id);
      if i != -1 {
        OpenForm(Some(contents[i]));
      }
    }

    method CloseForm()
      modifies this
      ensures editingId == None
      ensures contents == old(contents) && nextId == old(nextId) && currentView == old(currentView)
    {
      editingId := None;
    }

    /** `saveContentData(data)`: an edit replaces the form's fields of the edited
        piece in place, keeping its id and position; when that piece is gone,
        nothing changes and the form stays open. Otherwise the piece is appended
        with a fresh id. A successful save closes the form. */
    method SaveContentData(data: ContentData, now: int)
      requires Valid()
      modifies this
      ensures Valid()
      ensures currentView == old(currentView)
      ensures Saved(old(contents), old(nextId), old(editingId), data, now, contents, nextId, editingId)
    {
      if editingId.Some? {
        var i := IndexOfContent(contents, editingId.value);
        if i == -1 {
          return;
        }
        contents := contents[i := contents[i].(data := data, updatedAt := now)];
      } else {
        IdsFreshAppend(contents, Content(nextId, data, now, now, None), nextId);
        contents := contents + [Content(nextId, data, now, now, None)];
        nextId := nextId + 1;
      }
      editingId := None;
    }

    /** `saveContent()`: the piece is stored as scheduled, whatever status the form
        shows; a form without platforms stores nothing. */
    method SaveContent(form: ContentForm, now: int)
      requires Valid()
      modifies this
      ensures Valid()
      ensures form.platforms == [] ==> contents == old(contents) && nextId == old(nextId) && editingId == old(editingId)
      ensures form.platforms != [] ==>
                Saved(old(contents), old(nextId), old(editingId), GetFormData(form).value.(status := "scheduled"), now,
                      contents, nextId, editingId)
      ensures currentView == old(currentView)
    {
      var r := GetFormData(form);
      if r.Ok? {
        SaveContentData(r.value.(status := "scheduled"), now);
      }
    }

    /** `saveAsDraft()`: as `saveContent`, but stored as a draft. */
    method SaveAsDraft(form: ContentForm, now: int)
      requires Valid()
      modifies this
      ensures Valid()
      ensures form.platforms == [] ==> contents == old(contents) && nextId == old(nextId) && editingId == old(editingId)
      ensures form.platforms != [] ==>
                Saved(old(contents), old(nextId), old(editingId), GetFormData(form).value.(status := "draft"), now,
                      contents, nextId, editingId)
      ensures currentView == old(currentView)
    {
      var r := GetFormData(form);
      if r.Ok? {
        SaveContentData(r.value.(status := "draft"), now);
      }
    }

    /** `publishNow(id)` once confirmed: only that piece changes, to published at
        this moment. */
    method PublishNow(id: nat, now: int)
      requires Valid()
      modifies this
      ensures Valid()
      ensures var i := IndexOfContent(old(contents), id);
              contents == if i == -1 then old(contents)
                          else old(contents)[i := old(contents)[i].(data := old(contents)[i].data.(status := "published"), publishedAt := Some(now))]
      ensures nextId == old(nextId) && editingId == old(editingId) && currentView == old(currentView)
    {
      var i := IndexOfContent(contents, id);
      if i != -1 {
        var c := contents[i];
        contents := contents[i := c.(data := c.data.(status := "published"), publishedAt := Some(now))];
      }
    }

    /** `deleteContent(id)` once confirmed. */
    method DeleteContent(id: nat)
      requires Valid()
      modifies this
      ensures Valid()
      ensures contents == WithoutContent(old(contents), id)
      ensures nextId == old(nextId) && editingId == old(editingId) && currentView == old(currentView)
    {
      WithoutContentKeepsIdsFresh(contents, nextId, id);
      contents := WithoutContent(contents, id);
    }

    method SwitchView(view: string)
      modifies this
      ensures currentView == view
      ensures contents == old(contents) && nextId == old(nextId) && editingId == old(editingId)
    {
      currentView := view;
    }
  }

  // ---------------------------------------------------------------------------
  // Content list (js/marketing.js:482-516)

  /** The platform filter and the status filter both apply. */
  predicate Listed(platform: string, status: string, c: Content) {
    (platform == "all" || platform in c.data.platforms) && (status == "all" || c.data.status == status)
  }

  /** The date a piece sorts by: its publish date, or 9999-12-31 when it has none. */
  function SortDate(c: Content): Date {
    if c.data.publishDate.Some? then c.data.publishDate.value else Date(9999, 12, 31)
  }

  predicate DateLe(a: Date, b: Date) {
    a.year < b.year || (a.year == b.year && (a.month < b.month || (a.month == b.month && a.day <= b.day)))
  }

  /** The list order: scheduled pieces first, then by sort date. */
  predicate ListOrder(a: Content, b: Content) {
    (a.data.status == "scheduled" && b.data.status != "scheduled")
    || ((a.data.status == "scheduled") == (b.data.status == "scheduled") && DateLe(SortDate(a), SortDate(b)))
  }

  lemma ListOrderIsTotalPreorder()
    ensures TotalPreorder(ListOrder)
  {
  }

  function ContentList(contents: seq<Content>, platform: string, status: string): seq<Content> {
    SortBy(Filter(contents, (c: Content) => Listed(platform, status, c)), ListOrder)
  }

  /** The list holds exactly the pieces both filters accept, each as often as it is
      stored; every scheduled piece comes before every other, and within each group
      the publish dates ascend with undated pieces last. */
  lemma ContentListSpec(contents: seq<Content>, platform: string, status: string)
    ensures var r := ContentList(contents, platform, status);
            && multiset(r) == multiset(Filter(contents, (c: Content) => Listed(platform, status, c)))
            && (forall c :: c in r <==> c in contents && Listed(platform, status, c))
            && (forall i, j :: 0 <= i < j < |r| && r[j].data.status == "scheduled" ==> r[i].data.status == "scheduled")
            && (forall i, j :: 0 <= i < j < |r| && (r[i].data.status == "scheduled") == (r[j].data.status == "scheduled")
                  ==> DateLe(SortDate(r[i]), SortDate(r[j])))
  {
    var kept := Filter(contents, (c: Content) => Listed(platform, status, c));
    var r := ContentList(contents, platform, status);
    ListOrderIsTotalPreorder();
    SortBySorted(kept, ListOrder);
    forall c
      ensures c in r <==> c in contents && Listed(platform, status, c)
    {
      assert c in r <==> c in multiset(r);
      assert c in kept <==> c in multiset(kept);
      if c in contents && Listed(platform, status, c) {
        var i :| 0 <= i < |contents| && contents[i] == c;
      }
      if c in kept {
        var i :| 0 <= i < |kept| && kept[i] == c;
      }
    }
  }

  // ---------------------------------------------------------------------------
  // Counters (js/marketing.js:763-770)

  function StatusCount(contents: seq<Content>, status: string): nat {
    if contents == [] then 0
    else StatusCount(contents[..|contents| - 1], status) + (if contents[|contents| - 1].data.status == status then 1 else 0)
  }

  /** The pieces whose status is none of draft, scheduled and published. */
  function OtherCount(contents: seq<Content>): nat {
    if contents == [] then 0
    else
      var s := contents[|contents| - 1].data.status;
      OtherCount(contents[..|contents| - 1]) + (if s != "draft" && s != "scheduled" && s != "published" then 1 else 0)
  }

  /** Drafts, scheduled and published pieces together with the rest make up the
      total, so the three counters never exceed it. */
  lemma {:induction false} CountersAddUp(contents: seq<Content>)
    ensures StatusCount(contents, "draft") + StatusCount(contents, "scheduled") + StatusCount(contents, "published")
            + OtherCount(contents) == |contents|
    ensures StatusCount(contents, "draft") + StatusCount(contents, "scheduled") + StatusCount(contents, "published")
            <= |contents|
    decreases |contents|
  {
    if contents != [] {
      CountersAddUp(contents[..|contents| - 1]);
    }
  }

  // ---------------------------------------------------------------------------
  // "Created" line (js/marketing.js:820-831)

  /** `formatRelativeDate(createdAt)`; `displayDate` is the piece's date in the
      long display form, shown for anything a month or more back. */
  function RelativeDate(createdAt: Option<int>, now: int, displayDate: string): (line: string)
    ensures createdAt.None? ==> line == "Unknown"
    ensures createdAt.Some? && ElapsedDays(createdAt.value, now) >= 30 ==> line == displayDate
  {
    match createdAt
    case None => "Unknown"
    case Some(t) =>
      match AgeOf(ElapsedDays(t, now))
      case Yesterday => "Yesterday"
      case DaysAgo(n) => Decimal(n) + " days ago"
      case WeeksAgo(n) => Decimal(n) + " weeks ago"
      case Older(_) => displayDate
  }

  /** Within the first month the line reads back the number of days or weeks. */
  lemma RelativeDateCounts(t: int, now: int, displayDate: string)
    ensures var d := ElapsedDays(t, now);
            var line := RelativeDate(Some(t), now, displayDate);
            && (d == 1 ==> line == "Yesterday")
            && (d < 30 && line == "Yesterday" ==> d == 1)
            && (d != 1 && d < 7 ==> line == Decimal(d) + " days ago" && DigitsValue(line[..|line| - 9]) == d)
            && (7 <= d < 30 ==> line == Decimal(d / 7) + " weeks ago" && DigitsValue(line[..|line| - 10]) == d / 7)
  {
    var d := ElapsedDays(t, now);
    var line := RelativeDate(Some(t), now, displayDate);
    DecimalValue(d);
    DecimalValue(d / 7);
    if d != 1 && d < 7 {
      assert line[..|line| - 9] == Decimal(d);
      assert line[|line| - 9..] == " days ago";
    }
    if 7 <= d < 30 {
      assert line[..|line| - 10] == Decimal(d / 7);
      var w := Decimal(d / 7);
      assert (w + " weeks ago")[|w| + 1..] == "weeks ago";
    }
  }
}
