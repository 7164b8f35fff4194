# De Supreme Laundry House dashboard — a verified model of its record logic

This project models the record logic under four screens of a laundry business dashboard, written in Dafny:

- **Scheduling** (`scheduling.js`)
  - The appointment store and its edits: save as an edit, a single booking or a series of repeats; status toggle; complete; delete.
  - The time-slot choices and the `HH:MM` clock.
  - The expansion of a repeating booking into its copies.
  - The list view's filter and (date, time) order.
  - The calendar grid's month geometry and per-day counts, with month navigation.
  - Resource occupancy at an instant, and the four quick counters.
- **Finance** (`finance.js`)
  - Appending a record.
  - Grouping the records into `YYYY-MM` buckets, and the sorted chart labels.
  - The current month's revenue, expenses, profit and margin.
  - The goal-progress bars.
  - The "last ten, newest first" view and the category labels.
- **CRM** (`js/crm.js`)
  - The customer book and its filter chain (search, status, preference).
  - The row tags and the "last contacted" line.
  - The customer form and adding, updating, annotating and contacting customers.
- **Marketing** (`js/marketing.js`)
  - The content store and its form: tag parsing, the at-least-one-platform check and the forced status on save.
  - Publishing and deleting.
  - The platform and status filters with the scheduled-first, then by-date order.
  - The status counters and the "created ... ago" line.

## Conventions

- **Days** are day numbers: day 0 is 0001-01-01, in the proleptic Gregorian calendar of RFC 3339 (section 5.7 and Appendix C).
- **Date strings** are the RFC 3339 section 5.6 `full-date` form, with a four-digit year. `FullDate` shows that formatting and parsing are inverse, so comparing two such strings compares the days they name. The calendar cell string (scheduling.js:510) writes the year unpadded. It agrees with this form only from year 1000 on (see Left out).
- **Times of day** are minutes since midnight.
- **Timestamps** are milliseconds from the start of day 0, taken in UTC.
- **Money** is whole cents.
- **The clock** ("today", "now") is a parameter of every operation that reads it.
- **Ids** come from a counter owned by each store: an abstract supplier of fresh ids. Each store class keeps the invariant that ids are below the counter and pairwise distinct.
- **Stores** are classes:
  - Their record sequence is a `seq` field.
  - Each mutation is a method that states the whole new state.
  - The views over the store are functions, with lemmas stating what they promise.

Modules:

| module | file | what |
|---|---|---|
| `Wrappers`, `Seqs`, `Sorting`, `Text` | wrappers.dfy, seqs.dfy, text.dfy | Option/Result, filters and subsequences, a stable insertion sort, string helpers |
| `Calendar`, `FullDate` | calendar.dfy, full_date.dfy | day numbers, JavaScript `new Date(y, m, d)` and `setMonth` normalisation, `YYYY-MM-DD` |
| `TimeOfDay`, `Slots` | time_of_day.dfy, slots.dfy | `parseTime`/`formatTime`, `generateTimeSlots` |
| `Appointments`, `Recurrence` | appointments.dfy, recurrence.dfy | appointment records, merge, status cycle; `generateRecurringAppointments` |
| `ScheduleViews`, `Scheduler` | schedule_views.dfy, scheduler.dfy | the read-only views; the store class `Store` |
| `Finance` | finance.dfy | grouping, overview, progress, recent view, labels; the store class `Ledger` |
| `RelativeTime`, `Crm` | relative_time.dfy, crm.dfy | "how long ago"; the customer book class `CustomerBook` |
| `Marketing` | marketing.dfy | tags, form, list, counters; the store class `ContentStore` |

Details of the code the model keeps, where a quick reading might expect otherwise:

- **Two-digit years:** `new Date(year, month, 1)` reads a year of 0 to 99 as 1900 + year. The calendar grid of a month in years 1 to 99 therefore starts on the weekday of the year 1900 later. `setMonth` has no such mapping.
- **Occupancy end:** the end of an occupied interval is inclusive.
- **Marketing filters:** the platform and status filters both apply, one after the other.
- **CRM contact line:** the line carries a `Contacted ` prefix ("Contacted 3 days ago").
- **Finance overview:** it counts only type `expense` as expenses, while the monthly buckets count every non-revenue type.

## Model

| member | source | states |
|---|---|---|
| Calendar.DaysInMonth | scheduling.js:482-483 | a month has 28 to 31 days: 31 for the long months, 30 for April, June, September and November, 29 only for February of a leap year |
| Calendar.ToDate | scheduling.js:471-472 | every day number has a valid calendar date, whose day number is that day number |
| Calendar.ToDateOfDayNumber | scheduling.js:481 | date to day number and back gives the date |
| Calendar.DayNumberInjective | scheduling.js:481 | distinct valid dates have distinct day numbers |
| Calendar.Weekday | scheduling.js:484 | `getDay()` is in 0..6; `WeekdayAnchor` and `WeekdayNext` fix its value |
| Calendar.WeekdayNext | scheduling.js:484 | the weekday advances by one each day and repeats every seven days |
| Calendar.DaysBeforeYearClosed | scheduling.js:484 | the days before year y are 365 a year plus one per leap year among 1 .. y−1 (⌊(y−1)/4⌋ − ⌊(y−1)/100⌋ + ⌊(y−1)/400⌋) |
| Calendar.LeapDaysStep | scheduling.js:484 | the leap-day count grows by one at a year exactly when that year is a leap year |
| Calendar.WeekdayAnchor | scheduling.js:484 | 1970-01-01 was a Thursday (4); with `WeekdayNext` this fixes `getDay()` for every day |
| Calendar.NormalizeMonth | scheduling.js:482 | an overflowing month index lands in month 1..12 of the year that keeps the month count |
| Calendar.MakeDayInRange | scheduling.js:481 | the date arithmetic on a full year (no two-digit mapping) and an in-range month and day gives that date |
| Calendar.MakeDayZero | scheduling.js:482 | the date arithmetic on a full year: day 0 of month m + 1 is the last day of month m |
| Calendar.ConstructorYearSameMonths | scheduling.js:482 | a year from 1 to 99 and the year 1900 later have the same month lengths |
| Calendar.NewDateInRange | scheduling.js:481 | `new Date(y, m, d)` on an in-range month and day is that date in year y from 100 on, and in year 1900 + y for y in 1..99 |
| Calendar.NewDateZero | scheduling.js:482 | `new Date(y, m + 1, 0)` is the last day of month m, in the year the constructor maps y to, with month m's length in year y |
| Calendar.ShiftedDayFits | scheduling.js:449 | `setMonth(getMonth() + k)` keeps the day of month when the target month has it |
| Calendar.ShiftedDayOverflows | scheduling.js:449 | otherwise the date rolls into the month after, by the missing days |
| Calendar.AddMonths | scheduling.js:449 | `setMonth(getMonth() + k)` gives a day that is the same day of month k months on, or, when that month is too short, the overshoot into the month after |
| Calendar.MakeDayShifts | scheduling.js:449 | `new Date(y, m - 1 + k, day)` of a valid date lands where `setMonth` is specified to land |
| Calendar.DayPastMonthEnd | scheduling.js:449 | a day past a month's end is that many days into the next month |
| FullDate.ParseFormat | scheduling.js:510 | parsing a formatted `YYYY-MM-DD` gives the date back |
| FullDate.FormatParse | scheduling.js:432 | every string that parses is the formatting of its date |
| FullDate.FormatInjective | scheduling.js:522 | equal `YYYY-MM-DD` strings name the same day. For years 1000 to 9999, where the cell's unpadded year has four digits, the per-day string match therefore counts exactly that day |
| FullDate.MonthKeyOrder | finance.js:234 | `YYYY-MM` keys compare, code unit by code unit, in calendar order (both directions) |
| FullDate.Format | scheduling.js:510 | the string is 10 characters with dashes at 4 and 7, and its first 7 are the month key. The year is padded to four digits, as the cell string is from year 1000 on |
| TimeOfDay.ReadNumber | scheduling.js:299 | a piece reads as a number exactly when it is all digits |
| TimeOfDay.FormatTime | scheduling.js:305-307 | the label is `HH:MM`: five characters, a colon at 2, digits around it |
| TimeOfDay.ParseFormatTime | scheduling.js:298-307 | reading a formatted time gives back its minute of the day |
| TimeOfDay.ParseFormatTimeWithinDay | scheduling.js:298-307 | a time within the day reads back exactly |
| TimeOfDay.ParseCanonicalTime | scheduling.js:298-303 | a well-formed `HH:MM` reads as 60·h + m |
| TimeOfDay.FormatCanonicalTime | scheduling.js:305-307 | minute 60·h + m is written as two-digit hour, colon, two-digit minute |
| TimeOfDay.ParseTimeNeedsColon | scheduling.js:299-301 | text without a colon is no time (an invalid date) |
| Slots.SlotStarts | scheduling.js:285-292 | the first slot is the opening time, each lies in [start, end), the last is within one slot of the end, and there is none when start >= end |
| Slots.GenerateTimeSlots | scheduling.js:278-296 | the loop yields exactly the labels of those slot starts |
| Slots.SlotOffset | scheduling.js:291 | slot i starts i slot lengths after the opening time |
| Slots.SlotCount | scheduling.js:285-292 | the last slot starts before closing and one more would not: the count is the number of slot lengths, rounded up, between opening and closing |
| Slots.SlotLabelsReadBack | scheduling.js:289 | each slot label reads back as its slot's time |
| Slots.DefaultSlots | scheduling.js:279-292 | 08:00 to 20:00 in hour slots gives the twelve slots 08:00 .. 19:00 |
| Appointments.Merged | scheduling.js:383-387 | an edit takes every form field; the old repeat settings survive only when the form has none |
| Appointments.Merge | scheduling.js:383-387 | an edited record keeps its id and creation time, takes the merged data and a new `updatedAt` |
| Appointments.MergeOwnData | scheduling.js:383-387 | saving a record's own data changes only its `updatedAt` |
| Appointments.MergeIdempotent | scheduling.js:383-387 | a second identical edit changes only the timestamp |
| Appointments.IndexOf | scheduling.js:738 | `indexOf`: the first position holding the status, or -1 exactly when it is absent |
| Appointments.NextStatus | scheduling.js:736-739 | the next status is always one of the four listed |
| Appointments.StatusCycle | scheduling.js:737-739 | pending → confirmed → completed → cancelled → pending |
| Appointments.UnknownStatusBecomesPending | scheduling.js:738-739 | a status outside the list becomes pending |
| Appointments.FourTogglesRestore | scheduling.js:737-741 | four toggles bring every listed status back |
| Appointments.EffectiveDuration | scheduling.js:872 | `duration \|\| 60`: the duration when present and non-zero, else 60 minutes |
| Recurrence.Instance | scheduling.js:429-438 | copy k has its own id, its day, `instance = k`, a creation time, and every other field of the base |
| Recurrence.GenerateRecurringAppointments | scheduling.js:418-455 | the while loop yields exactly `Recurrences(base, …)` |
| Recurrence.RecurrenceIds | scheduling.js:429-430 | the copies take consecutive fresh ids from the first one, so ids never clash |
| Recurrence.RecurrencesBounds | scheduling.js:426-438 | `Recurrences`: at most 50 copies; copy k is `Instance(base, firstId + k, …, k + 1)`; every copy's day is on or before the end day |
| Recurrence.NothingPastEnd | scheduling.js:428 | a first day after the end day, or no end day, gives no copy at all |
| Recurrence.FixedStepDates | scheduling.js:444-447 | daily copy k falls k days after the first day, weekly copy k falls 7k days after it |
| Recurrence.MonthlyDates | scheduling.js:448-449 | each monthly copy is `setMonth(+1)` of the one before, so a rolled-over day carries on |
| Recurrence.MonthlyStep | scheduling.js:449 | one monthly step lands on the same day next month, or rolls into the month after by the missing days |
| Recurrence.UnknownFrequencyRepeats | scheduling.js:428-450 | an unknown frequency gives exactly the remaining copies up to 50, all on the first day |
| Recurrence.ExpandSteps | scheduling.js:443-450 | `Expand`: each copy after the first is one `Advance` step (by the frequency) after the one before |
| Recurrence.WeeklyExample | scheduling.js:428-447 | weekly from 2024-01-01 until 2024-01-22 gives four copies |
| Recurrence.MonthlyRolloverExample | scheduling.js:449 | monthly from 2024-01-31 goes to 2024-03-02, then to 2024-04-02 |
| ScheduleViews.ByDateTimeIsTotalPreorder | scheduling.js:669-673 | the (date, time) comparison is a total preorder |
| ScheduleViews.ListViewSpec | scheduling.js:663-673 | `ListView`: the list is a permutation of the records the status filter accepts (membership both ways), sorted by (date, time), stable among equal keys |
| ScheduleViews.ListViewAll | scheduling.js:663-669 | with "all" the list is a reordering of the whole store |
| ScheduleViews.ResourceInUse | scheduling.js:864-874 | a resource is in use iff some record `Occupies` it: booked on it today, is neither completed nor cancelled, and now lies in [start, start + duration], end included |
| ScheduleViews.DryerExample | scheduling.js:866-874 | a 09:00 hour on Dryer 1 is in use at 09:30 and at 10:00, free at 10:30, free once completed |
| ScheduleViews.MonthLength | scheduling.js:482-483 | the grid has 28 to 31 days, the length of the shown month; the two-digit year mapping does not change it |
| ScheduleViews.LeadingBlanks | scheduling.js:481-498 | the blank cells number 0..6, the weekday of day 1 in the constructor's year: year y from 100 on, 1900 + y for y in 1..99 |
| ScheduleViews.TwoDigitYearBlanks | scheduling.js:481-484 | January of year 50 shows no blank cells, as 1950-01-01 was a Sunday, although 0050-01-01 was a Saturday |
| ScheduleViews.NewYear1950 | scheduling.js:484 | 1 January 1950 was a Sunday |
| ScheduleViews.NewYear50 | scheduling.js:484 | 1 January of year 50 was a Saturday |
| ScheduleViews.DayCounts | scheduling.js:507-522 | cell i shows the number of records on day first + i |
| ScheduleViews.MonthCounts | scheduling.js:507-522 | one count per day of the month, each the records on that day |
| ScheduleViews.MonthCountsTotal | scheduling.js:507-522 | the month's cell counts add up to the records dated in that month |
| ScheduleViews.DayCountsTotal | scheduling.js:522 | the `DayCount`s of consecutive days add up to the records in those days |
| ScheduleViews.RangeCountBound | scheduling.js:522 | no range of days holds more records than the store |
| ScheduleViews.WeekStart | scheduling.js:835 | the week starts at most six days before today |
| ScheduleViews.WeekHoldsToday | scheduling.js:834-837 | `WeekCount`'s week starts on a Sunday and holds today |
| ScheduleViews.TodayWithinWeek | scheduling.js:829-843 | with the corrected week window, "Today" (`TodayCount`) never exceeds "This week" (`WeekCount`) |
| ScheduleViews.WeekCountAsWrittenWindow | scheduling.js:834-842 | `WeekCountAsWritten`: as written, past midnight the week window covers Monday to Saturday only |
| ScheduleViews.PendingCountSplits | scheduling.js:846 | `PendingCount`: "Pending" and the records in every other status add up to the store |
| ScheduleViews.SaveRecurringCount | scheduling.js:850 | `RecurringCount`: saving a repeating booking raises "Recurring" by the number of its copies; a single booking leaves it |
| ScheduleViews.WeekCountAsWrittenMissesSunday | scheduling.js:829-843 | as written, a Sunday booking at 10:00 counts for "Today" but not for "This week" |
| Scheduler.IndexOfId | scheduling.js:381 | `findIndex`: a position holding the id, or -1 exactly when no record has it |
| Scheduler.WithoutIdRemoves | scheduling.js:790 | after a delete no record has the id |
| Scheduler.WithoutIdKeepsOthers | scheduling.js:790 | a delete keeps every other record, in order |
| Scheduler.WithoutIdIdempotent | scheduling.js:790 | deleting twice is deleting once |
| Scheduler.WithoutIdUnknown | scheduling.js:790 | deleting an unknown id changes nothing |
| Scheduler.WithoutIdKeepsIdsFresh | scheduling.js:790 | a delete keeps the store's ids fresh |
| Scheduler.IdsFreshAppend | scheduling.js:393-404 | appending records numbered from the counter keeps the ids fresh |
| Scheduler.NavigateAsWritten | scheduling.js:652 | as written, navigation lands where `setMonth` puts the full current date: same day of month, or rolled into the month after |
| Scheduler.NavigateAsWrittenSkipsFebruary | scheduling.js:652 | as written, "next" from 2023-01-31 lands on 2023-03-03 |
| Scheduler.NavigateAsWrittenSticks | scheduling.js:652 | as written, "previous" from 2023-03-31 lands on 2023-03-03, still March |
| Scheduler.NavigateTarget | scheduling.js:650-655 | corrected navigation: the first day of the month `direction` months away |
| Scheduler.NavigateTargetMoves | scheduling.js:650-655 | corrected navigation moves the month index by exactly `direction` and lands on day 1 |
| Scheduler.NavigateThereAndBack | scheduling.js:650-655 | with the corrected navigation, forward then back returns to the first of the shown month |
| Scheduler.Store.constructor | scheduling.js:2-4 | an empty store, no form open, showing today's month |
| Scheduler.Store.OpenNew | scheduling.js:127-128 | opening the form for a new booking clears the edited id |
| Scheduler.Store.Edit | scheduling.js:759-769 | the form opens on the record with that id, if any; nothing else changes |
| Scheduler.Store.CloseModal | scheduling.js:457-464 | closing clears the edited id |
| Scheduler.Store.Save | scheduling.js:353-416 | an edit merges in place (no change for a gone id); otherwise one record or all its repeats are appended with fresh ids; the form closes; ids stay fresh |
| Scheduler.Store.ToggleStatus | scheduling.js:730-752 | only the target's status moves to the next in the cycle; an unknown id changes nothing |
| Scheduler.Store.Complete | scheduling.js:771-784 | only the target's status becomes completed; an unknown id changes nothing |
| Scheduler.Store.Delete | scheduling.js:786-799 | the store becomes the records without that id; ids stay fresh |
| Scheduler.Store.NavigateMonth | scheduling.js:650-655 | as written: the shown day moves where `setMonth(getMonth() + direction)` puts it, the same day of month `direction` months on or rolled into the month after; nothing else changes |
| Scheduler.Store.GoToday | scheduling.js:86-94 | the calendar shows today's month |
| Finance.MonthOf | finance.js:215 | the month key is the first seven characters of the date, a prefix of it |
| Finance.GroupRecordsByMonth | finance.js:211-228 | the `forEach` loop yields exactly the buckets of `Grouped(records)` |
| Finance.GroupedDistinctKeys | finance.js:216-218 | no two buckets share a month |
| Finance.GroupedKeys | finance.js:215-218 | there is a bucket for a month iff some record is dated in it |
| Finance.GroupedTotals | finance.js:220-224 | each bucket holds its month's revenue records as revenue and every other type as expenses |
| Finance.NoBucketNoTotals | finance.js:215-218 | a month without a bucket has no amounts |
| Finance.GroupedConserves | finance.js:211-228 | the bucket totals add up to the sum of all amounts |
| Finance.ChartLabelsSorted | finance.js:234 | `ChartLabels`: the chart labels are a permutation of the bucket keys (`Keys`), in ascending order |
| Finance.ChartLabelsOfRecords | finance.js:234 | the labels of the grouped records: a label for a month iff some record is dated in it, and no label twice |
| Finance.ChartLabelsOnce | finance.js:234 | with distinct bucket keys, there is a label for a month iff a bucket has that key, and no label appears twice |
| Finance.ChartLabelsChronological | finance.js:234 | for `YYYY-MM` labels the ascending order is calendar order |
| Finance.MonthKeyInjective | finance.js:215 | two months with the same key are the same month |
| Finance.MonthOverview | finance.js:153-164 | profit = revenue − expenses; the margin is 0 when revenue is not positive, else margin · revenue = 100 · profit |
| Finance.Margin | finance.js:164 | the margin is zero without revenue; otherwise margin × revenue = 100 × profit |
| Finance.MarginRange | finance.js:164 | a profit no larger than the revenue gives a margin of at most 100 %; the margin is negative iff the profit is |
| Finance.MarginBounds | finance.js:163-164 | with non-negative expenses the margin is at most 100 %, and it is negative iff the month made a loss |
| Finance.OverviewMatchesBucket | finance.js:158-161 | the overview's revenue is the month bucket's (the `forEach` grouping); the bucket's expenses are the overview's plus the other record types |
| Finance.OverviewMonthOfDate | finance.js:158-159 | a record counts for the current month iff its date is in today's month and year |
| Finance.StartsWithMonth | finance.js:158-159 | for a seven-character month, "starts with" is "has that month key" |
| Finance.BarWidth | finance.js:196 | the width is `min(percentage, 100)` |
| Finance.BarGreenIffGoalReached | finance.js:179-198 | `Progress`: the bar is green, and full, exactly when the actual amount reached the goal |
| Finance.Recent | finance.js:350-352 | min(10, n) records, element i being `records[n-1-i]` |
| Finance.RecentAfterAdd | finance.js:352 | a new record heads the view and pushes the others one place down |
| Finance.CapitalizeAll | finance.js:379-381 | one word per piece |
| Finance.Titled | finance.js:378-382 | same length; a hyphen becomes a space; the character after a hyphen, and the first, is upper-cased |
| Finance.TitledIsFormat | finance.js:378-382 | the character-wise label equals split/capitalise/join |
| Finance.FormatCategorySpec | finance.js:378-382 | `FormatCategory`: the label has the category's length and hyphen count + 1 words, and is the character-wise label |
| Finance.Ledger.constructor | finance.js:138 | an empty record store |
| Finance.Ledger.AddRecord | finance.js:124-151 | exactly one record, with a fresh id and the creation time, is appended; earlier records are unchanged |
| RelativeTime.ElapsedDays | js/crm.js:216-217 | (the marketing view computes it the same way) the ceiling of the distance in days: zero iff the instants coincide, (d−1)·day < gap ≤ d·day |
| RelativeTime.AgeOf | js/crm.js:219-222 | d = 1 is yesterday; d < 7 (0 included) is d days; d < 30 is ⌊d/7⌋ weeks (1..4); otherwise ⌊d/30⌋ months — each case iff |
| RelativeTime.AgeMonotone | js/crm.js:219-222 | a longer distance never shows an earlier bucket or a smaller count |
| Crm.IndexOfCustomer | js/crm.js:348 | `findIndex`: a position holding the id, or -1 exactly when none has it |
| Crm.DaysSinceVisitIsDayDifference | js/crm.js:196-197 | the days since a visit are today's day number minus the visit's |
| Crm.CustomerTags | js/crm.js:193-208 | Inactive iff the visit is more than 30 days back; Premium iff premium; empty iff neither |
| Crm.InactiveAfterThirtyDays | js/crm.js:195-201 | Inactive iff today is more than 30 days after the visit day |
| Crm.LastContactInfo | js/crm.js:211-222 | "No contact yet" iff no contact recorded, else a line starting "Contacted " |
| Crm.LastContactLines | js/crm.js:219-222 | for a distance of d days: "Contacted yesterday" iff d = 1; "Contacted d days ago" below 7; "Contacted ⌊d/7⌋ weeks ago" below 30; else "Contacted ⌊d/30⌋ months ago" |
| Crm.LabelEnding | js/crm.js:219-222 | the last nine characters tell the bucket kind apart |
| Crm.ContactLabelInjective | js/crm.js:219-222 | `ContactLabel`: different buckets or counts give different lines |
| Crm.DecimalInjective | js/crm.js:220-222 | different counts are written differently |
| Crm.SearchStageIsFilter | js/crm.js:229-236 | the search stage keeps exactly the customers whose lower-cased name, e-mail or address, or raw phone, contains the term; an empty term keeps all |
| Crm.StatusStageIsFilter | js/crm.js:239-241 | the status stage keeps exactly the matching status unless "all" |
| Crm.PreferenceStageIsFilter | js/crm.js:244-246 | the preference stage keeps exactly the matching preference unless "all" |
| Crm.ApplyFiltersSpec | js/crm.js:225-249 | `ApplyFilters`: the table is the stored customers passing all three filters, in stored order |
| Crm.NoFiltersShowsAll | js/crm.js:225-249 | with every filter off the table is the whole book |
| Crm.FormData | js/crm.js:290-301 | a new customer is active with no notes or tags; an edit takes the chosen status and keeps notes and tags; the visit is today and the contact now |
| Crm.IdsFreshAppend | js/crm.js:316-324 | appending a customer with the counter's id keeps ids fresh |
| Crm.CustomerBook.constructor | js/crm.js:3-8 | an empty book, no open form, every filter off |
| Crm.CustomerBook.SetSearch | js/crm.js:31 | the search term is stored lower-cased |
| Crm.CustomerBook.SetStatusFilter | js/crm.js:38 | only the status filter changes |
| Crm.CustomerBook.SetPreferenceFilter | js/crm.js:43 | only the preference filter changes |
| Crm.CustomerBook.OpenForm | js/crm.js:251-268 | the open form edits the given customer, or none |
| Crm.CustomerBook.Edit | js/crm.js:363-370 | the form opens on that customer when there is one |
| Crm.CustomerBook.CloseForm | js/crm.js:270-273 | closing clears the edited customer |
| Crm.CustomerBook.AddCustomer | js/crm.js:314-344 | one customer with a fresh id and nothing spent is appended |
| Crm.CustomerBook.UpdateCustomer | js/crm.js:346-361 | the fields replace the customer's in place; id, position, creation time and spending stay; unknown id is a no-op |
| Crm.CustomerBook.SubmitForm | js/crm.js:287-312 | update the edited customer or add a new one with the form's data, then close the form |
| Crm.CustomerBook.AddCustomerNote | js/crm.js:537-556 | the new note goes to index 0 of that customer's notes (created when missing); others unchanged; unknown id is a no-op |
| Crm.CustomerBook.UpdateLastContact | js/crm.js:588-597 | only that customer's `lastContact` changes |
| Crm.CustomerBook.EmailCustomer | js/crm.js:573-586 | the contact time changes only for a customer with an e-mail address |
| Marketing.TrimAll | js/marketing.js:396 | each piece trimmed, one per piece |
| Marketing.ParseTagsClean | js/marketing.js:396 | `ParseTags`: no parsed tag is empty, holds a comma, or starts or ends with white space |
| Marketing.ParseTagsCount | js/marketing.js:396 | there are at most comma count + 1 tags |
| Marketing.TagsRoundTrip | js/marketing.js:301 | tags written back with `join(', ')` and read again by the form's `split(',')`, `trim` and `filter` are the same tags |
| Marketing.GetFormData | js/marketing.js:379-404 | refused iff no platform is ticked; otherwise the form's fields with the parsed tags |
| Marketing.IndexOfContent | js/marketing.js:416 | `findIndex`: a position holding the id, or -1 exactly when none has it |
| Marketing.WithoutContentSpec | js/marketing.js:718 | a delete removes every piece with the id and keeps the others, in order |
| Marketing.WithoutContentKeepsIdsFresh | js/marketing.js:718 | a delete keeps ids fresh |
| Marketing.IdsFreshAppend | js/marketing.js:432-438 | appending a piece with the counter's id keeps ids fresh |
| Marketing.ContentStore.constructor | js/marketing.js:5-6 | an empty store, no form open, list view |
| Marketing.ContentStore.OpenForm | js/marketing.js:128-138 | editing remembers the piece's id; a new piece clears it |
| Marketing.ContentStore.Edit | js/marketing.js:658-669 | the form opens on that piece when there is one |
| Marketing.ContentStore.CloseForm | js/marketing.js:473-480 | closing clears the edited id |
| Marketing.ContentStore.SaveContentData | js/marketing.js:406-462 | an update replaces the form fields in place, keeping id, position and creation time; a gone id changes nothing and keeps the form open; an add appends one piece with a fresh id; ids stay fresh |
| Marketing.ContentStore.SaveContent | js/marketing.js:365-370 | no platform: nothing changes; otherwise the form is saved with status scheduled |
| Marketing.ContentStore.SaveAsDraft | js/marketing.js:372-377 | no platform: nothing changes; otherwise the form is saved with status draft |
| Marketing.ContentStore.PublishNow | js/marketing.js:696-712 | only the target becomes published, with the publish time; unknown id changes nothing |
| Marketing.ContentStore.DeleteContent | js/marketing.js:714-725 | the store becomes the pieces without that id; ids stay fresh |
| Marketing.ContentStore.SwitchView | js/marketing.js:739-741 | only the current view changes |
| Marketing.ListOrderIsTotalPreorder | js/marketing.js:512-516 | the comparator is a total preorder |
| Marketing.ContentListSpec | js/marketing.js:497-516 | `ContentList`: the list is a permutation of the pieces passing both filters (membership both ways); scheduled pieces come first; within each group publish dates ascend, undated last as 9999-12-31 |
| Marketing.CountersAddUp | js/marketing.js:763-770 | `StatusCount`: drafts + scheduled + published + the rest = total, so the three counters never exceed it |
| Marketing.RelativeDate | js/marketing.js:820-831 | "Unknown" without a date; the display date at 30 days or more |
| Marketing.RelativeDateCounts | js/marketing.js:827-829 | one day is "Yesterday"; fewer than 7 days read back as "d days ago", fewer than 30 as "⌊d/7⌋ weeks ago" |

## Left out

- **DOM, modals, HTML templates, event binding, toasts and Chart.js drawing:** these are presentation. `confirm` guards are taken as agreed.
- **`window.open` for WhatsApp and mail, and CSV export:** these are I/O. `messageCustomer` is `UpdateLastContact` followed by such a call, so it has no member of its own.
- **js/main.js, js/systems.js, dashboard.js, storage.js:** UI wiring, a document editor, the activity feed and the `localStorage` wrapper. Each store's `seq` field stands for its persisted array. The dashboard activity entry that `addCustomer` writes is not part of this model.
- **`utils.generateId`:** time plus randomness. The stores use a counter that supplies fresh ids.
- **Time zones:** every date and "now" is taken in UTC. The source mixes local `getDay`/`setHours` with UTC `toISOString`.
- **Years outside 1..9999:** not modelled. `Store.NavigateMonth` requires the target month to fall in year 1 or later.
- FullDate.Format: always pads the year to four digits. The calendar cell string (scheduling.js:510) writes `${year}` unpadded, so for years 1 to 999 it has fewer year digits than any stored date.
- FullDate.FormatInjective: the per-day match it supports holds from year 1000 on. Before that the cell string matches no stored date at all.
- ScheduleViews.DayCounts: counts by day number in every year. In years 1 to 999 the source's string match finds nothing, so every cell shows no bookings.
- ScheduleViews.MonthCounts: as for `DayCounts`, the counts for months of years 1 to 999 are those the source would show only if its cell string were padded.
- **Floating point:** amounts are whole cents. Margins and percentages are exact reals, without `toFixed` or `Math.round` text. The NaN profit progress caused by the `targetProfit`/`monthlyProfit` key mismatch is outside the model.
- **`Finance.Progress`:** requires a positive goal. A zero or missing goal gives Infinity or NaN in the source.
- **Locale formatting** (`toLocaleDateString`, `formatCurrency`): the long display date is a parameter of `Marketing.RelativeDate`.
- **Marketing publish dates:** these are what the date field yields, a valid date or none. A malformed date string, which the source would read as an invalid date and compare as NaN, is not modelled.
- **`renderContentCalendar`:** the marketing calendar view is presentation and is not modelled.
- **Text handling:** case mapping (`toLowerCase`, `toUpperCase`) covers ASCII letters only. `trim` removes the full white-space and line-terminator set of JavaScript (`Text.IsWhitespace`).
- **`TimeOfDay.ParseTime`:** accepts pieces of decimal digits only. JavaScript's `Number` would also read signs, blanks and exponents.
- **Scheduling duration field:** the field is `parseInt` of the input, modelled as an optional integer.

## Findings

| source | as written | input that shows it | evidently intended | confidence | as-written member | corrected member |
|---|---|---|---|---|---|---|
| scheduling.js:652 | `navigateMonth` calls `setMonth(getMonth() + direction)` on the full current date, so a day 29–31 overflows a shorter month | showing 2023-01-31 and pressing "next" lands on 2023-03-03, skipping February; from 2023-03-31, "previous" stays in March | move the shown month by exactly `direction` months | not executed | Scheduler.NavigateAsWrittenSkipsFebruary | Scheduler.NavigateTargetMoves |
| scheduling.js:834-842 | the week window starts at Sunday *at the current time of day*, while each appointment date parses to midnight | on a Sunday at 10:00, a booking for today counts for "Today" but not for "This week" | the week runs from Sunday 00:00 to Saturday, inclusive of both days | not executed | ScheduleViews.WeekCountAsWrittenMissesSunday | ScheduleViews.TodayWithinWeek |
