# Time Audit — a verified model of the time-tracking core

Time Audit is a personal time tracker. Each day is logged as time entries: a date, a start and an
end time of the form "HH:MM", an activity text, one of three categories (growth, maintenance,
shrink) and a duration in minutes. This project models the logic behind that in Dafny:

- the entry store and its duration rule (`TimeEntries`);
- the calendar page's day, week and month windows, statistics and navigation guard (`CalendarView`);
- the daily log page: the day's sorted entries, its statistics, blank blocks and the
  social-media reclassification suggestion (`DailyLog`);
- the dashboard's report window and analytics (`Dashboard`);
- the derived views:
  - the insight rules (`AiSummary`);
  - the most common activities (`CommonActivities`);
  - the time-distribution pie (`Distribution`);
  - the per-day trend buckets (`Trends`);
  - the 42-cell month grid (`CalendarGrid`);
  - duration formatting and table columns (`EntriesTable`);
  - the time-block editor (`TimeBlockEditor`);
  - the report export (`PdfExport`).

Shared helpers stand in for the JavaScript library operations the code relies on:

- `Seqs`: `filter`, `findIndex` and a stable sort;
- `Text`: number printing, `toLowerCase`, `trim` and `localeCompare`;
- `Dates`: `new Date(y, m, d)`, `getDay`, `setDate` and `setMonth` on whole days;
- `Aggregates`: the minute sums and the rounding to tenths of an hour.

Modelling conventions:

- **Dates** are day numbers. Day 0 is 0001-01-01 of the proleptic Gregorian calendar, a Monday.
- **`new Date(y, m, d)`** is `Dates.MakeDay`, with a 0-based month that may overflow in either
  direction. `Dates.CivilOf` is its inverse, and the two are proved to round-trip.
- **Entry dates.** A stored date string and the day it names are interchangeable:
  `PdfExport.IsoDateInjective` proves that distinct days print distinct strings.
- **Hour figures** are integers counting tenths of an hour. `Math.round(minutes / 60 * 10) / 10`
  becomes `Aggregates.Tenths(m) = (m + 3) / 6`, the nearest tenth with halves rounded up, as
  `Math.round` does.
- **Stateful code** is modelled as classes whose methods update fields:
  - the provider's entry list is `TimeEntries.TimeEntryStore`;
  - the calendar page's current date is `CalendarView.CalendarPage`;
  - the daily page's suggestion flag is `DailyLog.DailyLogPage`;
  - the time block's local record and collapse flag are `TimeBlockEditor.TimeBlock`.
- **Loops and in-place updates** are modelled as methods with loop invariants, each proved equal to a
  function stated independently:
  - the `categoryStats` reduce: `Dashboard.TallyCategories`;
  - the activity-grouping reduce: `CommonActivities.GroupBy`;
  - the trend loop: `Trends.DailyData`;
  - the insight pushes: `AiSummary.GenerateInsights`;
  - the export's in-place sort of the caller's array: `PdfExport.SortForExport`, an insertion sort
    proved equal to the stable `Seqs.SortBy`.

## Model

| member | source | states |
|---|---|---|
| TimeEntries.CalculateDuration | src/contexts/time-entries-context.tsx:27-37 | never negative. 0 when either time is empty. For two clock times it is 0 exactly when the end is not after the start (no wrap past midnight); otherwise start plus duration equals end |
| TimeEntries.CalculateDurationOfClocks | src/contexts/time-entries-context.tsx:30-36 | for "HH:MM" texts the duration is max(0, (eh·60+em) − (sh·60+sm)) |
| TimeEntries.ClockMinutesOfText | src/contexts/time-entries-context.tsx:30-34 | reading a printed "HH:MM" back gives h·60+m |
| TimeEntries.LexOrderIsKeyOrder | src/app/page.tsx:22 | on time fields, `localeCompare` order is the order of the minutes, with the empty time first |
| TimeEntries.Patched | src/contexts/time-entries-context.tsx:163-169 | the merged entry keeps its id and its well-formed times. Its duration is recomputed from the merged times exactly when the patch carries a non-empty time; otherwise it is the patch's duration, or the old one |
| TimeEntries.UpdateAll | src/contexts/time-entries-context.tsx:160-174 | same length and order; entries with another id are unchanged; every entry with the id (possibly several) is patched |
| TimeEntries.UpdateUnknownId | src/contexts/time-entries-context.tsx:162-171 | an id that is not stored leaves the list identical |
| TimeEntries.PatchedTwice | src/contexts/time-entries-context.tsx:164-168 | patching twice with one patch equals patching once |
| TimeEntries.UpdateAllTwice | src/contexts/time-entries-context.tsx:160-174 | repeating an update changes nothing more |
| TimeEntries.ClearingTimesKeepsDuration | src/contexts/time-entries-context.tsx:166 | emptying both times keeps the stale duration, which then disagrees with the recomputed one |
| TimeEntries.Deleted | src/contexts/time-entries-context.tsx:176-178 | no survivor has the id; every entry with another id survives |
| TimeEntries.DeletedAppend | src/contexts/time-entries-context.tsx:177 | deletion distributes over concatenation, so survivors keep their relative order |
| TimeEntries.DeletedUnknownId | src/contexts/time-entries-context.tsx:177 | deleting an unknown id is a no-op |
| TimeEntries.DeletedAccountsForAll | src/contexts/time-entries-context.tsx:177 | survivors plus deleted entries are the original multiset |
| TimeEntries.OnDate | src/contexts/time-entries-context.tsx:180-182 | every copy of each entry of that date, and nothing else: each entry occurs as often as in the input if its date matches, otherwise not at all |
| TimeEntries.InRange | src/contexts/time-entries-context.tsx:184-189 | every copy of each entry dated within [start, end], ends included, and nothing else |
| TimeEntries.OnDateAppend | src/contexts/time-entries-context.tsx:181 | the date query over a list split in two is the query over the first part followed by the query over the second, so the stored order is kept |
| TimeEntries.InRangeAppend | src/contexts/time-entries-context.tsx:185-188 | the same for the range query |
| TimeEntries.SingleDayRange | src/contexts/time-entries-context.tsx:180-189 | a one-day range query equals the single-date query |
| TimeEntries.TimeEntryStore.constructor | src/contexts/time-entries-context.tsx:143 | the store starts empty (the mock data is left out) |
| TimeEntries.TimeEntryStore.Add | src/contexts/time-entries-context.tsx:150-158 | exactly one entry is appended, carrying the given id and the computed duration; earlier entries are unchanged |
| TimeEntries.TimeEntryStore.Update | src/contexts/time-entries-context.tsx:160-174 | the new list is `UpdateAll` of the old one; entries stay well formed |
| TimeEntries.TimeEntryStore.Delete | src/contexts/time-entries-context.tsx:176-178 | the new list is `Deleted` of the old one |
| TimeEntries.TimeEntryStore.EntriesForDate | src/contexts/time-entries-context.tsx:180-182 | every stored entry of that date, each as often as it is stored, and no other |
| TimeEntries.TimeEntryStore.EntriesForDateRange | src/contexts/time-entries-context.tsx:184-189 | every stored entry dated within [start, end], ends included, each as often as it is stored, and no other |
| TimeEntries.EntriesForDateInStoredOrder | src/contexts/time-entries-context.tsx:180-182 | for any split of the store, the query lists the matches of the first part before those of the rest |
| TimeEntries.EntriesForDateRangeInStoredOrder | src/contexts/time-entries-context.tsx:184-189 | the same for the range query |
| Aggregates.TotalMinutesAppend | src/app/calendar/page.tsx:114 | the sum of durations is additive over concatenation |
| Aggregates.CategoryMinutesPartition | src/app/calendar/page.tsx:114-119 | growth + maintenance + shrink minutes equal the total minutes |
| Aggregates.CategoryCountPartition | src/app/dashboard/page.tsx:56-67 | the three category counts add up to the number of entries |
| Aggregates.TotalMinutesPermutation | src/app/page.tsx:27 | reordering the entries (the day sort) does not change the total |
| Aggregates.CategoryPermutation | src/app/page.tsx:28-36 | reordering does not change any category's minutes or count |
| Aggregates.Tenths | src/app/calendar/page.tsx:121 | the nearest tenth of an hour: 6t−3 ≤ minutes < 6t+3 |
| Aggregates.TenthsMonotone | src/components/most-common-activities.tsx:45 | rounding to tenths preserves order |
| Aggregates.TenthsOfSum | src/app/calendar/page.tsx:121-139 | the rounded total is within one tenth of the sum of the rounded parts |
| Aggregates.RoundedPartsExceedTotal | src/app/calendar/page.tsx:121-139 | the two can differ: 3 + 3 minutes round to 0.1 + 0.1 but to 0.1 together |
| Aggregates.Undocumented | src/app/calendar/page.tsx:131-135 | max(0, capacity − total): never negative, 0 exactly when the capacity is used up, otherwise total plus undocumented equals capacity |
| Aggregates.Summarize | src/app/calendar/page.tsx:113-141 | the total is the tenths of all minutes and each category figure the tenths of that category's minutes; undocumented is `Undocumented(total, capacity)`, so it is never negative and total + undocumented ≥ capacity; the total is within a tenth of the sum of the parts |
| Aggregates.SummarizePermutation | src/app/calendar/page.tsx:113-141 | the stats depend only on which entries there are, not on their order |
| CalendarView.StartOfWeek | src/app/calendar/page.tsx:89-90 | a Sunday, at most six days before the date |
| CalendarView.ViewWindow | src/app/calendar/page.tsx:81-107 | the window holds the current date |
| CalendarView.WeekWindowIsSundayToSaturday | src/app/calendar/page.tsx:89-97 | the week window is seven consecutive days, Sunday to Saturday |
| CalendarView.MonthWindowIsMonth | src/app/calendar/page.tsx:100-106 | a day lies in the month window exactly when it is in the current date's year and month |
| CalendarView.FilteredEntries | src/app/calendar/page.tsx:81-111 | every entry dated inside the view's window, each as often as in the input, and no other |
| CalendarView.Capacity | src/app/calendar/page.tsx:124-129 | 24 for a day, 24·7 for a week, 24·(days in the month) for a month |
| CalendarView.CapacityCoversWindow | src/app/calendar/page.tsx:124-129 | the capacity is 24 hours per day of the window |
| CalendarView.GetStats | src/app/calendar/page.tsx:113-141 | the stats of the entries inside the view's window (`FilteredEntries`): total and category figures are the tenths of their minutes, capacity is the view's `Capacity`, undocumented is max(0, capacity − total) |
| CalendarView.GetStatsIgnoresOrder | src/app/calendar/page.tsx:113-141 | reordering the stored entries does not change a view's stats |
| CalendarView.Candidate | src/app/calendar/page.tsx:62-72 | ±1 day, ±7 days, or a month step; "next" is later and "prev" earlier |
| CalendarView.MonthStepKeepsDay | src/app/calendar/page.tsx:70 | when the day of the month exists a month away, the month step lands on it |
| CalendarView.Navigated | src/app/calendar/page.tsx:57-79 | "prev" always moves back to the candidate date; "next" stays put exactly when the next-button is disabled, and otherwise moves forward to the candidate date, which is no later than today |
| CalendarView.CalendarPage.constructor | src/app/calendar/page.tsx:26-27 | the page opens on today in week view |
| CalendarView.CalendarPage.NavigateDate | src/app/calendar/page.tsx:57-79 | the new current date is `Navigated` of the old one; the view is unchanged |
| CalendarView.NavigationStaysInPast | src/app/calendar/page.tsx:74-76 | any sequence of clicks from a date no later than today stays no later than today |
| DailyLog.DayEntries | src/app/page.tsx:21-23 | a permutation of the date's entries; each belongs to the store; in `localeCompare` order of start times, empty start times first |
| DailyLog.DayEntriesStable | src/app/page.tsx:22 | entries with equal start times keep their stored order |
| DailyLog.DayStats | src/app/page.tsx:26-50 | capacity 24; total and category tenths of the day; undocumented = max(0, 24 h − total) |
| DailyLog.DayStatsMatchCalendarDayView | src/app/page.tsx:26-50 | the daily log's stats for a date equal the calendar's day-view stats for it |
| DailyLog.HasSuggestionCandidateIff | src/app/page.tsx:95-101 | a candidate exists exactly when some non-shrink entry of the day mentions "twitter", "social media" or "browsing" |
| DailyLog.ShrinkPatchOnlyRecategorises | src/app/page.tsx:89 | the `{ category: "shrink" }` patch changes the category and nothing else |
| DailyLog.SuggestionTarget | src/app/page.tsx:83-86 | the first entry of the sorted day that mentions "twitter" or "social media", or none when none does |
| DailyLog.UpdateOfStoredEntry | src/app/page.tsx:88-90 | updating a stored entry's id reclassifies that entry as shrink |
| DailyLog.DailyLogPage.constructor | src/app/page.tsx:14-15 | the page opens on today with the suggestion shown |
| DailyLog.DailyLogPage.AddTimeBlock | src/app/page.tsx:56-64 | appends one blank maintenance entry on the selected date, with duration 0 |
| DailyLog.DailyLogPage.UpdateTimeBlock | src/app/page.tsx:70-80 | forwards to the store's update |
| DailyLog.DailyLogPage.DeleteTimeBlock | src/app/page.tsx:66-68 | forwards to the store's delete |
| DailyLog.DailyLogPage.AcceptSuggestion | src/app/page.tsx:82-92 | the suggestion is hidden. If there is a target, the store is updated with its id and the shrink patch; otherwise the store is unchanged |
| DailyLog.AcceptReclassifiesAtMostOne | src/app/page.tsx:82-92 | with distinct ids, accepting changes at most one entry, the target, and only its category |
| Dashboard.SelectWindow | src/app/dashboard/page.tsx:30-44 | the custom dates only when "custom" is chosen and both are present; otherwise the preset number of days, ending today |
| Dashboard.IncompleteCustomFallsBack | src/app/dashboard/page.tsx:35-40 | "custom" with a missing date reports on the last 30 days |
| Dashboard.AvgDailyHours | src/app/dashboard/page.tsx:73-76 | the nearest tenth of total / max(1, days between start and end) |
| Dashboard.PresetAverageDividesByOneDayLess | src/app/dashboard/page.tsx:40-76 | a 7-day preset divides by 6: 7 hours average 1.2 |
| Dashboard.ProductivityScore | src/app/dashboard/page.tsx:78 | the nearest whole percentage of (growth + maintenance/2) / max(1 h, total) |
| Dashboard.ScoreNonNegative | src/app/dashboard/page.tsx:78 | never negative for non-negative hours |
| Dashboard.ScoreZeroWithoutGrowthOrMaintenance | src/app/dashboard/page.tsx:78 | 0 with no growth and no maintenance |
| Dashboard.AllGrowthScoresHundred | src/app/dashboard/page.tsx:54-78 | all growth and at least an hour in total scores exactly 100 |
| Dashboard.ScoreCanExceedHundred | src/app/dashboard/page.tsx:69-78 | separate rounding can push the score to 105 |
| Dashboard.TallyStep | src/app/dashboard/page.tsx:57-60 | one reducer step keeps the accumulator equal to the category's minutes and count so far |
| Dashboard.TallyCategories | src/app/dashboard/page.tsx:56-67 | the in-place reduce yields each category's minutes and count |
| Dashboard.ComputeAnalytics | src/app/dashboard/page.tsx:52-88 | the analytics record: total and category tenths, counts adding up to the number of entries, the average and the score |
| AiSummary.InsightsSpelled | src/components/ai-summary-card.tsx:22-80 | the shown insights are the first three of the rules that fire, in rule order |
| AiSummary.GenerateInsights | src/components/ai-summary-card.tsx:22-80 | the conditional pushes and slice give exactly `InsightsOf` |
| AiSummary.InsightsStartWithScore | src/components/ai-summary-card.tsx:26-44 | 1 to 3 insights. The first is the score's: positive from 80, neutral from 60, a warning below |
| AiSummary.ShrinkWarningIff | src/components/ai-summary-card.tsx:47-53 | the shrink warning is shown exactly when shrink hours exceed growth hours |
| AiSummary.AverageInsightIff | src/components/ai-summary-card.tsx:56-68 | under-tracking exactly below 6 h, long days exactly above 12 h, never both |
| AiSummary.GrowthFocusIff | src/components/ai-summary-card.tsx:71-79 | with non-negative hours, at most three rules fire. Growth focus is shown exactly when growth exceeds maintenance + shrink, and then the shrink warning is absent |
| AiSummary.InsightsInRuleOrder | src/components/ai-summary-card.tsx:79 | the insights appear in rule order |
| CommonActivities.GroupBy | src/components/most-common-activities.tsx:21-37 | the dictionary-filling loop equals the reduce `Grouping`, and describes its input: one record per key, holding the first entry's text and category and the sums of its entries, with keys in first-seen order |
| CommonActivities.GroupActivities | src/components/most-common-activities.tsx:21-37 | the same, under the key `toLowerCase().trim()` |
| CommonActivities.GroupingDescribes | src/components/most-common-activities.tsx:24-33 | the reduce holds exactly the record `GroupOf` each key, and no others |
| CommonActivities.GroupingSums | src/components/most-common-activities.tsx:32-33 | the counts over all records sum to the number of entries, the minutes to the total minutes |
| CommonActivities.GroupingAsWrittenSkips | src/components/most-common-activities.tsx:21-37 | on a plain `{}` accumulator, the reduce as written groups exactly the entries whose key is not "constructor" or "__proto__" |
| CommonActivities.InheritedEntryIsLost | src/components/most-common-activities.tsx:24-33 | as written, a lone entry with an inherited key leaves the dictionary empty; the intended grouping opens one record holding it |
| CommonActivities.ConstructorActivityIsLost | src/components/most-common-activities.tsx:23-33 | the activity "constructor" is such an entry: no row as written, one row intended |
| CommonActivities.OrderListsKeys | src/components/most-common-activities.tsx:21-40 | the keys `Object.values` walks are the distinct keys of the entries, each once |
| CommonActivities.RankedTopTen | src/components/most-common-activities.tsx:40-42 | at most ten records (exactly min(10, n)), largest totals first, taken from the records; every record left out has no more minutes than any shown |
| CommonActivities.RankingKeepsTiesInOrder | src/components/most-common-activities.tsx:41 | records with equal totals keep their first-seen order |
| CommonActivities.Row | src/components/most-common-activities.tsx:43-47 | hours in tenths; `avgMinutes` is total/count to the nearest minute |
| CommonActivities.TopRows | src/components/most-common-activities.tsx:40-47 | at most ten rows, non-increasing in minutes and hours, each of at least one session |
| CommonActivities.TopRowsKeys | src/components/most-common-activities.tsx:21-47 | the rows belong to distinct keys of the entries, min(10, number of keys) of them; row i shows the record `GroupOf` gives its key; every key left out has no more minutes than any row shown |
| CommonActivities.NoActivitiesIff | src/components/most-common-activities.tsx:51 | the empty state is shown exactly when there are no entries |
| CommonActivities.BarsWithinMax | src/components/most-common-activities.tsx:49-101 | `maxHours` is positive and every row's hours lie between 0 and it |
| Distribution.CategoryTotalsAreMinutes | src/components/time-distribution-chart.tsx:19-25 | each total of the reduce is its category's minutes, and the three add up to the total minutes |
| Distribution.ChartSlices | src/components/time-distribution-chart.tsx:27-46 | at most three slices, in the order Growth, Maintenance, Shrink, each with value equal to hours and positive |
| Distribution.SliceFigures | src/components/time-distribution-chart.tsx:28-45 | a category's slice shows its minutes in tenths and its colour |
| Distribution.SliceShownIff | src/components/time-distribution-chart.tsx:46 | a category has a slice exactly when its rounded hours are positive |
| Distribution.NoSlicesIff | src/components/time-distribution-chart.tsx:75 | the empty state is shown exactly when no category rounds to a positive value |
| Trends.DailyData | src/components/activity-trends-chart.tsx:22-47 | one point per day from start to end inclusive, in ascending order (none when start > end), each the point of its day |
| Trends.ReducedPoint | src/components/activity-trends-chart.tsx:26-44 | the loop body's reduce of the day's entries gives that day's category and total tenths |
| Trends.TotalNearParts | src/components/activity-trends-chart.tsx:40-43 | the total, rounded from the unrounded sum, is within a tenth of the sum of the rounded parts |
| Trends.PointIgnoresOtherDays | src/components/activity-trends-chart.tsx:27 | entries of other days do not affect a point |
| CalendarGrid.MonthLengthAt | src/components/calendar-grid.tsx:25-26 | `new Date(y, m + 1, 0).getDate()` is the length of month m, across year ends |
| CalendarGrid.PrevLengthAsWritten | src/components/calendar-grid.tsx:31-32 | as written, `daysInPrevMonth` is the length of the month two before |
| CalendarGrid.PrevLengthIntended | src/components/calendar-grid.tsx:31-32 | the corrected value is the previous month's length |
| CalendarGrid.MonthLayout | src/components/calendar-grid.tsx:24-36 | leading cells = weekday of the 1st (0..6); trailing ≥ 0; 42 cells in all |
| CalendarGrid.CellAt | src/components/calendar-grid.tsx:60-66 | the labels and dates of leading, current-month and trailing cells |
| CalendarGrid.RenderDay | src/components/calendar-grid.tsx:60-66 | the cell shows `day` and stands for day `day` of month m − 1, m or m + 1 by its kind |
| CalendarGrid.MonthGrid | src/components/calendar-grid.tsx:165-173 | the three `Array.from` runs end to end make 42 cells, and cell k is the one `CellAt` computes for index k |
| CalendarGrid.Runs | src/components/calendar-grid.tsx:165-173 | for any counts, the runs have leading + days + trailing cells and agree with `CellAt` at every index |
| CalendarGrid.GridIntendedIsConsecutive | src/components/calendar-grid.tsx:165-173 | corrected, the cells are 42 consecutive days from the Sunday on or before the 1st, and the current-month cells are exactly the month's days |
| CalendarGrid.GridIntendedStartsOnSunday | src/components/calendar-grid.tsx:27-30 | the corrected grid starts on a Sunday |
| CalendarGrid.GridAsWrittenShift | src/components/calendar-grid.tsx:31-32 | as written, each leading cell is shifted by the difference of the two month lengths |
| CalendarGrid.March2024GridRepeatsADay | src/components/calendar-grid.tsx:31-32 | for March 2024 the leading cells run 27..31 and March 1 appears twice |
| CalendarGrid.DayCellEntries | src/components/calendar-grid.tsx:38-41 | every entry of the cell's date, each as often as in the input, and no other |
| CalendarGrid.CategoryCounts | src/components/calendar-grid.tsx:45-51 | a category is present exactly when it has entries, and maps to its count |
| CalendarGrid.GetDayStats | src/components/calendar-grid.tsx:43-58 | total in tenths; `hasEntries` exactly when there are entries |
| CalendarGrid.DayStatsCountsAddUp | src/components/calendar-grid.tsx:43-57 | the category counts sum to the number of entries; `hasEntries` exactly when some category is counted |
| CalendarGrid.OnCellClick | src/components/calendar-grid.tsx:72-88 | a click selects the date exactly when it is not after today |
| CalendarGrid.Preview | src/components/calendar-grid.tsx:128-136 | at most the first two entries, plus "+n more" with n = count − 2 exactly when there are more than two |
| EntriesTable.JsRem | src/components/time-entries-table.tsx:35 | JavaScript `%`: the remainder takes the dividend's sign |
| EntriesTable.Split | src/components/time-entries-table.tsx:34-35 | for non-negative minutes, hours·60 + mins equals the input with 0 ≤ mins < 60; hours is 0 exactly under an hour |
| EntriesTable.FormatUnderAnHour | src/components/time-entries-table.tsx:36 | under 60 minutes prints "<m>m" |
| EntriesTable.FormatZero | src/components/time-entries-table.tsx:36 | 0 prints "0m" |
| EntriesTable.FormatWholeHours | src/components/time-entries-table.tsx:37 | a positive multiple of 60 prints "<h>h" |
| EntriesTable.FormatHoursAndMinutes | src/components/time-entries-table.tsx:38 | otherwise "<h>h <m>m" with 1 ≤ m ≤ 59 |
| EntriesTable.NegativeDurationMisprints | src/components/time-entries-table.tsx:34-38 | −30 prints "-1h -30m" |
| EntriesTable.ParseFormatDuration | src/components/time-entries-table.tsx:33-39 | reading a printed non-negative duration back gives the minutes |
| EntriesTable.ParseHoursAndMinutes | src/components/time-entries-table.tsx:38 | "<h>h <m>m" reads back as 60h + m |
| EntriesTable.Columns | src/components/time-entries-table.tsx:114-237 | the date column is present exactly when the view is not "day", and leads when present; the other five follow in order |
| TimeBlockEditor.Applied | src/components/time-block.tsx:52-54 | an edit changes only its named field |
| TimeBlockEditor.AppliedTwice | src/components/time-block.tsx:53 | repeating an edit changes nothing more |
| TimeBlockEditor.AppliedCommute | src/components/time-block.tsx:53 | edits of different fields commute |
| TimeBlockEditor.PatchOf | src/components/time-block.tsx:55 | the update sent carries the whole record, not just the changed field |
| TimeBlockEditor.BlockUpdateDuration | src/app/page.tsx:70-80 | sending the whole record recomputes the duration whenever a time is set, and keeps it while both are empty |
| TimeBlockEditor.TimeBlock.constructor | src/components/time-block.tsx:34-50 | missing texts default to "", a missing category to maintenance; not collapsed |
| TimeBlockEditor.TimeBlock.HandleUpdate | src/components/time-block.tsx:52-56 | the record becomes the edited one, and the block's id and new record are sent |
| TimeBlockEditor.TimeBlock.ToggleCollapsed | src/components/time-block.tsx:66 | flips `isCollapsed` and nothing else |
| TimeBlockEditor.TimeBlock.DeleteClicked | src/components/time-block.tsx:98 | the delete button sends the block's own id |
| TimeBlockEditor.ToggleTwice | src/components/time-block.tsx:50-66 | toggling twice restores the state |
| PdfExport.RowKeyIsComparator | src/lib/pdf-export.ts:106-109 | on stored entries the sort key orders as the comparator: later dates first, then `localeCompare` of start times |
| PdfExport.SortForExport | src/lib/pdf-export.ts:105-109 | the caller's array is sorted in place, to `SortBy` of its old contents |
| PdfExport.InsertionSort | src/lib/pdf-export.ts:105-109 | the in-place insertion sort yields the stable sort of the old contents |
| PdfExport.ExportOrder | src/lib/pdf-export.ts:105-109 | the rows are a permutation of the entries, date descending then start time ascending, ties in the given order |
| PdfExport.RowFigures | src/lib/pdf-export.ts:116-117 | the capitalised category is the category's name, and the hours are the duration to the nearest tenth |
| PdfExport.IsoDate | src/lib/pdf-export.ts:134 | YYYY-MM-DD whose fields read back as the day's year, month and day |
| PdfExport.IsoDateInjective | src/lib/pdf-export.ts:134 | different days print differently |
| PdfExport.FileName | src/lib/pdf-export.ts:134 | "time-tracking-report-<start>-to-<end>.html" |
| PdfExport.FileNameDeterminesWindow | src/lib/pdf-export.ts:134 | the file name determines the window |
| PdfExport.ExportToPdf | src/lib/pdf-export.ts:22-127 | sorts the entries in place; one row per entry in the sorted order; the activity count is the number of entries; the file name is as above |
| Seqs.SortBy | src/app/page.tsx:22 | the stable sort: a permutation, same length, keys ascending |
| Seqs.SortByStable | src/app/page.tsx:22 | elements with equal keys keep their input order |
| Seqs.FindFirst | src/app/page.tsx:83-86 | the first index that passes the test, or none exactly when none passes |
| Dates.CivilOfDayNumber | src/app/calendar/page.tsx:100-101 | a valid date survives conversion to a day number and back |
| Dates.DayNumberInjective | src/app/calendar/page.tsx:100-101 | distinct valid dates have distinct day numbers |
| Dates.LastOfMonth | src/components/calendar-grid.tsx:25-26 | `new Date(y, m + 1, 0)` is the last day of month m |
| Dates.FirstOfMonth | src/components/calendar-grid.tsx:24 | `new Date(y, m, 1)` is the first of month m |
| Dates.InMonthIff | src/app/calendar/page.tsx:100-106 | a day lies between the first and last of a month exactly when it is in that month |
| Dates.SetDate | src/app/calendar/page.tsx:64-67 | `setDate(getDate() + k)` moves exactly k days |
| Dates.AddMonthsKeepsDay | src/app/calendar/page.tsx:70 | `setMonth(getMonth() + k)` keeps the day of the month when it exists |
| Dates.AddMonthsMoves | src/app/calendar/page.tsx:70 | a month forward is later, a month back earlier |
| Text.ParseNatToString | src/components/time-entries-table.tsx:36-38 | printing a number and reading it back gives the number |
| Text.Capitalize | src/lib/pdf-export.ts:116 | the first character upper-cased, the rest unchanged |
| Text.Trim | src/components/most-common-activities.tsx:23 | a slice of the input from which only white space was cut at either end, itself with no white space at either end |
| Text.NoBlankEnds | src/components/most-common-activities.tsx:23 | a string with no white space at either end trims to itself |

## Left out

- Time zones: `toISOString()` is UTC while `getDay`, `setDate` and `setMonth` are local. The model works in whole local days and treats an entry's date string as the day it names.
- Time of day: windows compare an entry's midnight with a boundary that carries a clock time (for example "today" at 23:59:59.999). The model compares whole days.
- Float rounding: hour figures are floats of the form `Math.round(x * 10) / 10`; the model keeps them as exact integer tenths. The rounding itself can differ at exact halves. Arithmetic on the rounded floats (sums, the score's and the average's divisions) is exact in the model and can land on the other side of a comparison or a rounding half than the float result.
- AiSummary.GrowthFocusIff: the source compares floats, `growth > maintenance + shrink`, and a float sum of tenths can fall below the exact sum (0.7 + 0.1 is 0.7999999999999999). With 0.8 h growth against 0.7 h maintenance and 0.1 h shrink the source shows the growth-focus insight; the model, comparing 8 > 7 + 1 tenths, does not.
- Dashboard.ProductivityScore: `(growth + maintenance * 0.5) / max(1, total) * 100` is computed in floats before `Math.round`; the model rounds the exact quotient, so the two can differ by one point at a half.
- Rounding direction: `Math.round` rounds halves up, towards +∞. The model follows the code, not a half-away-from-zero reading.
- Malformed time strings: `Number` gives NaN there. Entries are restricted to "HH:MM" or empty times (`TimeEntries.WellFormed`).
- Locale behaviour: `localeCompare` on start times is plain code-unit order, which equals minute order on well-formed times. `toLocaleDateString` (table, export and trend labels) is not modelled.
- Text case and white space: `Text.Lower` folds only ASCII letters and `Text.IsSpace` knows only ASCII blanks; full Unicode case folding and white space are not modelled.
- Mock data: `generateMockData` depends on `Math.random` and `Date.now`, so the store starts empty.
- Entry ids: `Date.now().toString()` ids are parameters and are not assumed unique. Update and delete act on every match.
- Clocks: "today" is a parameter of every operation that reads the clock.
- The DOM export: the Blob, object URL and download link, and the HTML text around the figures.
- Rendering: JSX, Tailwind classes, recharts, `@tanstack/react-table` sorting and filtering, `confirm` dialogs, the simulated two-second AI delay, and the suggestion and mobile header cards.
- The database layer: schema, connection and server actions are I/O and are not part of this model.
- CommonActivities.GroupBy: opens a record for every key, the evidently intended behaviour (see Findings). As written, the `+=` updates for the keys "constructor" and "__proto__" write NaN fields onto `Object` and `Object.prototype`, which outlive the call; those writes are not modelled.
- CommonActivities.GroupActivities: the same, under the card's key.
- Object key order: `Object.values` on the activity dictionary lists keys in insertion order, which the model keeps in `ActivityStats.order`. The JavaScript rule that integer-like keys come first is not modelled.
- Progress bars: the bar width `hours / maxHours * 100` is a float; only its bounds are modelled (`CommonActivities.BarsWithinMax`).
- Dashboard stat cards and the export's summary figures only display the analytics, so the model proves nothing about them beyond `Dashboard.ComputeAnalytics`.
- PdfExport.IsoDate: only years 0 to 9999 (`FourDigitYear`); `toISOString` prints a sign and six digits outside that range.
- PdfExport.SortForExport: JavaScript's sort algorithm is unspecified beyond stability; the model sorts by insertion, and the result is determined by stability alone.
- Dashboard.AvgDailyHours: the span `Math.ceil((end - start) / day)` is the whole-day difference of the window's days. The extra day a time of day can add is left out with times of day.
- Message texts of the insights and empty states are not modelled; an insight is identified by its kind.

## Findings

| source | as written | input that shows it | evidently intended | confidence | as-written member | corrected member |
|---|---|---|---|---|---|---|
| src/components/calendar-grid.tsx:31-32 | `daysInPrevMonth` is `new Date(year, month - 1, 0).getDate()`, the length of the month two before | March 2024: the grid takes January's 31 days instead of February's 29, labels the five leading cells 27 to 31, and shows March 1 twice | `new Date(year, month, 0).getDate()`, the previous month's length | not executed | CalendarGrid.March2024GridRepeatsADay | CalendarGrid.GridIntendedIsConsecutive |
| src/components/most-common-activities.tsx:24-33 | `if (!acc[key])` on a plain `{}`: for the keys "constructor" and "__proto__" the accumulator already answers with the inherited `Object` or `Object.prototype`, so no record is opened and `Object.values` never lists the group | one entry with activity "constructor" (or " Constructor"): the card shows no row and its 30 minutes are on no row | every entry counted in the record of its key, for instance with `Object.create(null)` or a `Map` | not executed | CommonActivities.ConstructorActivityIsLost | CommonActivities.GroupingSums |
