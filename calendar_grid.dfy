/** The month grid of the calendar page: 42 cells of six weeks, the days of the
    neighbouring months around the current one, and what each cell shows. */
module CalendarGrid {
  import opened Seqs
  import opened Dates
  import opened TimeEntries
  import opened Aggregates

  /** `getDate()` of `new Date(y, m + 1, 0)` for any month index `m`: the length of the month
      `m` rolls over to. */
  lemma MonthLengthAt(y: int, m: int)
    ensures CivilOf(MakeDay(y, m + 1, 0)).day == DaysInMonth(y + m / 12, m % 12)
  {
    var y', m' := y + m / 12, m % 12;
    NextMonthStart(y, m);
    MakeDayNormal(y, m, 1);
    LastOfMonth(y', m');
    assert MakeDay(y, m + 1, 0) == MakeDay(y, m + 1, 1) - 1;
    assert MakeDay(y, m + 1, 0) == MakeDay(y', m' + 1, 0);
  }

  /** The first of month `m` is the day after the last of month `m - 1`. */
  lemma PrevMonthEnd(y: int, m: int)
    ensures MakeDay(y, m - 1, 1) + DaysInMonth(y + (m - 1) / 12, (m - 1) % 12) == MakeDay(y, m, 1)
  {
    NextMonthStart(y, m - 1);
  }

  datatype CellKind = PrevMonth | CurrentMonth | NextMonth

  /** One grid cell: the day number it prints and the date it stands for. */
  datatype Cell = Cell(dayLabel: int, date: int, kind: CellKind)

  /** The counts the grid is laid out from, for month `m` (0 to 11) of year `y`. */
  datatype Layout = Layout(daysInMonth: int, leading: int, daysInPrevMonth: int, trailing: int)

  /** The length of the previous month as the grid computes it: `getDate()` of
      `new Date(year, month - 1, 0)`, which is the last day of the month two before. */
  function PrevLengthAsWritten(y: int, m: int): (r: int)
    requires 0 <= m < 12
    ensures r == DaysInMonth(y + (m - 2) / 12, (m - 2) % 12)
  {
    MonthLengthAt(y, m - 2);
    CivilOf(MakeDay(y, m - 1, 0)).day
  }

  /** The length of the previous month, `getDate()` of `new Date(year, month, 0)`. */
  function PrevLengthIntended(y: int, m: int): (r: int)
    requires 0 <= m < 12
    ensures r == DaysInMonth(y + (m - 1) / 12, (m - 1) % 12)
  {
    MonthLengthAt(y, m - 1);
    CivilOf(MakeDay(y, m, 0)).day
  }

  /** The grid's counts, given the previous month's length: leading cells up to the weekday of
      the 1st, the month's own days, and trailing cells that fill 42. */
  function MonthLayout(y: int, m: int, daysInPrevMonth: int): (l: Layout)
    requires 0 <= m < 12
    ensures l.daysInMonth == DaysInMonth(y, m)
    ensures l.leading == Weekday(MakeDay(y, m, 1)) && 0 <= l.leading <= 6
    ensures l.trailing >= 0 && l.leading + l.daysInMonth + l.trailing == 42
    ensures l.daysInPrevMonth == daysInPrevMonth
  {
    LastOfMonth(y, m);
    var daysInMonth := CivilOf(MakeDay(y, m + 1, 0)).day;
    var leading := Weekday(MakeDay(y, m, 1));
    Layout(daysInMonth, leading, daysInPrevMonth, 42 - leading - daysInMonth)
  }

  /** Cell `k` of the grid: one of the `leading` days before the 1st, labelled up to
      `daysInPrevMonth` and dated `new Date(year, month - 1, label)`; a day of the month; or one
      of the days after it, dated `new Date(year, month + 1, label)`. */
  function CellAt(y: int, m: int, l: Layout, k: int): (c: Cell)
    requires l.daysInMonth >= 0
    ensures k < l.leading ==> c.kind == PrevMonth && c.dayLabel == l.daysInPrevMonth - l.leading + k + 1
    ensures l.leading <= k < l.leading + l.daysInMonth ==> c.kind == CurrentMonth && c.dayLabel == k - l.leading + 1
    ensures l.leading + l.daysInMonth <= k ==> c.kind == NextMonth && c.dayLabel == k - l.leading - l.daysInMonth + 1
    ensures c.kind == PrevMonth ==> c.date == MakeDay(y, m - 1, c.dayLabel)
    ensures c.kind == CurrentMonth ==> c.date == MakeDay(y, m, c.dayLabel)
    ensures c.kind == NextMonth ==> c.date == MakeDay(y, m + 1, c.dayLabel)
  {
    if k < l.leading then
      var d := l.daysInPrevMonth - l.leading + k + 1;
      Cell(d, MakeDay(y, m - 1, d), PrevMonth)
    else if k < l.leading + l.daysInMonth then
      var d := k - l.leading + 1;
      Cell(d, MakeDay(y, m, d), CurrentMonth)
    else
      var d := k - l.leading - l.daysInMonth + 1;
      Cell(d, MakeDay(y, m + 1, d), NextMonth)
  }

  /** What `renderDay(day, isCurrentMonth, isPrevMonth)` stands for: the label and the date
      `new Date(year, month - 1 | month | month + 1, day)`. */
  function RenderDay(y: int, m: int, day: int, kind: CellKind): (c: Cell)
    ensures c.dayLabel == day && c.kind == kind
    ensures c.date == MakeDay(y, m + (match kind case PrevMonth => -1 case CurrentMonth => 0 case NextMonth => 1), day)
  {
    match kind
    case PrevMonth => Cell(day, MakeDay(y, m - 1, day), PrevMonth)
    case CurrentMonth => Cell(day, MakeDay(y, m, day), CurrentMonth)
    case NextMonth => Cell(day, MakeDay(y, m + 1, day), NextMonth)
  }

  /** The three `Array.from` runs of `renderDay` calls, one after the other: cell `k` is the
      one `CellAt` places there, and the grid always has six full weeks. */
  function MonthGrid(y: int, m: int, daysInPrevMonth: int): (g: seq<Cell>)
    requires 0 <= m < 12
    ensures |g| == 42
    ensures forall k :: 0 <= k < 42 ==> g[k] == CellAt(y, m, MonthLayout(y, m, daysInPrevMonth), k)
  {
    Runs(y, m, MonthLayout(y, m, daysInPrevMonth))
  }

  /** The leading, current-month and trailing runs for the counts in `l`. */
  function Runs(y: int, m: int, l: Layout): (g: seq<Cell>)
    requires l.leading >= 0 && l.daysInMonth >= 0 && l.trailing >= 0
    ensures |g| == l.leading + l.daysInMonth + l.trailing
    ensures forall k :: 0 <= k < |g| ==> g[k] == CellAt(y, m, l, k)
  {
    var prev := seq(l.leading, i requires 0 <= i < l.leading =>
      RenderDay(y, m, l.daysInPrevMonth - l.leading + i + 1, PrevMonth));
    var current := seq(l.daysInMonth, i requires 0 <= i < l.daysInMonth => RenderDay(y, m, i + 1, CurrentMonth));
    var next := seq(l.trailing, i requires 0 <= i < l.trailing => RenderDay(y, m, i + 1, NextMonth));
    RunsAreCells(y, m, l, prev, current, next);
    prev + current + next
  }

  /** The runs, laid end to end, put at each index the cell `CellAt` computes for it. */
  lemma RunsAreCells(y: int, m: int, l: Layout, prev: seq<Cell>, current: seq<Cell>, next: seq<Cell>)
    requires l.leading >= 0 && l.daysInMonth >= 0 && l.trailing >= 0
    requires |prev| == l.leading && |current| == l.daysInMonth && |next| == l.trailing
    requires forall i :: 0 <= i < l.leading ==>
      prev[i] == RenderDay(y, m, l.daysInPrevMonth - l.leading + i + 1, PrevMonth)
    requires forall i :: 0 <= i < l.daysInMonth ==> current[i] == RenderDay(y, m, i + 1, CurrentMonth)
    requires forall i :: 0 <= i < l.trailing ==> next[i] == RenderDay(y, m, i + 1, NextMonth)
    ensures forall k :: 0 <= k < |prev + current + next| ==> (prev + current + next)[k] == CellAt(y, m, l, k)
  {
    var g := prev + current + next;
    forall k | 0 <= k < |g|
      ensures g[k] == CellAt(y, m, l, k)
    {
      var n1 := l.leading + l.daysInMonth;
      if k < l.leading {
        assert g[k] == prev[k];
      } else if k < n1 {
        assert g[k] == current[k - l.leading];
      } else {
        assert g[k] == next[k - n1];
      }
    }
  }

  /** The grid as the calendar draws it. */
  function GridAsWritten(y: int, m: int): (g: seq<Cell>)
    requires 0 <= m < 12
    ensures |g| == 42
  {
    MonthGrid(y, m, PrevLengthAsWritten(y, m))
  }

  /** The grid with the previous month's real length. */
  function GridIntended(y: int, m: int): (g: seq<Cell>)
    requires 0 <= m < 12
    ensures |g| == 42
  {
    MonthGrid(y, m, PrevLengthIntended(y, m))
  }

  /** `new Date(y, m, d)` is `d - 1` days after the 1st of month `m`, whatever `d` is. */
  lemma MakeDayOffset(y: int, m: int, d: int)
    ensures MakeDay(y, m, d) == MakeDay(y, m, 1) + d - 1
  {
  }

  /** The date of cell `k`, counted from the 1st of the month, for any previous-month length. */
  lemma CellDate(y: int, m: int, dip: int, k: int)
    requires 0 <= m < 12 && 0 <= k < 42
    ensures var l := MonthLayout(y, m, dip);
      CellAt(y, m, l, k).date == MakeDay(y, m, 1) - l.leading + k
        + (if k < l.leading then dip - PrevLengthIntended(y, m) else 0)
  {
    var l := MonthLayout(y, m, dip);
    if k < l.leading {
      LeadingCellDate(y, m, l, k);
    } else if k < l.leading + l.daysInMonth {
      MakeDayOffset(y, m, k - l.leading + 1);
    } else {
      TrailingCellDate(y, m, l, k);
    }
  }

  lemma LeadingCellDate(y: int, m: int, l: Layout, k: int)
    requires 0 <= m < 12 && l.daysInMonth >= 0 && 0 <= k < l.leading
    ensures CellAt(y, m, l, k).date == MakeDay(y, m, 1) - l.leading + k + l.daysInPrevMonth - PrevLengthIntended(y, m)
  {
    PrevMonthEnd(y, m);
    MakeDayOffset(y, m - 1, l.daysInPrevMonth - l.leading + k + 1);
  }

  lemma TrailingCellDate(y: int, m: int, l: Layout, k: int)
    requires 0 <= m < 12 && l.daysInMonth == DaysInMonth(y, m) && l.leading + l.daysInMonth <= k
    ensures CellAt(y, m, l, k).date == MakeDay(y, m, 1) - l.leading + k
  {
    NextMonthStart(y, m);
    MakeDayOffset(y, m + 1, k - l.leading - l.daysInMonth + 1);
  }

  /** Cell `k` of the corrected grid is day `k` of the six weeks, and it belongs to the month
      exactly when its date does. */
  lemma GridIntendedCell(y: int, m: int, k: int)
    requires 0 <= m < 12 && 0 <= k < 42
    ensures var g := GridIntended(y, m);
      var first := MakeDay(y, m, 1);
      g[k].date == first - Weekday(first) + k &&
      (g[k].kind == CurrentMonth <==> first <= g[k].date <= MakeDay(y, m + 1, 0))
  {
    var dip := PrevLengthIntended(y, m);
    CellDate(y, m, dip, k);
    LastOfMonthNumber(y, m);
  }

  /** With the previous month's real length the 42 cells are 42 consecutive days from the
      Sunday on or before the 1st; the cells of the month itself are exactly its days. */
  lemma GridIntendedIsConsecutive(y: int, m: int)
    requires 0 <= m < 12
    ensures var g := GridIntended(y, m);
      var first := MakeDay(y, m, 1);
      (forall k :: 0 <= k < 42 ==> g[k].date == first - Weekday(first) + k) &&
      (forall k :: 0 <= k < 42 ==> (g[k].kind == CurrentMonth <==> first <= g[k].date <= MakeDay(y, m + 1, 0)))
  {
    forall k | 0 <= k < 42
      ensures GridIntended(y, m)[k].date == MakeDay(y, m, 1) - Weekday(MakeDay(y, m, 1)) + k
      ensures GridIntended(y, m)[k].kind == CurrentMonth <==>
        MakeDay(y, m, 1) <= GridIntended(y, m)[k].date <= MakeDay(y, m + 1, 0)
    {
      GridIntendedCell(y, m, k);
    }
  }

  /** The corrected grid starts on a Sunday. */
  lemma GridIntendedStartsOnSunday(y: int, m: int)
    requires 0 <= m < 12
    ensures Weekday(GridIntended(y, m)[0].date) == 0
  {
    GridIntendedCell(y, m, 0);
    SundayOf(GridIntended(y, m)[0].date, MakeDay(y, m, 1));
  }

  lemma SundayOf(d: int, n: int)
    requires d == n - Weekday(n)
    ensures Weekday(d) == 0
  {
  }

  /** As written, every leading cell is off by the difference between the lengths of the
      month two before and the month before. */
  lemma GridAsWrittenShift(y: int, m: int, k: int)
    requires 0 <= m < 12 && 0 <= k < Weekday(MakeDay(y, m, 1))
    ensures GridAsWritten(y, m)[k].date
         == MakeDay(y, m, 1) - Weekday(MakeDay(y, m, 1)) + k + (PrevLengthAsWritten(y, m) - PrevLengthIntended(y, m))
  {
    CellDate(y, m, PrevLengthAsWritten(y, m), k);
  }

  /** March 1st, 2024 is day 738945 and a Friday. (The year is a parameter so that the
      verifier does not unfold the days before it one year at a time.) */
  lemma March2024Starts(y: int)
    requires y == 2024
    ensures MakeDay(y, 2, 1) == 738945 && Weekday(MakeDay(y, 2, 1)) == 5
  {
    DaysBefore2024(y);
    LeapFebruary(y);
    MakeDayInYear(y, 2, 1);
    IsFriday(MakeDay(y, 2, 1));
  }

  lemma IsFriday(n: int)
    requires n == 738945
    ensures Weekday(n) == 5
  {
  }

  lemma LeapFebruary(y: int)
    requires y == 2024
    ensures DaysBeforeMonth(y, 2) == 60
  {
    assert IsLeapYear(y);
    assert DaysInMonth(y, 1) == 29;
    assert DaysBeforeMonth(y, 1) == 31;
  }

  lemma DaysBefore2024(y: int)
    requires y == 2024
    ensures DaysBeforeYear(y) == 738885
  {
    DaysBeforeYearClosed(y);
    var x := y - 1;
    assert x / 4 == 505 && x / 100 == 20 && x / 400 == 5;
    assert 365 * x == 738395;
  }

  /** February 2024 has 29 days and January 31, so the grid's guess for the month before
      March is two days too long. */
  lemma March2024PrevLengths(y: int)
    requires y == 2024
    ensures PrevLengthAsWritten(y, 2) == 31 && PrevLengthIntended(y, 2) == 29
  {
    assert (2 - 2) / 12 == 0 && (2 - 2) % 12 == 0;
    assert (2 - 1) / 12 == 0 && (2 - 1) % 12 == 1;
    assert IsLeapYear(y);
  }

  /** March 2024 starts on a Friday and follows a 29-day February, but the grid takes January's
      31 days: its leading cells are labelled 27 to 31 and stand for February 27 to March 2, so
      March 1 appears twice, in cell 3 and in cell 5. */
  lemma March2024GridRepeatsADay(y: int)
    requires y == 2024
    ensures var g := GridAsWritten(y, 2);
      g[0].dayLabel == 27 && g[4].dayLabel == 31 && g[3].kind == PrevMonth && g[5].kind == CurrentMonth &&
      g[3].date == g[5].date == MakeDay(y, 2, 1)
  {
    March2024Starts(y);
    March2024PrevLengths(y);
    var l := MonthLayout(y, 2, 31);
    assert l.leading == 5;
    GridAsWrittenShift(y, 2, 3);
    CellDate(y, 2, 31, 5);
  }

  // ---------------------------------------------------------------------
  // One cell.

  /** `getDayEntries`: the entries dated on the cell's day, in the order given. */
  function DayCellEntries(entries: seq<TimeEntry>, date: int): (r: seq<TimeEntry>)
    ensures forall i :: 0 <= i < |r| ==> r[i].date == date && r[i] in entries
    ensures forall x :: multiset(r)[x] == if x.date == date then multiset(entries)[x] else 0
  {
    OnDate(entries, date)
  }

  /** The `categories` reduce: a count for each category that occurs, and no key for the others. */
  function CategoryCounts(s: seq<TimeEntry>): (r: map<Category, nat>)
    ensures forall c :: c in r <==> CategoryCount(s, c) > 0
    ensures forall c :: c in r ==> r[c] == CategoryCount(s, c)
  {
    if s == [] then map[]
    else
      var init, last := s[..|s| - 1], s[|s| - 1];
      var acc := CategoryCounts(init);
      acc[last.category := (if last.category in acc then acc[last.category] else 0) + 1]
  }

  /** `getDayStats`. */
  datatype DayStats = DayStats(totalHours: int, categories: map<Category, nat>, hasEntries: bool)

  function GetDayStats(s: seq<TimeEntry>): (r: DayStats)
    ensures r.totalHours == Tenths(TotalMinutes(s))
    ensures r.hasEntries <==> |s| > 0
    ensures forall c :: c in r.categories <==> CategoryCount(s, c) > 0
  {
    DayStats(Tenths(TotalMinutes(s)), CategoryCounts(s), |s| > 0)
  }

  /** The counts shown add up to the cell's entries, and a cell has entries exactly when some
      category has a count. */
  lemma DayStatsCountsAddUp(s: seq<TimeEntry>)
    ensures var r := GetDayStats(s);
      (if Growth in r.categories then r.categories[Growth] else 0)
      + (if Maintenance in r.categories then r.categories[Maintenance] else 0)
      + (if Shrink in r.categories then r.categories[Shrink] else 0) == |s|
    ensures GetDayStats(s).hasEntries <==> GetDayStats(s).categories != map[]
  {
    CategoryCountPartition(s);
    var r := GetDayStats(s);
    if |s| > 0 {
      assert CategoryCount(s, s[0].category) > 0 by {
        FilterKeeps(s, CategoryIs(s[0].category), 0);
      }
      assert s[0].category in r.categories;
    }
  }

  /** The click handler: a cell after today never selects its date. */
  function OnCellClick(date: int, today: int): (selected: Option<int>)
    ensures selected.Some? <==> date <= today
    ensures selected.Some? ==> selected.value == date
  {
    if date > today then None else Some(date)
  }

  /** The previews a cell lists: the first two entries, then "+n more" for the rest. */
  function Preview(s: seq<TimeEntry>): (r: (seq<TimeEntry>, Option<nat>))
    ensures |r.0| <= 2 && |r.0| <= |s| && r.0 == s[..|r.0|]
    ensures |s| <= 2 ==> r.0 == s && r.1.None?
    ensures |s| > 2 ==> |r.0| == 2 && r.1 == Some(|s| - 2)
  {
    if |s| > 2 then (s[..2], Some(|s| - 2)) else (s, None)
  }
}
