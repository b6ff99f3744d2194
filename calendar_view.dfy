/** The calendar page: a day, week or month window around the current date, the
    stats of the entries inside it, and navigation that never goes past today. */
module CalendarView {
  import opened Seqs
  import opened Dates
  import opened TimeEntries
  import opened Aggregates

  datatype ViewType = DayView | WeekView | MonthView

  datatype Direction = Prev | Next

  lemma WeekdayOfSunday(n: int)
    ensures Weekday(n - Weekday(n)) == 0
  {
  }

  /** `startOfWeek.setDate(getDate() - getDay())`: the Sunday on or before day `n`. */
  function StartOfWeek(n: int): (r: int)
    ensures Weekday(r) == 0 && n - 6 <= r <= n
  {
    WeekdayOfSunday(n);
    SetDate(n, -Weekday(n))
  }

  /** `new Date(year, month, 1)`: the first day of `n`'s month. */
  function StartOfMonth(n: int): int {
    var c := CivilOf(n);
    MakeDay(c.year, c.month, 1)
  }

  /** `new Date(year, month + 1, 0)`: the last day of `n`'s month. */
  function EndOfMonth(n: int): int {
    var c := CivilOf(n);
    MakeDay(c.year, c.month + 1, 0)
  }

  /** The first and last day a view shows, both inclusive. */
  datatype Window = Window(first: int, last: int)

  function ViewWindow(view: ViewType, n: int): (w: Window)
    ensures w.first <= n <= w.last
  {
    match view
    case DayView => Window(n, n)
    case WeekView =>
      var start := StartOfWeek(n);
      Window(start, SetDate(start, 6))
    case MonthView =>
      var c := CivilOf(n);
      DayNumberBounds(c);
      LastOfMonth(c.year, c.month);
      Window(StartOfMonth(n), EndOfMonth(n))
  }

  /** The week window is the seven days from the Sunday on or before `n`. */
  lemma WeekWindowIsSundayToSaturday(n: int)
    ensures var w := ViewWindow(WeekView, n);
      w.last == w.first + 6 && Weekday(w.first) == 0 && Weekday(w.last) == 6 && w.first <= n <= w.last
  {
    var start := StartOfWeek(n);
    assert ViewWindow(WeekView, n) == Window(start, start + 6);
    SaturdayAfterSunday(start);
  }

  lemma SaturdayAfterSunday(n: int)
    requires Weekday(n) == 0
    ensures Weekday(n + 6) == 6
  {
  }

  /** The month window holds exactly the days of `n`'s month. */
  lemma MonthWindowIsMonth(n: int, d: int)
    ensures var w := ViewWindow(MonthView, n);
      w.first <= d <= w.last <==> CivilOf(d).year == CivilOf(n).year && CivilOf(d).month == CivilOf(n).month
  {
    var c := CivilOf(n);
    assert ViewWindow(MonthView, n) == Window(MakeDay(c.year, c.month, 1), MakeDay(c.year, c.month + 1, 0));
    InMonthIff(d, c.year, c.month);
  }

  /** `getFilteredEntries`: the day view compares dates for equality, the others keep the
      entries whose date lies in the window. */
  function FilteredEntries(entries: seq<TimeEntry>, view: ViewType, n: int): (r: seq<TimeEntry>)
    ensures forall i :: 0 <= i < |r| ==>
      r[i] in entries && ViewWindow(view, n).first <= r[i].date <= ViewWindow(view, n).last
    ensures forall x :: multiset(r)[x] == if ViewWindow(view, n).first <= x.date <= ViewWindow(view, n).last
      then multiset(entries)[x] else 0
  {
    if view == DayView then
      OnDate(entries, n)
    else
      var w := ViewWindow(view, n);
      InRange(entries, w.first, w.last)
  }

  /** The hours a view could hold: 24 a day, 24 times 7 a week, and 24 for each day of the month,
      where the month's length is `getDate()` of `new Date(year, month + 1, 0)`. */
  function Capacity(view: ViewType, n: int): (h: int)
    ensures view == DayView ==> h == 24
    ensures view == WeekView ==> h == 24 * 7
    ensures view == MonthView ==> h == 24 * DaysInMonth(CivilOf(n).year, CivilOf(n).month)
  {
    match view
    case DayView => 24
    case WeekView => 24 * 7
    case MonthView =>
      var c := CivilOf(n);
      DayNumberBounds(c);
      LastOfMonth(c.year, c.month);
      24 * CivilOf(MakeDay(c.year, c.month + 1, 0)).day
  }

  /** The capacity is 24 hours for every day of the window. */
  lemma CapacityCoversWindow(view: ViewType, n: int)
    ensures var w := ViewWindow(view, n);
      Capacity(view, n) == 24 * (w.last - w.first + 1)
  {
    if view == MonthView {
      var c := CivilOf(n);
      DayNumberBounds(c);
      LastOfMonth(c.year, c.month);
    }
  }

  /** `getStats`: the totals of the entries inside the view's window, against the window's capacity. */
  function GetStats(entries: seq<TimeEntry>, view: ViewType, n: int): (r: HourStats)
    ensures r.capacity == Capacity(view, n)
    ensures r.total == Tenths(TotalMinutes(FilteredEntries(entries, view, n)))
    ensures r.growth == Tenths(CategoryMinutes(FilteredEntries(entries, view, n), Growth))
    ensures r.maintenance == Tenths(CategoryMinutes(FilteredEntries(entries, view, n), Maintenance))
    ensures r.shrink == Tenths(CategoryMinutes(FilteredEntries(entries, view, n), Shrink))
    ensures r.undocumented == Undocumented(r.total, Capacity(view, n))
  {
    Summarize(FilteredEntries(entries, view, n), Capacity(view, n))
  }

  /** Reordering the stored entries does not change a view's stats. */
  lemma GetStatsIgnoresOrder(a: seq<TimeEntry>, b: seq<TimeEntry>, view: ViewType, n: int)
    requires multiset(a) == multiset(b)
    ensures GetStats(a, view, n) == GetStats(b, view, n)
  {
    var fa, fb := FilteredEntries(a, view, n), FilteredEntries(b, view, n);
    assert multiset(fa) == multiset(fb) by {
      forall x
        ensures multiset(fa)[x] == multiset(fb)[x]
      {
      }
    }
    SummarizePermutation(fa, fb, Capacity(view, n));
  }

  // ---------------------------------------------------------------------
  // Navigation.

  /** The date `navigateDate(dir)` and `isNextDisabled` compute before any check:
      one day, seven days or one month on or back. */
  function Candidate(view: ViewType, n: int, dir: Direction): (r: int)
    ensures view == DayView ==> r == n + Step(dir)
    ensures view == WeekView ==> r == n + 7 * Step(dir)
    ensures dir == Next ==> r > n
    ensures dir == Prev ==> r < n
  {
    AddMonthsMoves(n);
    match view
    case DayView => SetDate(n, Step(dir))
    case WeekView => SetDate(n, 7 * Step(dir))
    case MonthView => AddMonths(n, Step(dir))
  }

  function Step(dir: Direction): int { if dir == Next then 1 else -1 }

  /** A month step keeps the day of the month whenever the target month has it. */
  lemma MonthStepKeepsDay(n: int, dir: Direction)
    requires ValidCivil(MonthShift(CivilOf(n), Step(dir)))
    ensures CivilOf(Candidate(MonthView, n, dir)) == MonthShift(CivilOf(n), Step(dir))
  {
    assert Candidate(MonthView, n, dir) == AddMonths(n, Step(dir));
    AddMonthsKeepsDay(n, Step(dir));
  }

  /** `isNextDisabled`: the next date would lie after today. */
  predicate NextDisabled(view: ViewType, n: int, today: int) {
    Candidate(view, n, Next) > today
  }

  /** The current date after `navigateDate(dir)`: "next" is refused when it would pass today. */
  function Navigated(view: ViewType, n: int, dir: Direction, today: int): (r: int)
    ensures dir == Prev ==> r == Candidate(view, n, Prev) && r < n
    ensures dir == Next ==> (r == n <==> NextDisabled(view, n, today))
    ensures dir == Next && r != n ==> n < r <= today
    ensures dir == Next && !NextDisabled(view, n, today) ==> r == Candidate(view, n, Next)
  {
    if dir == Next && Candidate(view, n, dir) > today then n else Candidate(view, n, dir)
  }

  /** The page state: the date the view is centred on and the view type. */
  class CalendarPage {
    var currentDate: int
    var viewType: ViewType

    constructor(today: int)
      ensures currentDate == today && viewType == WeekView
    {
      currentDate := today;
      viewType := WeekView;
    }

    method NavigateDate(dir: Direction, today: int)
      modifies this
      ensures viewType == old(viewType)
      ensures currentDate == Navigated(viewType, old(currentDate), dir, today)
    {
      var newDate := Candidate(viewType, currentDate, dir);
      if dir == Next && newDate > today {
        return;
      }
      currentDate := newDate;
    }

    function IsNextDisabled(today: int): bool
      reads this
    {
      NextDisabled(viewType, currentDate, today)
    }
  }

  /** Starting on or before today, no sequence of steps takes the view past today. */
  lemma {:induction false} NavigationStaysInPast(view: ViewType, n: int, dirs: seq<Direction>, today: int)
    decreases |dirs|
    requires n <= today
    ensures Walk(view, n, dirs, today) <= today
  {
    if dirs != [] {
      NavigationStaysInPast(view, Navigated(view, n, dirs[0], today), dirs[1..], today);
    }
  }

  /** The date reached by a sequence of navigation clicks. */
  function Walk(view: ViewType, n: int, dirs: seq<Direction>, today: int): int
    decreases |dirs|
  {
    if dirs == [] then n else Walk(view, Navigated(view, n, dirs[0], today), dirs[1..], today)
  }
}
