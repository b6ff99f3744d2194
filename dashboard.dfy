/** The dashboard: the date window it reports on and the analytics it derives from the
    entries in that window. Hour figures are in tenths of an hour. */
module Dashboard {
  import opened Seqs
  import opened TimeEntries
  import opened Aggregates

  datatype DateRange = Last7Days | Last14Days | Last30Days | CustomRange

  /** The first and last day the dashboard reports on. */
  datatype ReportWindow = ReportWindow(start: int, end: int)

  /** The preset length in days; a custom range that lacks a date falls back to 30. */
  function PresetDays(range: DateRange): (d: int)
    ensures d == 7 || d == 14 || d == 30
  {
    match range
    case Last7Days => 7
    case Last14Days => 14
    case _ => 30
  }

  /** The date-range memo: the custom dates when "custom" is chosen and both are filled in
      (`None` is an empty date field), otherwise the preset number of days ending today. */
  function SelectWindow(range: DateRange, customStart: Option<int>, customEnd: Option<int>, today: int): (w: ReportWindow)
    ensures range == CustomRange && customStart.Some? && customEnd.Some? ==>
      w == ReportWindow(customStart.value, customEnd.value)
    ensures !(range == CustomRange && customStart.Some? && customEnd.Some?) ==>
      w.end == today && w.end - w.start + 1 == PresetDays(range)
  {
    if range == CustomRange && customStart.Some? && customEnd.Some? then
      ReportWindow(customStart.value, customEnd.value)
    else
      ReportWindow(today - (PresetDays(range) - 1), today)
  }

  /** A custom choice with a date missing reports on the last 30 days. */
  lemma IncompleteCustomFallsBack(customStart: Option<int>, customEnd: Option<int>, today: int)
    requires customStart.None? || customEnd.None?
    ensures SelectWindow(CustomRange, customStart, customEnd, today) == SelectWindow(Last30Days, None, None, today)
  {
  }

  // ---------------------------------------------------------------------
  // Formulas.

  /** `Math.round(totalHours / Math.max(1, days) * 10) / 10` with `days` the whole days from
      the window's start to its end: the nearest tenth of the hours per day. */
  function AvgDailyHours(totalTenths: int, window: ReportWindow): (r: int)
    ensures var d := Max(1, window.end - window.start);
      2 * d * r - d <= 2 * totalTenths < 2 * d * r + d
    ensures totalTenths >= 0 ==> r >= 0
  {
    var d := Max(1, window.end - window.start);
    (2 * totalTenths + d) / (2 * d)
  }

  /** A preset window spans one day less than it covers, so the average divides by one day
      less: seven hours over the last seven days average 1.2 hours, not 1.0. */
  lemma PresetAverageDividesByOneDayLess(today: int)
    ensures SelectWindow(Last7Days, None, None, today).end - SelectWindow(Last7Days, None, None, today).start == 6
    ensures AvgDailyHours(70, SelectWindow(Last7Days, None, None, today)) == 12
  {
  }

  /** `Math.round((growthHours + maintenanceHours * 0.5) / Math.max(1, totalHours) * 100)`:
      the nearest whole percentage, with growth counted fully and maintenance half. */
  function ProductivityScore(growth: int, maintenance: int, total: int): (r: int)
    ensures var d := Max(10, total);
      2 * d * r - d <= 200 * growth + 100 * maintenance < 2 * d * r + d
  {
    var d := Max(10, total);
    (200 * growth + 100 * maintenance + d) / (2 * d)
  }

  lemma ScoreNonNegative(growth: int, maintenance: int, total: int)
    requires growth >= 0 && maintenance >= 0
    ensures ProductivityScore(growth, maintenance, total) >= 0
  {
  }

  lemma ScoreZeroWithoutGrowthOrMaintenance(total: int)
    ensures ProductivityScore(0, 0, total) == 0
  {
  }

  /** All growth and at least an hour in total scores exactly 100. */
  lemma {:induction false} AllGrowthScoresHundred(total: int)
    requires total >= 10
    ensures ProductivityScore(total, 0, total) == 100
  {
    var r := ProductivityScore(total, 0, total);
    if r >= 101 {
      MulMonotone(2 * total, 101, r);
    } else if r <= 99 {
      MulMonotone(2 * total, r, 99);
    }
  }

  lemma MulMonotone(d: int, a: int, b: int)
    requires d > 0 && a <= b
    ensures d * a <= d * b
  {
  }

  // ---------------------------------------------------------------------
  // The analytics memo.

  /** Minutes and entry count of one category, as the `categoryStats` accumulator holds them. */
  datatype Tally = Tally(minutes: int, count: int)

  datatype HoursCount = HoursCount(hours: int, count: int)

  datatype Analytics = Analytics(
    totalHours: int,
    avgDailyHours: int,
    productivityScore: int,
    growth: HoursCount,
    maintenance: HoursCount,
    shrink: HoursCount)

  /** The accumulator of category `c` after it has seen entry `e`. */
  function Bump(t: Tally, e: TimeEntry, c: Category): Tally {
    if e.category == c then Tally(t.minutes + e.duration, t.count + 1) else t
  }

  /** The accumulator of category `c` holds the minutes and count of that category in `s`. */
  predicate Tallied(s: seq<TimeEntry>, c: Category, t: Tally) {
    t == Tally(CategoryMinutes(s, c), CategoryCount(s, c))
  }

  lemma TallyStep(s: seq<TimeEntry>, i: nat, c: Category, t: Tally)
    requires i < |s| && Tallied(s[..i], c, t)
    ensures Tallied(s[..i + 1], c, Bump(t, s[i], c))
  {
    var kept := if s[i].category == c then [s[i]] else [];
    assert s[..i + 1][..i] == s[..i];
    assert Filter(s[..i + 1], CategoryIs(c)) == Filter(s[..i], CategoryIs(c)) + kept;
    TotalMinutesAppend(Filter(s[..i], CategoryIs(c)), kept);
  }

  /** The `categoryStats` reduce: one pass that adds each entry's minutes and one count to the
      accumulator of its category. */
  method TallyCategories(s: seq<TimeEntry>) returns (growth: Tally, maintenance: Tally, shrink: Tally)
    ensures Tallied(s, Growth, growth) && Tallied(s, Maintenance, maintenance) && Tallied(s, Shrink, shrink)
  {
    growth, maintenance, shrink := Tally(0, 0), Tally(0, 0), Tally(0, 0);
    for i := 0 to |s|
      invariant Tallied(s[..i], Growth, growth)
      invariant Tallied(s[..i], Maintenance, maintenance)
      invariant Tallied(s[..i], Shrink, shrink)
    {
      TallyStep(s, i, Growth, growth);
      TallyStep(s, i, Maintenance, maintenance);
      TallyStep(s, i, Shrink, shrink);
      var e := s[i];
      match e.category
      case Growth => growth := Tally(growth.minutes + e.duration, growth.count + 1);
      case Maintenance => maintenance := Tally(maintenance.minutes + e.duration, maintenance.count + 1);
      case Shrink => shrink := Tally(shrink.minutes + e.duration, shrink.count + 1);
    }
    assert s[..|s|] == s;
  }

  /** The `analytics` memo over the entries of the report window. */
  method ComputeAnalytics(s: seq<TimeEntry>, window: ReportWindow) returns (a: Analytics)
    ensures a.totalHours == Tenths(TotalMinutes(s))
    ensures a.growth == HoursCount(Tenths(CategoryMinutes(s, Growth)), CategoryCount(s, Growth))
    ensures a.maintenance == HoursCount(Tenths(CategoryMinutes(s, Maintenance)), CategoryCount(s, Maintenance))
    ensures a.shrink == HoursCount(Tenths(CategoryMinutes(s, Shrink)), CategoryCount(s, Shrink))
    ensures a.growth.count + a.maintenance.count + a.shrink.count == |s|
    ensures a.avgDailyHours == AvgDailyHours(a.totalHours, window)
    ensures a.productivityScore == ProductivityScore(a.growth.hours, a.maintenance.hours, a.totalHours)
  {
    var totalHours := Tenths(TotalMinutes(s));
    var g, m, sh := TallyCategories(s);
    CategoryCountPartition(s);
    var growth := HoursCount(Tenths(g.minutes), g.count);
    var maintenance := HoursCount(Tenths(m.minutes), m.count);
    var shrink := HoursCount(Tenths(sh.minutes), sh.count);
    a := Analytics(totalHours, AvgDailyHours(totalHours, window),
                   ProductivityScore(growth.hours, maintenance.hours, totalHours),
                   growth, maintenance, shrink);
  }

  /** Rounding each category separately can push the score past 100: 57 minutes of growth and
      3 of maintenance round to 1.0 and 0.1 hours of a 1.0-hour total, which scores 105. */
  lemma ScoreCanExceedHundred()
    ensures Tenths(57) == 10 && Tenths(3) == 1 && Tenths(57 + 3) == 10
    ensures ProductivityScore(Tenths(57), Tenths(3), Tenths(57 + 3)) == 105
  {
  }
}
