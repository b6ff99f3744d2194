/** The activity-trends line chart: one point per calendar day of the dashboard's window,
    holding that day's hours per category and in total, to one decimal (in tenths). */
module Trends {
  import opened Seqs
  import opened TimeEntries
  import opened Aggregates
  import opened Distribution

  /** One point of `dailyData`; `date` is the day number behind the `dateStr` key. */
  datatype DayPoint = DayPoint(date: int, growth: int, maintenance: int, shrink: int, total: int)

  /** What the point of day `d` shows: the minutes of that day's entries per category and in
      total, each rounded to tenths on its own. */
  function PointOf(entries: seq<TimeEntry>, d: int): DayPoint {
    var day := Filter(entries, DateIs(d));
    DayPoint(d, Tenths(CategoryMinutes(day, Growth)), Tenths(CategoryMinutes(day, Maintenance)),
             Tenths(CategoryMinutes(day, Shrink)), Tenths(TotalMinutes(day)))
  }

  /** The `while (currentDate <= endDate)` loop: filter the day's entries, reduce them per
      category, push the rounded figures, step to the next day. */
  method DailyData(entries: seq<TimeEntry>, start: int, end: int) returns (points: seq<DayPoint>)
    ensures |points| == if start <= end then end - start + 1 else 0
    ensures forall i :: 0 <= i < |points| ==> points[i] == PointOf(entries, start + i)
  {
    points := [];
    var current := start;
    while current <= end
      invariant current == start + |points|
      invariant start <= end ==> current <= end + 1
      invariant start > end ==> points == []
      invariant forall i :: 0 <= i < |points| ==> points[i] == PointOf(entries, start + i)
      decreases end - current
    {
      var day := Filter(entries, DateIs(current));
      var t := CategoryTotals(day);
      var point := DayPoint(current, Tenths(t.growth), Tenths(t.maintenance), Tenths(t.shrink),
                            Tenths(t.growth + t.maintenance + t.shrink));
      ReducedPoint(entries, current, t, point);
      points := points + [point];
      current := current + 1;
    }
  }

  /** The total is rounded from the unrounded sum: it is within a tenth of the sum of the rounded
      parts, and can differ from it. */
  lemma TotalNearParts(entries: seq<TimeEntry>, d: int)
    ensures var p := PointOf(entries, d);
      -1 <= p.total - (p.growth + p.maintenance + p.shrink) <= 1
  {
    var day := Filter(entries, DateIs(d));
    CategoryMinutesPartition(day);
    TenthsOfSum(CategoryMinutes(day, Growth), CategoryMinutes(day, Maintenance), CategoryMinutes(day, Shrink));
  }

  /** Entries dated on other days leave a point unchanged. */
  lemma PointIgnoresOtherDays(entries: seq<TimeEntry>, e: TimeEntry, d: int)
    requires e.date != d
    ensures PointOf(entries + [e], d) == PointOf(entries, d)
  {
    FilterSnoc(entries, e, DateIs(d));
    assert !DateIs(d)(e);
    assert Filter(entries + [e], DateIs(d)) == Filter(entries, DateIs(d)) + [];
    assert Filter(entries, DateIs(d)) + [] == Filter(entries, DateIs(d));
  }

  /** The loop body's figures, computed by the reduce, are the point of its day. */
  lemma ReducedPoint(entries: seq<TimeEntry>, d: int, t: Totals, point: DayPoint)
    requires t == CategoryTotals(Filter(entries, DateIs(d)))
    requires point == DayPoint(d, Tenths(t.growth), Tenths(t.maintenance), Tenths(t.shrink),
                               Tenths(t.growth + t.maintenance + t.shrink))
    ensures point == PointOf(entries, d)
  {
    var day := Filter(entries, DateIs(d));
    CategoryTotalsAreMinutes(day);
    assert Get(t, Growth) == CategoryMinutes(day, Growth);
    assert Get(t, Maintenance) == CategoryMinutes(day, Maintenance);
    assert Get(t, Shrink) == CategoryMinutes(day, Shrink);
  }
}
