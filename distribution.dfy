/** The time-distribution pie chart: minutes per category, turned into at most three
    slices in a fixed order, each slice's size being its hours to one decimal (in tenths). */
module Distribution {
  import opened Seqs
  import opened TimeEntries
  import opened Aggregates

  /** The accumulator `{ growth, maintenance, shrink }` of the reduce. */
  datatype Totals = Totals(growth: int, maintenance: int, shrink: int)

  function Get(t: Totals, c: Category): int {
    match c
    case Growth => t.growth
    case Maintenance => t.maintenance
    case Shrink => t.shrink
  }

  /** `acc[entry.category] += entry.duration`. */
  function Add(t: Totals, e: TimeEntry): Totals {
    match e.category
    case Growth => t.(growth := t.growth + e.duration)
    case Maintenance => t.(maintenance := t.maintenance + e.duration)
    case Shrink => t.(shrink := t.shrink + e.duration)
  }

  /** The reduce over the entries, from all zeros. */
  function CategoryTotals(s: seq<TimeEntry>): Totals {
    if s == [] then Totals(0, 0, 0) else Add(CategoryTotals(s[..|s| - 1]), s[|s| - 1])
  }

  /** Each total of the reduce is the minutes logged under its category; together they are
      all the minutes. */
  lemma {:induction false} CategoryTotalsAreMinutes(s: seq<TimeEntry>)
    ensures forall c :: Get(CategoryTotals(s), c) == CategoryMinutes(s, c)
    ensures CategoryTotals(s).growth + CategoryTotals(s).maintenance + CategoryTotals(s).shrink == TotalMinutes(s)
  {
    if s != [] {
      var init, e := s[..|s| - 1], s[|s| - 1];
      CategoryTotalsAreMinutes(init);
      assert s == init + [e];
      forall c
        ensures Get(CategoryTotals(s), c) == CategoryMinutes(s, c)
      {
        CategoryMinutesSnoc(init, e, c);
      }
    }
    CategoryMinutesPartition(s);
  }

  // ---------------------------------------------------------------------
  // The slices.

  /** One pie slice; `value` is what the chart draws and `hours` what the legend prints. */
  datatype Slice = Slice(name: string, value: int, hours: int, color: string)

  function NameOf(c: Category): string {
    match c
    case Growth => "Growth"
    case Maintenance => "Maintenance"
    case Shrink => "Shrink"
  }

  /** The `COLORS` table. */
  function ColorOf(c: Category): string {
    match c
    case Growth => "#22c55e"
    case Maintenance => "#3b82f6"
    case Shrink => "#ef4444"
  }

  /** A category's slice before filtering: value and hours are both its minutes in tenths. */
  function SliceOf(t: Totals, c: Category): Slice {
    Slice(NameOf(c), Tenths(Get(t, c)), Tenths(Get(t, c)), ColorOf(c))
  }

  function Drawn(sl: Slice): bool { sl.value > 0 }

  /** `chartData`: the three slices in the order Growth, Maintenance, Shrink, keeping those with a
      positive value. */
  function ChartData(s: seq<TimeEntry>): seq<Slice> {
    var t := CategoryTotals(s);
    Filter([SliceOf(t, Growth), SliceOf(t, Maintenance), SliceOf(t, Shrink)], Drawn)
  }

  /** The slice of `c`, if drawn. */
  function Kept(t: Totals, c: Category): seq<Slice> {
    if Tenths(Get(t, c)) > 0 then [SliceOf(t, c)] else []
  }

  /** The filter over the fixed three-element list, written out. */
  lemma ChartDataSpelled(s: seq<TimeEntry>)
    ensures ChartData(s) == Kept(CategoryTotals(s), Growth) + Kept(CategoryTotals(s), Maintenance)
                           + Kept(CategoryTotals(s), Shrink)
  {
    var t := CategoryTotals(s);
    var g, m, sh := SliceOf(t, Growth), SliceOf(t, Maintenance), SliceOf(t, Shrink);
    assert [g, m, sh] == [g, m] + [sh];
    assert [g, m] == [g] + [m];
    assert [g] == [] + [g];
    FilterSnoc([], g, Drawn);
    FilterSnoc([g], m, Drawn);
    FilterSnoc([g, m], sh, Drawn);
  }

  /** The chart holds at most three slices, in the fixed order, each with a positive value equal
      to its hours. */
  lemma ChartSlices(s: seq<TimeEntry>, r: seq<Slice>)
    requires r == ChartData(s)
    ensures |r| <= 3
    ensures forall i :: 0 <= i < |r| ==> r[i].value == r[i].hours > 0
    ensures forall i, j :: 0 <= i < j < |r| ==> SliceRank(r[i]) < SliceRank(r[j])
  {
    ChartDataSpelled(s);
  }

  /** A slice named after a category shows that category's minutes in tenths, in its colour. */
  lemma SliceFigures(s: seq<TimeEntry>, r: seq<Slice>, c: Category)
    requires r == ChartData(s)
    ensures forall i :: 0 <= i < |r| && r[i].name == NameOf(c) ==>
      r[i] == SliceOf(CategoryTotals(s), c) && r[i].hours == Tenths(CategoryMinutes(s, c)) && r[i].color == ColorOf(c)
  {
    ChartDataSpelled(s);
    CategoryTotalsAreMinutes(s);
  }

  /** A slice's place in the fixed order, read off its name. */
  function SliceRank(sl: Slice): nat {
    if sl.name == "Growth" then 0 else if sl.name == "Maintenance" then 1 else 2
  }

  /** A category has a slice exactly when its minutes round to a positive number of tenths. */
  lemma SliceShownIff(s: seq<TimeEntry>, c: Category)
    ensures SliceOf(CategoryTotals(s), c) in ChartData(s) <==> Tenths(CategoryMinutes(s, c)) > 0
  {
    ChartDataSpelled(s);
    CategoryTotalsAreMinutes(s);
  }

  /** The empty state is shown exactly when no category rounds to a positive number of tenths. */
  lemma NoSlicesIff(s: seq<TimeEntry>)
    ensures ChartData(s) == [] <==>
      Tenths(CategoryMinutes(s, Growth)) <= 0 && Tenths(CategoryMinutes(s, Maintenance)) <= 0 &&
      Tenths(CategoryMinutes(s, Shrink)) <= 0
  {
    ChartDataSpelled(s);
    CategoryTotalsAreMinutes(s);
  }
}
