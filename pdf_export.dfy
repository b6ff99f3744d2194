/** The report export: the entries sorted in place (latest date first, then by start time),
    one table row per entry, the activity count, and the file name built from the window's
    first and last days. */
module PdfExport {
  import opened Seqs
  import opened Text
  import opened Dates
  import opened TimeEntries
  import opened Aggregates
  import Distribution

  // ---------------------------------------------------------------------
  // The row order.

  /** The comparator `dateB - dateA || a.startTime.localeCompare(b.startTime)` as one ascending
      key: the date counts negatively, and the start-time key (from -1 to 9999) breaks ties. */
  function RowKey(e: TimeEntry): int {
    -e.date * 10001 + StartKey(e) + 1
  }

  lemma StartKeyBounds(e: TimeEntry)
    ensures -1 <= StartKey(e) < 10000
  {
  }

  /** The key orders by date descending, then by start-time key ascending. */
  lemma RowKeyOrder(a: TimeEntry, b: TimeEntry)
    ensures RowKey(a) <= RowKey(b) <==> a.date > b.date || (a.date == b.date && StartKey(a) <= StartKey(b))
    ensures RowKey(a) == RowKey(b) <==> a.date == b.date && StartKey(a) == StartKey(b)
  {
    StartKeyBounds(a);
    StartKeyBounds(b);
  }

  /** On stored entries, whose times are time fields, that is the comparator: later dates first,
      equal dates by `localeCompare` of the start times. */
  lemma RowKeyIsComparator(a: TimeEntry, b: TimeEntry)
    requires WellFormed(a) && WellFormed(b)
    ensures RowKey(a) <= RowKey(b) <==>
      a.date > b.date || (a.date == b.date && LexLessEq(a.startTime, b.startTime))
  {
    RowKeyOrder(a, b);
    LexOrderIsKeyOrder(a.startTime, b.startTime);
  }

  /** Inserting `x` lands it after the first `j` elements when exactly the elements from `j` on
      have larger keys. */
  lemma {:induction false} InsertSplit<T>(sorted: seq<T>, j: nat, x: T, key: T -> int)
    requires j <= |sorted| && (j == 0 || key(sorted[j - 1]) <= key(x))
    requires forall k :: j <= k < |sorted| ==> key(sorted[k]) > key(x)
    ensures InsertBy(sorted, x, key) == sorted[..j] + [x] + sorted[j..]
  {
    if |sorted| > j {
      var init := sorted[..|sorted| - 1];
      assert forall k :: j <= k < |init| ==> init[k] == sorted[k];
      InsertSplit(init, j, x, key);
      SplitSnoc(sorted, j, x, key);
    } else {
      assert sorted[..j] == sorted;
    }
  }

  /** The inductive step of `InsertSplit`: a last element with a larger key stays last. */
  lemma {:induction false} SplitSnoc<T>(sorted: seq<T>, j: nat, x: T, key: T -> int)
    requires j < |sorted| && key(sorted[|sorted| - 1]) > key(x)
    requires InsertBy(sorted[..|sorted| - 1], x, key) == sorted[..j] + [x] + sorted[j..|sorted| - 1]
    ensures InsertBy(sorted, x, key) == sorted[..j] + [x] + sorted[j..]
  {
    var init, last := sorted[..|sorted| - 1], sorted[|sorted| - 1];
    assert sorted == init + [last];
    assert sorted[j..] == sorted[j..|sorted| - 1] + [last];
  }

  /** Sorting one more element inserts it into the sorted prefix. */
  lemma {:induction false} SortSnoc<T>(s: seq<T>, i: nat, key: T -> int)
    requires i < |s|
    ensures SortBy(s[..i + 1], key) == InsertBy(SortBy(s[..i], key), s[i], key)
  {
    assert s[..i + 1][..i] == s[..i];
  }

  /** Splitting `input` around position `i`, behind a prefix of its own. */
  lemma SplitAfter<T>(prefix: seq<T>, input: seq<T>, i: nat)
    requires i <= |input|
    ensures i < |input| ==> prefix + input[i..] == prefix + [input[i]] + input[i + 1..]
    ensures input[..|input|] == input && prefix + input[|input|..] == prefix
  {
    if i < |input| {
      assert input[i..] == [input[i]] + input[i + 1..];
    }
    assert input[|input|..] == [];
  }

  /** An insertion sort of an array, in place, by an integer key: the result is the stable sort
      `SortBy`. */
  method InsertionSort<T>(a: array<T>, key: T -> int)
    modifies a
    ensures a[..] == SortBy(old(a[..]), key)
  {
    ghost var input := a[..];
    for i := 0 to a.Length
      invariant a[..] == SortBy(input[..i], key) + input[i..]
    {
      ghost var sorted := SortBy(input[..i], key);
      SplitAfter(sorted, input, i);
      InsertLast(a, i, key, sorted, input[i], input[i + 1..]);
      SortSnoc(input, i, key);
    }
    SplitAfter([], input, a.Length);
  }

  /** One pass of the insertion sort on an array holding `sorted`, then `x` at index `i`, then
      `rest`: shifts the elements of `sorted` with larger keys than `x` one place right and drops
      `x` into the gap. */
  method InsertLast<T>(a: array<T>, i: int, key: T -> int, ghost sorted: seq<T>, ghost x: T, ghost rest: seq<T>)
    requires |sorted| == i && a[..] == sorted + [x] + rest
    modifies a
    ensures a[..] == InsertBy(sorted, x, key) + rest
  {
    assert a[i] == x;
    assert forall k :: i < k < a.Length ==> a[k] == rest[k - i - 1];
    var y := a[i];
    var j := i;
    while j > 0 && key(a[j - 1]) > key(y)
      invariant 0 <= j <= i
      invariant forall k :: 0 <= k < j ==> a[k] == sorted[k]
      invariant forall k :: j < k <= i ==> a[k] == sorted[k - 1]
      invariant forall k :: j <= k < i ==> key(sorted[k]) > key(x)
      invariant forall k :: i < k < a.Length ==> a[k] == rest[k - i - 1]
    {
      a[j] := a[j - 1];
      j := j - 1;
    }
    a[j] := y;
    ghost var target := sorted[..j] + [x] + sorted[j..] + rest;
    forall k | 0 <= k < a.Length
      ensures a[k] == target[k]
    {
    }
    assert a[..] == target;
    InsertSplit(sorted, j, x, key);
  }

  /** `data.entries.sort(...)`: the caller's array, sorted in place by the comparator. */
  method SortForExport(a: array<TimeEntry>)
    modifies a
    ensures a[..] == SortBy(old(a[..]), RowKey)
  {
    InsertionSort(a, RowKey);
  }

  // ---------------------------------------------------------------------
  // The table rows.

  /** `entry.category`, as stored. */
  function CategoryText(c: Category): string {
    match c
    case Growth => "growth"
    case Maintenance => "maintenance"
    case Shrink => "shrink"
  }

  /** One `<tr>`: the date cell, "start - end", the activity, the category's CSS class and label,
      and the hours in tenths. */
  datatype ExportRow = ExportRow(
    date: int,
    time: string,
    activity: string,
    categoryClass: string,
    categoryLabel: string,
    hours: int)

  function RowOf(e: TimeEntry): ExportRow {
    ExportRow(e.date, e.startTime + " - " + e.endTime, e.activity, "category-" + CategoryText(e.category),
              Capitalize(CategoryText(e.category)), Tenths(e.duration))
  }

  /** The capitalised category is the name the pie chart gives the category, and the hours are
      the duration to the nearest tenth of an hour. */
  lemma RowFigures(e: TimeEntry)
    ensures RowOf(e).categoryLabel == Distribution.NameOf(e.category)
    ensures 6 * RowOf(e).hours - 3 <= e.duration < 6 * RowOf(e).hours + 3
  {
    var t := CategoryText(e.category);
    assert Capitalize(t) == [UpperChar(t[0])] + t[1..];
  }

  // ---------------------------------------------------------------------
  // The file name.

  /** `toISOString()` prints four-digit years for years 0 to 9999. */
  predicate FourDigitYear(n: int) { 0 <= CivilOf(n).year < 10000 }

  /** `toISOString().split("T")[0]`: the date as YYYY-MM-DD. */
  function IsoDate(n: int): (r: string)
    requires FourDigitYear(n)
    ensures |r| == 10 && r[4] == '-' && r[7] == '-'
    ensures AllDigits(r[..4]) && ParseNat(r[..4]) == CivilOf(n).year
    ensures AllDigits(r[5..7]) && ParseNat(r[5..7]) == CivilOf(n).month + 1
    ensures AllDigits(r[8..]) && ParseNat(r[8..]) == CivilOf(n).day
  {
    var c := CivilOf(n);
    var y, m, d := Pad4(c.year), Pad2(c.month + 1), Pad2(c.day);
    var r := y + "-" + m + "-" + d;
    assert r[..4] == y && r[5..7] == m && r[8..] == d;
    r
  }

  /** Different days print differently. */
  lemma IsoDateInjective(a: int, b: int)
    requires FourDigitYear(a) && FourDigitYear(b) && IsoDate(a) == IsoDate(b)
    ensures a == b
  {
    var ca, cb := CivilOf(a), CivilOf(b);
    assert ca == cb by {
      assert ca.year == ParseNat(IsoDate(a)[..4]) == cb.year;
      assert ca.month + 1 == ParseNat(IsoDate(a)[5..7]) == cb.month + 1;
      assert ca.day == ParseNat(IsoDate(a)[8..]) == cb.day;
    }
  }

  /** `link.download`. */
  function FileName(start: int, end: int): (r: string)
    requires FourDigitYear(start) && FourDigitYear(end)
    ensures |r| == 50
    ensures r[..21] == "time-tracking-report-" && r[31..35] == "-to-" && r[45..] == ".html"
    ensures r[21..31] == IsoDate(start) && r[35..45] == IsoDate(end)
  {
    var r := "time-tracking-report-" + IsoDate(start) + "-to-" + IsoDate(end) + ".html";
    assert r[..21] == "time-tracking-report-";
    assert r[21..31] == IsoDate(start);
    assert r[31..35] == "-to-";
    assert r[35..45] == IsoDate(end);
    assert r[45..] == ".html";
    r
  }

  /** The file name tells the window: two windows share a name only if they are the same. */
  lemma FileNameDeterminesWindow(s1: int, e1: int, s2: int, e2: int)
    requires FourDigitYear(s1) && FourDigitYear(e1) && FourDigitYear(s2) && FourDigitYear(e2)
    requires FileName(s1, e1) == FileName(s2, e2)
    ensures s1 == s2 && e1 == e2
  {
    assert IsoDate(s1) == FileName(s1, e1)[21..31] == IsoDate(s2);
    assert IsoDate(e1) == FileName(s1, e1)[35..45] == IsoDate(e2);
    IsoDateInjective(s1, s2);
    IsoDateInjective(e1, e2);
  }

  // ---------------------------------------------------------------------
  // The report.

  /** The figures of the exported file that depend on the entries and the window. */
  datatype Report = Report(rows: seq<ExportRow>, totalActivities: int, fileName: string)

  /** `exportToPDF`, short of building and downloading the HTML: sorts the caller's entries in
      place, then emits one row per entry in that order. */
  method ExportToPdf(entries: array<TimeEntry>, start: int, end: int) returns (report: Report)
    requires FourDigitYear(start) && FourDigitYear(end)
    modifies entries
    ensures entries[..] == SortBy(old(entries[..]), RowKey)
    ensures report.totalActivities == entries.Length == |report.rows|
    ensures forall i :: 0 <= i < |report.rows| ==> report.rows[i] == RowOf(entries[i])
    ensures report.fileName == FileName(start, end)
  {
    var total := entries.Length;
    SortForExport(entries);
    var rows := seq(entries.Length, i reads entries requires 0 <= i < entries.Length => RowOf(entries[i]));
    report := Report(rows, total, FileName(start, end));
  }

  /** The exported rows are the entries as given, reordered: latest date first, equal dates by
      start time, entries with equal keys in their given order. */
  lemma ExportOrder(s: seq<TimeEntry>)
    ensures multiset(SortBy(s, RowKey)) == multiset(s)
    ensures forall i, j :: 0 <= i < j < |s| ==>
      SortBy(s, RowKey)[i].date > SortBy(s, RowKey)[j].date ||
      (SortBy(s, RowKey)[i].date == SortBy(s, RowKey)[j].date && StartKey(SortBy(s, RowKey)[i]) <= StartKey(SortBy(s, RowKey)[j]))
    ensures forall k :: Filter(SortBy(s, RowKey), KeyIs(RowKey, k)) == Filter(s, KeyIs(RowKey, k))
  {
    var r := SortBy(s, RowKey);
    forall i, j | 0 <= i < j < |s|
      ensures r[i].date > r[j].date || (r[i].date == r[j].date && StartKey(r[i]) <= StartKey(r[j]))
    {
      RowKeyOrder(r[i], r[j]);
    }
    forall k
      ensures Filter(r, KeyIs(RowKey, k)) == Filter(s, KeyIs(RowKey, k))
    {
      SortByStable(s, RowKey, k);
    }
  }
}
