/** The sums every view shows: total and per-category minutes and counts, and hour
    figures rounded to one decimal, held as whole tenths of an hour. */
module Aggregates {
  import opened Seqs
  import opened TimeEntries

  /** `entries.reduce((sum, entry) => sum + entry.duration, 0)`. */
  function TotalMinutes(s: seq<TimeEntry>): int {
    if s == [] then 0 else TotalMinutes(s[..|s| - 1]) + s[|s| - 1].duration
  }

  function CategoryIs(c: Category): TimeEntry -> bool { (e: TimeEntry) => e.category == c }

  /** Minutes logged under one category. */
  function CategoryMinutes(s: seq<TimeEntry>, c: Category): int {
    TotalMinutes(Filter(s, CategoryIs(c)))
  }

  /** Entries logged under one category. */
  function CategoryCount(s: seq<TimeEntry>, c: Category): nat {
    |Filter(s, CategoryIs(c))|
  }

  lemma {:induction false} TotalMinutesAppend(a: seq<TimeEntry>, b: seq<TimeEntry>)
    ensures TotalMinutes(a + b) == TotalMinutes(a) + TotalMinutes(b)
    decreases |b|
  {
    if b == [] {
      assert a + b == a;
    } else {
      assert (a + b)[..|a + b| - 1] == a + b[..|b| - 1];
      TotalMinutesAppend(a, b[..|b| - 1]);
    }
  }

  /** Minutes under `c` after one more entry. */
  lemma CategoryMinutesSnoc(s: seq<TimeEntry>, e: TimeEntry, c: Category)
    ensures CategoryMinutes(s + [e], c) == CategoryMinutes(s, c) + if e.category == c then e.duration else 0
  {
    FilterSnoc(s, e, CategoryIs(c));
    var kept := if e.category == c then [e] else [];
    TotalMinutesAppend(Filter(s, CategoryIs(c)), kept);
    assert TotalMinutes(kept) == if e.category == c then e.duration else 0 by {
      if kept != [] {
        assert kept[..0] == [];
      }
    }
  }

  /** Every entry has exactly one of the three categories, so their minutes add up to the total. */
  lemma {:induction false} CategoryMinutesPartition(s: seq<TimeEntry>)
    ensures CategoryMinutes(s, Growth) + CategoryMinutes(s, Maintenance) + CategoryMinutes(s, Shrink)
         == TotalMinutes(s)
  {
    if s != [] {
      var init, last := s[..|s| - 1], s[|s| - 1];
      assert s == init + [last];
      CategoryMinutesPartition(init);
      CategoryMinutesSnoc(init, last, Growth);
      CategoryMinutesSnoc(init, last, Maintenance);
      CategoryMinutesSnoc(init, last, Shrink);
    }
  }

  /** ... and their entry counts add up to the number of entries. */
  lemma {:induction false} CategoryCountPartition(s: seq<TimeEntry>)
    ensures CategoryCount(s, Growth) + CategoryCount(s, Maintenance) + CategoryCount(s, Shrink) == |s|
  {
    if s != [] {
      CategoryCountPartition(s[..|s| - 1]);
    }
  }

  /** With non-negative durations the total is non-negative. */
  lemma {:induction false} TotalMinutesNonNegative(s: seq<TimeEntry>)
    requires forall i :: 0 <= i < |s| ==> s[i].duration >= 0
    ensures TotalMinutes(s) >= 0
  {
    if s != [] {
      TotalMinutesNonNegative(s[..|s| - 1]);
    }
  }

  /** The total does not depend on the order of the entries. */
  lemma {:induction false} TotalMinutesPermutation(a: seq<TimeEntry>, b: seq<TimeEntry>)
    requires multiset(a) == multiset(b)
    ensures TotalMinutes(a) == TotalMinutes(b)
    decreases |a|
  {
    if a == [] {
      assert |b| == |multiset(b)| == 0;
    } else {
      var init, x := a[..|a| - 1], a[|a| - 1];
      var j := RemoveOne(a, b);
      var front, back := b[..j], b[j + 1..];
      TotalMinutesPermutation(init, front + back);
      TotalMinutesAppend(front, back);
      TotalMinutesAppend(front + [x], back);
      TotalMinutesAppend(front, [x]);
      assert b == front + [x] + back;
    }
  }

  /** Where the last element of `a` sits in its permutation `b`, and what is left around it. */
  lemma RemoveOne(a: seq<TimeEntry>, b: seq<TimeEntry>) returns (j: nat)
    requires a != [] && multiset(a) == multiset(b)
    ensures j < |b| && b[j] == a[|a| - 1]
    ensures multiset(a[..|a| - 1]) == multiset(b[..j] + b[j + 1..])
  {
    var init, x := a[..|a| - 1], a[|a| - 1];
    assert a == init + [x];
    assert x in multiset(b);
    j :| 0 <= j < |b| && b[j] == x;
    var front, back := b[..j], b[j + 1..];
    assert b == front + [x] + back;
    assert multiset(init) == multiset(a) - multiset{x};
    assert multiset(front + back) == multiset(b) - multiset{x};
  }

  /** ... and neither do the per-category sums and counts. */
  lemma CategoryPermutation(a: seq<TimeEntry>, b: seq<TimeEntry>, c: Category)
    requires multiset(a) == multiset(b)
    ensures CategoryMinutes(a, c) == CategoryMinutes(b, c)
    ensures CategoryCount(a, c) == CategoryCount(b, c)
  {
    FilterPermutation(a, b, CategoryIs(c));
    TotalMinutesPermutation(Filter(a, CategoryIs(c)), Filter(b, CategoryIs(c)));
    assert |multiset(Filter(a, CategoryIs(c)))| == |multiset(Filter(b, CategoryIs(c)))|;
  }

  // ---------------------------------------------------------------------
  // Hours to one decimal.

  /** `Math.round((minutes / 60) * 10)`: the nearest whole number of tenths of an hour
      (six minutes each), halves rounded up. */
  function Tenths(minutes: int): (t: int)
    ensures 6 * t - 3 <= minutes < 6 * t + 3
  {
    (minutes + 3) / 6
  }

  lemma TenthsMonotone(a: int, b: int)
    requires a <= b
    ensures Tenths(a) <= Tenths(b)
  {
  }

  /** Rounding the sum of three amounts is within one tenth of summing the three rounded amounts. */
  lemma TenthsOfSum(a: int, b: int, c: int)
    ensures -1 <= Tenths(a + b + c) - (Tenths(a) + Tenths(b) + Tenths(c)) <= 1
  {
  }

  /** Three minutes each round up to a tenth, yet six minutes together are one tenth, not two. */
  lemma RoundedPartsExceedTotal()
    ensures Tenths(3) + Tenths(3) == 2 && Tenths(3 + 3) == 1
  {
  }

  /** `Math.max(0, capacity - totalHours)` in tenths: the hours of the window no entry covers. */
  function Undocumented(totalTenths: int, capacityHours: int): (u: int)
    ensures u >= 0
    ensures u == 0 <==> totalTenths >= 10 * capacityHours
    ensures u > 0 ==> u + totalTenths == 10 * capacityHours
  {
    Max(0, 10 * capacityHours - totalTenths)
  }

  /** The hour figures a stats card shows, in tenths; `capacity` is whole hours. */
  datatype HourStats = HourStats(
    total: int,
    undocumented: int,
    capacity: int,
    growth: int,
    maintenance: int,
    shrink: int)

  /** `getStats` and `dayStats`: totals over `s` against a window of `capacity` hours. */
  function Summarize(s: seq<TimeEntry>, capacity: int): (r: HourStats)
    ensures r.capacity == capacity
    ensures r.total == Tenths(TotalMinutes(s))
    ensures r.growth == Tenths(CategoryMinutes(s, Growth))
    ensures r.maintenance == Tenths(CategoryMinutes(s, Maintenance))
    ensures r.shrink == Tenths(CategoryMinutes(s, Shrink))
    ensures r.undocumented == Undocumented(r.total, capacity)
    ensures r.undocumented >= 0 && r.total + r.undocumented >= 10 * capacity
    ensures -1 <= r.total - (r.growth + r.maintenance + r.shrink) <= 1
  {
    var g, m, sh := CategoryMinutes(s, Growth), CategoryMinutes(s, Maintenance), CategoryMinutes(s, Shrink);
    CategoryMinutesPartition(s);
    TenthsOfSum(g, m, sh);
    var total := Tenths(TotalMinutes(s));
    HourStats(total, Undocumented(total, capacity), capacity, Tenths(g), Tenths(m), Tenths(sh))
  }

  /** The stats depend only on which entries there are, not on their order. */
  lemma SummarizePermutation(a: seq<TimeEntry>, b: seq<TimeEntry>, capacity: int)
    requires multiset(a) == multiset(b)
    ensures Summarize(a, capacity) == Summarize(b, capacity)
  {
    TotalMinutesPermutation(a, b);
    CategoryPermutation(a, b, Growth);
    CategoryPermutation(a, b, Maintenance);
    CategoryPermutation(a, b, Shrink);
  }
}
