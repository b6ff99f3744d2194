/** Calendar arithmetic on whole days, standing in for JavaScript `Date` in local time.
    A day number counts days from 0001-01-01 of the proleptic Gregorian calendar (day 0,
    a Monday). Months are 0-based, as `getMonth()` returns them. */
module Dates {

  /** A calendar date: `getFullYear()`, `getMonth()` (0 to 11) and `getDate()`. */
  datatype Civil = Civil(year: int, month: int, day: int)

  predicate IsLeapYear(y: int) { y % 4 == 0 && (y % 100 != 0 || y % 400 == 0) }

  function DaysInYear(y: int): int { if IsLeapYear(y) then 366 else 365 }

  function DaysInMonth(y: int, m: int): (n: int)
    requires 0 <= m < 12
    ensures 28 <= n <= 31
  {
    if m == 1 then (if IsLeapYear(y) then 29 else 28)
    else if m == 3 || m == 5 || m == 8 || m == 10 then 30
    else 31
  }

  predicate ValidCivil(c: Civil) {
    0 <= c.month < 12 && 1 <= c.day <= DaysInMonth(c.year, c.month)
  }

  /** Days from 0001-01-01 to January 1st of year `y` (negative before year 1). */
  function DaysBeforeYear(y: int): int
    decreases if y >= 1 then y - 1 else 1 - y
  {
    if y == 1 then 0
    else if y > 1 then DaysBeforeYear(y - 1) + DaysInYear(y - 1)
    else DaysBeforeYear(y + 1) - DaysInYear(y)
  }

  /** Days from January 1st to the first day of month `m` of year `y` (`m == 12`: the whole year). */
  function DaysBeforeMonth(y: int, m: int): (r: int)
    requires 0 <= m <= 12
    ensures 28 * m <= r <= 31 * m
  {
    if m == 0 then 0 else DaysBeforeMonth(y, m - 1) + DaysInMonth(y, m - 1)
  }

  /** `new Date(y, m, d)`: month and day may lie outside their ranges and roll over. */
  function MakeDay(y: int, m: int, d: int): int {
    var year := y + m / 12;
    DaysBeforeYear(year) + DaysBeforeMonth(year, m % 12) + d - 1
  }

  function DayNumber(c: Civil): int {
    MakeDay(c.year, c.month, c.day)
  }

  /** `getDay()`: 0 for Sunday through 6 for Saturday. */
  function Weekday(n: int): (w: int)
    ensures 0 <= w < 7
  {
    (n + 1) % 7
  }

  // ---------------------------------------------------------------------
  // Year and month lengths.

  lemma DaysBeforeNextYear(y: int)
    ensures DaysBeforeYear(y + 1) == DaysBeforeYear(y) + DaysInYear(y)
  {
  }

  /** The closed form: 365 days a year plus the leap days of the years before. */
  lemma {:induction false} DaysBeforeYearClosed(y: int)
    requires y >= 1
    ensures DaysBeforeYear(y) == 365 * (y - 1) + (y - 1) / 4 - (y - 1) / 100 + (y - 1) / 400
    decreases y
  {
    if y > 1 {
      DaysBeforeYearClosed(y - 1);
      var p := y - 1;
      assert p / 4 - (p - 1) / 4 == if p % 4 == 0 then 1 else 0;
      assert p / 100 - (p - 1) / 100 == if p % 100 == 0 then 1 else 0;
      assert p / 400 - (p - 1) / 400 == if p % 400 == 0 then 1 else 0;
      if p % 400 == 0 {
        var q := p / 400;
        assert p == 100 * (4 * q);
      }
      if p % 100 == 0 {
        var q := p / 100;
        assert p == 4 * (25 * q);
      }
    }
  }

  lemma DaysBeforeYearGrows(a: int, b: int)
    requires a <= b
    ensures DaysBeforeYear(a) + 365 * (b - a) <= DaysBeforeYear(b)
    decreases b - a
  {
    if a < b {
      DaysBeforeYearGrows(a, b - 1);
      DaysBeforeNextYear(b - 1);
    }
  }

  lemma DaysBeforeNextMonth(y: int, m: int)
    requires 0 <= m < 12
    ensures DaysBeforeMonth(y, m + 1) == DaysBeforeMonth(y, m) + DaysInMonth(y, m)
  {
  }

  lemma DaysBeforeMonthGrows(y: int, a: int, b: int)
    requires 0 <= a <= b <= 12
    ensures DaysBeforeMonth(y, a) + 28 * (b - a) <= DaysBeforeMonth(y, b)
    decreases b - a
  {
    if a < b {
      DaysBeforeMonthGrows(y, a, b - 1);
      DaysBeforeNextMonth(y, b - 1);
    }
  }

  lemma MonthsMakeYear(y: int)
    ensures DaysBeforeMonth(y, 12) == DaysInYear(y)
  {
    var leap := if IsLeapYear(y) then 1 else 0;
    assert DaysBeforeMonth(y, 1) == 31;
    assert DaysBeforeMonth(y, 2) == 59 + leap;
    assert DaysBeforeMonth(y, 3) == 90 + leap;
    assert DaysBeforeMonth(y, 4) == 120 + leap;
    assert DaysBeforeMonth(y, 5) == 151 + leap;
    assert DaysBeforeMonth(y, 6) == 181 + leap;
    assert DaysBeforeMonth(y, 7) == 212 + leap;
    assert DaysBeforeMonth(y, 8) == 243 + leap;
    assert DaysBeforeMonth(y, 9) == 273 + leap;
    assert DaysBeforeMonth(y, 10) == 304 + leap;
    assert DaysBeforeMonth(y, 11) == 334 + leap;
  }

  /** With the month in range, `MakeDay` counts from the start of year `y`. */
  lemma MakeDayInYear(y: int, m: int, d: int)
    requires 0 <= m < 12
    ensures MakeDay(y, m, d) == DaysBeforeYear(y) + DaysBeforeMonth(y, m) + d - 1
  {
    assert m / 12 == 0 && m % 12 == m;
  }

  /** A valid date's day number, month and day counted from the start of its year. */
  lemma DayNumberOfValid(c: Civil)
    requires ValidCivil(c)
    ensures DayNumber(c) == DaysBeforeYear(c.year) + DaysBeforeMonth(c.year, c.month) + c.day - 1
  {
    MakeDayInYear(c.year, c.month, c.day);
  }

  // ---------------------------------------------------------------------
  // From a day number back to the calendar date.

  function YearDistance(n: int, y: int): nat {
    if n < DaysBeforeYear(y) then DaysBeforeYear(y) - n
    else if n >= DaysBeforeYear(y + 1) then n - DaysBeforeYear(y + 1) + 1
    else 0
  }

  /** The year holding day `n`, searched for from the guess `y`. */
  function FindYear(n: int, y: int): (r: int)
    ensures DaysBeforeYear(r) <= n < DaysBeforeYear(r + 1)
    decreases YearDistance(n, y)
  {
    DaysBeforeNextYear(y - 1);
    DaysBeforeNextYear(y);
    DaysBeforeNextYear(y + 1);
    if n < DaysBeforeYear(y) then FindYear(n, y - 1)
    else if n >= DaysBeforeYear(y + 1) then FindYear(n, y + 1)
    else y
  }

  /** The month of year `y` holding day `r` of that year, searched downwards from `m`. */
  function FindMonth(y: int, r: int, m: int): (res: int)
    requires 0 <= m < 12 && 0 <= r < DaysBeforeMonth(y, m + 1)
    ensures 0 <= res <= m && DaysBeforeMonth(y, res) <= r < DaysBeforeMonth(y, res + 1)
    decreases m
  {
    if DaysBeforeMonth(y, m) <= r then m else FindMonth(y, r, m - 1)
  }

  /** Every day number is the day number of some valid date, found by searching for its
      year and then its month. */
  lemma CivilExists(n: int)
    ensures exists c :: ValidCivil(c) && DayNumber(c) == n
  {
    var y := FindYear(n, 1);
    var r := n - DaysBeforeYear(y);
    DaysBeforeNextYear(y);
    MonthsMakeYear(y);
    var m := FindMonth(y, r, 11);
    var c := Civil(y, m, r - DaysBeforeMonth(y, m) + 1);
    DaysBeforeNextMonth(y, m);
    assert ValidCivil(c);
    DayNumberOfValid(c);
  }

  /** The calendar date of day `n`: `getFullYear()`, `getMonth()`, `getDate()`. There is
      exactly one (see `DayNumberInjective`). */
  function CivilOf(n: int): (c: Civil)
    ensures ValidCivil(c) && DayNumber(c) == n
  {
    CivilExists(n);
    CivilUnique(n);
    var c: Civil :| ValidCivil(c) && DayNumber(c) == n;
    c
  }

  /** A valid date lies inside its own year and month. */
  lemma DayNumberBounds(c: Civil)
    requires ValidCivil(c)
    ensures DaysBeforeYear(c.year) <= DayNumber(c) < DaysBeforeYear(c.year + 1)
    ensures DaysBeforeMonth(c.year, c.month) <= DayNumber(c) - DaysBeforeYear(c.year) < DaysBeforeMonth(c.year, c.month + 1)
  {
    DayNumberOfValid(c);
    DaysBeforeNextYear(c.year);
    MonthsMakeYear(c.year);
    DaysBeforeNextMonth(c.year, c.month);
    DaysBeforeMonthGrows(c.year, c.month + 1, 12);
  }

  /** Years do not overlap: a day lies in only one of them. */
  lemma YearUnique(n: int, y1: int, y2: int)
    requires DaysBeforeYear(y1) <= n < DaysBeforeYear(y1 + 1)
    requires DaysBeforeYear(y2) <= n < DaysBeforeYear(y2 + 1)
    ensures y1 == y2
  {
    if y1 < y2 {
      DaysBeforeYearGrows(y1 + 1, y2);
    } else if y2 < y1 {
      DaysBeforeYearGrows(y2 + 1, y1);
    }
  }

  /** Months of one year do not overlap either. */
  lemma MonthUnique(y: int, r: int, m1: int, m2: int)
    requires 0 <= m1 < 12 && 0 <= m2 < 12
    requires DaysBeforeMonth(y, m1) <= r < DaysBeforeMonth(y, m1 + 1)
    requires DaysBeforeMonth(y, m2) <= r < DaysBeforeMonth(y, m2 + 1)
    ensures m1 == m2
  {
    if m1 < m2 {
      DaysBeforeMonthGrows(y, m1 + 1, m2);
    } else if m2 < m1 {
      DaysBeforeMonthGrows(y, m2 + 1, m1);
    }
  }

  /** Distinct valid dates have distinct day numbers. */
  lemma {:induction false} DayNumberInjective(c1: Civil, c2: Civil)
    requires ValidCivil(c1) && ValidCivil(c2) && DayNumber(c1) == DayNumber(c2)
    ensures c1 == c2
  {
    var n := DayNumber(c1);
    DayNumberBounds(c1);
    DayNumberBounds(c2);
    YearUnique(n, c1.year, c2.year);
    MonthUnique(c1.year, n - DaysBeforeYear(c1.year), c1.month, c2.month);
    DayNumberOfValid(c1);
    DayNumberOfValid(c2);
  }

  /** So a day number determines its date. */
  lemma CivilUnique(n: int)
    ensures forall c1, c2 :: ValidCivil(c1) && DayNumber(c1) == n && ValidCivil(c2) && DayNumber(c2) == n ==> c1 == c2
  {
    forall c1, c2 | ValidCivil(c1) && DayNumber(c1) == n && ValidCivil(c2) && DayNumber(c2) == n
      ensures c1 == c2
    {
      DayNumberInjective(c1, c2);
    }
  }

  /** Round trip: a valid date survives conversion to a day number and back. */
  lemma CivilOfDayNumber(c: Civil)
    requires ValidCivil(c)
    ensures CivilOf(DayNumber(c)) == c
  {
    DayNumberInjective(CivilOf(DayNumber(c)), c);
  }

  // ---------------------------------------------------------------------
  // The `Date` idioms the application uses.

  lemma NextMonthIndex(m: int)
    ensures (m + 1) / 12 == m / 12 + (if m % 12 == 11 then 1 else 0)
    ensures (m + 1) % 12 == if m % 12 == 11 then 0 else m % 12 + 1
  {
  }

  /** The first of month `m + 1` follows the last day of month `m`, across year ends too. */
  lemma {:induction false} NextMonthStart(y: int, m: int)
    ensures MakeDay(y, m + 1, 1) == MakeDay(y, m, 1) + DaysInMonth(y + m / 12, m % 12)
  {
    NextMonthIndex(m);
    var year := y + m / 12;
    if m % 12 == 11 {
      DaysBeforeNextYear(year);
      MonthsMakeYear(year);
    }
  }

  /** `new Date(y, m, 1)` is the first of that month. */
  lemma FirstOfMonth(y: int, m: int)
    requires 0 <= m < 12
    ensures CivilOf(MakeDay(y, m, 1)) == Civil(y, m, 1)
  {
    CivilOfDayNumber(Civil(y, m, 1));
  }

  lemma LastOfMonthNumber(y: int, m: int)
    requires 0 <= m < 12
    ensures MakeDay(y, m + 1, 0) == MakeDay(y, m, 1) + DaysInMonth(y, m) - 1
  {
    MakeDayInYear(y, m, 1);
    DaysBeforeNextMonth(y, m);
    if m == 11 {
      MakeDayNormal(y, 12, 0);
      MakeDayInYear(y + 1, 0, 0);
      DaysBeforeNextYear(y);
      MonthsMakeYear(y);
    } else {
      MakeDayInYear(y, m + 1, 0);
    }
  }

  /** `new Date(y, m + 1, 0)` is the last day of month `m`, so its `getDate()` is the month's length. */
  lemma {:induction false} LastOfMonth(y: int, m: int)
    requires 0 <= m < 12
    ensures MakeDay(y, m + 1, 0) == MakeDay(y, m, 1) + DaysInMonth(y, m) - 1
    ensures CivilOf(MakeDay(y, m + 1, 0)) == Civil(y, m, DaysInMonth(y, m))
  {
    LastOfMonthNumber(y, m);
    var c := Civil(y, m, DaysInMonth(y, m));
    DayNumberOfValid(c);
    DayNumberOfValid(Civil(y, m, 1));
    var n := MakeDay(y, m + 1, 0);
    assert DayNumber(c) == n;
    CivilOfDayNumber(c);
    assert CivilOf(n) == c;
  }

  /** Day `n` lies in month `m` of year `y` exactly when it lies between that month's first and last day. */
  lemma {:induction false} InMonthIff(n: int, y: int, m: int)
    requires 0 <= m < 12
    ensures (MakeDay(y, m, 1) <= n <= MakeDay(y, m + 1, 0))
        <==> (CivilOf(n).year == y && CivilOf(n).month == m)
  {
    LastOfMonth(y, m);
    var first := MakeDay(y, m, 1);
    if first <= n <= MakeDay(y, m + 1, 0) {
      var c := Civil(y, m, n - first + 1);
      assert DayNumber(c) == n;
      CivilOfDayNumber(c);
    }
    var c := CivilOf(n);
    if c.year == y && c.month == m {
      assert n == first + c.day - 1;
    }
  }

  /** Rolling the month over into the year first gives the same day. */
  lemma MakeDayNormal(y: int, m: int, d: int)
    ensures MakeDay(y, m, d) == MakeDay(y + m / 12, m % 12, d)
  {
    var r := m % 12;
    assert r / 12 == 0 && r % 12 == r;
  }

  /** `setMonth(getMonth() + k)`: same day of the month `k` months later, rolling over
      into the following month when that month is too short. */
  function AddMonths(n: int, k: int): int {
    var c := CivilOf(n);
    MakeDay(c.year, c.month + k, c.day)
  }

  /** The same day of the month `k` months after the date `c`. */
  function MonthShift(c: Civil, k: int): Civil {
    Civil(c.year + (c.month + k) / 12, (c.month + k) % 12, c.day)
  }

  /** When the day of the month exists `k` months later, `AddMonths` lands on it. */
  lemma {:induction false} AddMonthsKeepsDay(n: int, k: int)
    requires ValidCivil(MonthShift(CivilOf(n), k))
    ensures CivilOf(AddMonths(n, k)) == MonthShift(CivilOf(n), k)
  {
    var c := CivilOf(n);
    var y, m, d := c.year, c.month + k, c.day;
    var later := AddMonths(n, k);
    assert later == MakeDay(y, m, d);
    assert MonthShift(c, k) == Civil(y + m / 12, m % 12, d);
    CivilOfMakeDay(y, m, d);
  }

  /** `new Date(y, m, d)` for a day `d` that exists in the month `m` rolls over to. */
  lemma CivilOfMakeDay(y: int, m: int, d: int)
    requires ValidCivil(Civil(y + m / 12, m % 12, d))
    ensures CivilOf(MakeDay(y, m, d)) == Civil(y + m / 12, m % 12, d)
  {
    MakeDayNormal(y, m, d);
    CivilOfDayNumber(Civil(y + m / 12, m % 12, d));
  }

  /** `setDate(getDate() + k)`: `k` days later (earlier for negative `k`), across month ends. */
  function SetDate(n: int, k: int): (r: int)
    ensures r == n + k
  {
    var c := CivilOf(n);
    MakeDay(c.year, c.month, c.day + k)
  }

  /** The same day number of the following month is later. */
  lemma {:induction false} MonthLater(y: int, m: int, d: int)
    ensures MakeDay(y, m + 1, d) > MakeDay(y, m, d)
  {
    NextMonthStart(y, m);
    assert MakeDay(y, m + 1, d) == MakeDay(y, m + 1, 1) + d - 1;
    assert MakeDay(y, m, d) == MakeDay(y, m, 1) + d - 1;
  }

  /** Moving a month forward lands strictly later, and a month back strictly earlier. */
  lemma {:induction false} AddMonthsMoves(n: int)
    ensures AddMonths(n, 1) > n
    ensures AddMonths(n, -1) < n
  {
    var c := CivilOf(n);
    assert n == MakeDay(c.year, c.month, c.day);
    MonthLater(c.year, c.month, c.day);
    MonthLater(c.year, c.month - 1, c.day);
    assert c.month - 1 + 1 == c.month;
  }
}
