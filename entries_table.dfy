/** The entries table: durations printed as hours and minutes, and the column list, which
    shows the date only when the table spans more than one day. */
module EntriesTable {
  import opened Seqs
  import opened Text
  import opened CalendarView

  /** JavaScript's `%`: the remainder takes the sign of the dividend. */
  function JsRem(a: int, b: int): (r: int)
    requires b > 0
    ensures a >= 0 ==> r == a % b
    ensures a < 0 ==> -b < r <= 0
  {
    if a >= 0 then a % b else -((-a) % b)
  }

  /** `Math.floor(minutes / 60)` and `minutes % 60`. */
  function Split(minutes: int): (hm: (int, int))
    ensures minutes >= 0 ==> hm.0 >= 0 && 0 <= hm.1 < 60 && hm.0 * 60 + hm.1 == minutes
    ensures hm.0 == 0 <==> 0 <= minutes < 60
  {
    (minutes / 60, JsRem(minutes, 60))
  }

  /** `formatDuration`: "<m>m" with no whole hour, "<h>h" with no minutes left over,
      "<h>h <m>m" otherwise. */
  function FormatDuration(minutes: int): string {
    var (hours, mins) := Split(minutes);
    if hours == 0 then IntToString(mins) + "m"
    else if mins == 0 then IntToString(hours) + "h"
    else IntToString(hours) + "h " + IntToString(mins) + "m"
  }

  lemma FormatUnderAnHour(minutes: int)
    requires 0 <= minutes < 60
    ensures FormatDuration(minutes) == NatToString(minutes) + "m"
  {
  }

  lemma FormatZero()
    ensures FormatDuration(0) == "0m"
  {
  }

  lemma FormatWholeHours(minutes: int)
    requires minutes > 0 && minutes % 60 == 0
    ensures FormatDuration(minutes) == NatToString(minutes / 60) + "h"
  {
  }

  lemma FormatHoursAndMinutes(minutes: int)
    requires minutes >= 60 && minutes % 60 != 0
    ensures 1 <= minutes % 60 <= 59
    ensures FormatDuration(minutes) == NatToString(minutes / 60) + "h " + NatToString(minutes % 60) + "m"
  {
  }

  /** For a negative duration the floored hours and the truncated remainder disagree:
      -30 minutes print as "-1h -30m", which reads as -90 minutes. */
  lemma NegativeDurationMisprints()
    ensures Split(-30) == (-1, -30)
    ensures FormatDuration(-30) == "-1h -30m"
  {
    assert NatToString(1) == "1";
    assert NatToString(3) == "3";
    assert NatToString(30) == "30";
  }

  // ---------------------------------------------------------------------
  // Reading a printed duration back.

  function IsHourMark(c: char): bool { c == 'h' }

  /** Reads "<m>m", "<h>h" or "<h>h <m>m" back into minutes. */
  function ParseDuration(s: string): Option<int> {
    if |s| >= 2 && s[|s| - 1] == 'h' && AllDigits(s[..|s| - 1]) then
      Some(60 * ParseNat(s[..|s| - 1]))
    else if |s| >= 2 && s[|s| - 1] == 'm' then
      ParseMinutesPart(s[..|s| - 1])
    else None
  }

  /** What precedes the final "m": "<m>" or "<h>h <m>". */
  function ParseMinutesPart(body: string): Option<int> {
    if AllDigits(body) then Some(ParseNat(body))
    else match FindFirst(body, IsHourMark)
      case None => None
      case Some(k) =>
        if 0 < k && k + 2 < |body| && body[k + 1] == ' ' && AllDigits(body[..k]) && AllDigits(body[k + 2..]) then
          Some(60 * ParseNat(body[..k]) + ParseNat(body[k + 2..]))
        else None
  }

  lemma NoHourMark(s: string)
    requires AllDigits(s)
    ensures FindFirst(s, IsHourMark).None?
  {
    forall i | 0 <= i < |s|
      ensures !IsHourMark(s[i])
    {
      assert IsDigit(s[i]);
    }
  }

  /** Every non-negative duration prints to a string that reads back as the same minutes. */
  lemma ParseFormatDuration(minutes: int)
    requires minutes >= 0
    ensures ParseDuration(FormatDuration(minutes)) == Some(minutes)
  {
    if minutes < 60 {
      FormatUnderAnHour(minutes);
      ParseMinutesOnly(minutes);
    } else if minutes % 60 == 0 {
      FormatWholeHours(minutes);
      ParseWholeHours(minutes / 60);
    } else {
      FormatHoursAndMinutes(minutes);
      ParseHoursAndMinutes(minutes / 60, minutes % 60);
    }
  }

  lemma ParseWholeHours(h: nat)
    ensures ParseDuration(NatToString(h) + "h") == Some(60 * h)
  {
    var digits := NatToString(h);
    var s := digits + "h";
    assert s[..|s| - 1] == digits;
    ParseNatToString(h);
  }

  lemma ParseMinutesOnly(m: nat)
    ensures ParseDuration(NatToString(m) + "m") == Some(m)
  {
    var digits := NatToString(m);
    var s := digits + "m";
    assert s[..|s| - 1] == digits;
    NoHourMark(digits);
    ParseNatToString(m);
  }

  lemma ParseHoursAndMinutes(h: nat, m: nat)
    ensures ParseDuration(NatToString(h) + "h " + NatToString(m) + "m") == Some(60 * h + m)
  {
    ParseNatToString(h);
    ParseNatToString(m);
    ParseHoursThenMinutes(NatToString(h), NatToString(m), h, m);
  }

  lemma ParseHoursThenMinutes(hs: string, ms: string, h: nat, m: nat)
    requires |hs| >= 1 && |ms| >= 1 && AllDigits(hs) && AllDigits(ms) && ParseNat(hs) == h && ParseNat(ms) == m
    ensures ParseDuration(hs + "h " + ms + "m") == Some(60 * h + m)
  {
    var s := hs + "h " + ms + "m";
    var body := hs + "h " + ms;
    assert s[..|s| - 1] == body && s[|s| - 1] == 'm';
    MinutesPartOfHours(hs, ms, h, m);
  }

  lemma MinutesPartOfHours(hs: string, ms: string, h: nat, m: nat)
    requires |hs| >= 1 && |ms| >= 1 && AllDigits(hs) && AllDigits(ms) && ParseNat(hs) == h && ParseNat(ms) == m
    ensures ParseMinutesPart(hs + "h " + ms) == Some(60 * h + m)
  {
    var mark := "h ";
    var body := hs + mark + ms;
    assert body == hs + (mark + ms);
    assert body[..|hs|] == hs;
    assert body[|hs|..] == mark + ms;
    assert body[|hs| + 2..] == ms;
    MinutesPartSplit(body, |hs|, h, m);
  }

  /** A body with digits, then "h ", then digits, reads as hours and minutes. */
  lemma MinutesPartSplit(body: string, k: nat, h: nat, m: nat)
    requires 0 < k && k + 2 < |body| && body[k] == 'h' && body[k + 1] == ' '
    requires AllDigits(body[..k]) && AllDigits(body[k + 2..])
    requires ParseNat(body[..k]) == h && ParseNat(body[k + 2..]) == m
    ensures ParseMinutesPart(body) == Some(60 * h + m)
  {
    forall i | 0 <= i < k
      ensures !IsHourMark(body[i])
    {
      assert body[i] == body[..k][i];
    }
    assert !IsDigit(body[k]);
  }

  // ---------------------------------------------------------------------
  // Columns.

  datatype Column = DateColumn | StartTimeColumn | ActivityColumn | CategoryColumn | DurationColumn | ActionsColumn

  /** The table's columns; the date column leads unless the view shows a single day. */
  function Columns(view: ViewType): (r: seq<Column>)
    ensures DateColumn in r <==> view != DayView
    ensures view != DayView ==> r[0] == DateColumn
    ensures |r| >= 5 && r[|r| - 5..] == [StartTimeColumn, ActivityColumn, CategoryColumn, DurationColumn, ActionsColumn]
  {
    (if view != DayView then [DateColumn] else [])
      + [StartTimeColumn, ActivityColumn, CategoryColumn, DurationColumn, ActionsColumn]
  }
}
