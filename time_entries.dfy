/** The shared store of time entries: the record type, the duration rule and the
    provider's add, update, delete and query operations. */
module TimeEntries {
  import opened Seqs
  import opened Text

  datatype Category = Growth | Maintenance | Shrink

  /** One logged block of time. `date` is the entry's calendar day as a day number
      (see `Dates`); `duration` is in minutes. */
  datatype TimeEntry = TimeEntry(
    id: string,
    date: int,
    startTime: string,
    endTime: string,
    activity: string,
    category: Category,
    duration: int)

  /** What a caller hands to `addTimeEntry`: an entry without id and duration. */
  datatype EntryInput = EntryInput(
    date: int,
    startTime: string,
    endTime: string,
    activity: string,
    category: Category)

  /** The fields an `updateTimeEntry` call carries; `None` is a field left out of the object. */
  datatype Patch = Patch(
    date: Option<int>,
    startTime: Option<string>,
    endTime: Option<string>,
    activity: Option<string>,
    category: Option<Category>,
    duration: Option<int>)

  // ---------------------------------------------------------------------
  // Clock strings.

  /** A well-formed "HH:MM" string. */
  predicate IsClock(s: string) {
    |s| == 5 && IsDigit(s[0]) && IsDigit(s[1]) && s[2] == ':' && IsDigit(s[3]) && IsDigit(s[4])
  }

  /** A start or end time as the forms store it: empty, or "HH:MM". */
  predicate IsTimeField(s: string) { s == "" || IsClock(s) }

  predicate WellFormed(e: TimeEntry) { IsTimeField(e.startTime) && IsTimeField(e.endTime) }

  /** `hour * 60 + min` after `split(":").map(Number)`. */
  function ClockMinutes(s: string): (m: nat)
    requires IsClock(s)
    ensures m <= 99 * 60 + 99
  {
    (10 * DigitValue(s[0]) + DigitValue(s[1])) * 60 + 10 * DigitValue(s[3]) + DigitValue(s[4])
  }

  /** The "HH:MM" string of an hour and a minute below 100. */
  function ClockText(h: nat, m: nat): (s: string)
    requires h < 100 && m < 100
    ensures IsClock(s)
  {
    Pad2(h) + ":" + Pad2(m)
  }

  lemma ClockMinutesOfText(h: nat, m: nat)
    requires h < 100 && m < 100
    ensures ClockMinutes(ClockText(h, m)) == h * 60 + m
  {
    var s := ClockText(h, m);
    var hh, mm := Pad2(h), Pad2(m);
    assert s[0] == hh[0] && s[1] == hh[1] && s[3] == mm[0] && s[4] == mm[1];
    assert hh == [hh[0]] + [hh[1]];
    ParseNatSnoc([hh[0]], hh[1]);
    ParseNatSnoc([], hh[0]);
    assert mm == [mm[0]] + [mm[1]];
    ParseNatSnoc([mm[0]], mm[1]);
    ParseNatSnoc([], mm[0]);
  }

  // ---------------------------------------------------------------------
  // The duration rule.

  /** `calculateDuration`: minutes from start to end, 0 when either time is empty and
      0 (not a wrap past midnight) when the end is not after the start. */
  function CalculateDuration(startTime: string, endTime: string): (r: int)
    requires IsTimeField(startTime) && IsTimeField(endTime)
    ensures r >= 0
    ensures startTime == "" || endTime == "" ==> r == 0
    ensures startTime != "" && endTime != "" ==>
      (r == 0 <==> ClockMinutes(endTime) <= ClockMinutes(startTime))
    ensures r > 0 ==> ClockMinutes(startTime) + r == ClockMinutes(endTime)
  {
    if startTime == "" || endTime == "" then 0
    else Max(0, ClockMinutes(endTime) - ClockMinutes(startTime))
  }

  /** On clock strings built from hours and minutes the rule is the clamped difference. */
  lemma CalculateDurationOfClocks(sh: nat, sm: nat, eh: nat, em: nat)
    requires sh < 100 && sm < 100 && eh < 100 && em < 100
    ensures CalculateDuration(ClockText(sh, sm), ClockText(eh, em)) == Max(0, (eh * 60 + em) - (sh * 60 + sm))
  {
    ClockMinutesOfText(sh, sm);
    ClockMinutesOfText(eh, em);
  }

  // ---------------------------------------------------------------------
  // Ordering by start time.

  /** A number whose order is that of `localeCompare` on time fields: -1 for the empty string,
      otherwise the four digits read as one number. */
  function ClockKey(s: string): (k: int)
    requires IsTimeField(s)
    ensures s == "" <==> k == -1
    ensures -1 <= k < 10000
  {
    if s == "" then -1
    else 1000 * DigitValue(s[0]) + 100 * DigitValue(s[1]) + 10 * DigitValue(s[3]) + DigitValue(s[4])
  }

  /** The sort key of an entry's start time; stored entries always have a time field there,
      and anything else is put with the empty ones. */
  function StartKey(e: TimeEntry): int {
    if IsTimeField(e.startTime) then ClockKey(e.startTime) else -1
  }

  lemma DigitOrder(a: char, b: char)
    requires IsDigit(a) && IsDigit(b)
    ensures a < b <==> DigitValue(a) < DigitValue(b)
    ensures a == b <==> DigitValue(a) == DigitValue(b)
  {
  }

  /** Comparing two time fields as strings is comparing their keys. */
  lemma {:induction false} LexOrderIsKeyOrder(a: string, b: string)
    requires IsTimeField(a) && IsTimeField(b)
    ensures LexLessEq(a, b) <==> ClockKey(a) <= ClockKey(b)
  {
    if a != "" && b != "" {
      DigitOrder(a[0], b[0]);
      DigitOrder(a[1], b[1]);
      DigitOrder(a[3], b[3]);
      DigitOrder(a[4], b[4]);
      var a1, b1 := a[1..], b[1..];
      var a2, b2 := a1[1..], b1[1..];
      var a3, b3 := a2[1..], b2[1..];
      var a4, b4 := a3[1..], b3[1..];
      var a5, b5 := a4[1..], b4[1..];
      assert a5 == [] && LexLessEq(a5, b5);
      assert LexLessEq(a4, b4) <==> a4[0] <= b4[0];
      assert LexLessEq(a3, b3) <==> a3[0] < b3[0] || (a3[0] == b3[0] && LexLessEq(a4, b4));
      assert LexLessEq(a2, b2) <==> LexLessEq(a3, b3);
      assert LexLessEq(a1, b1) <==> a1[0] < b1[0] || (a1[0] == b1[0] && LexLessEq(a2, b2));
      assert LexLessEq(a, b) <==> a[0] < b[0] || (a[0] == b[0] && LexLessEq(a1, b1));
    }
  }

  // ---------------------------------------------------------------------
  // Updates.

  /** `{ ...entry, ...updates }`. */
  function Merge(e: TimeEntry, p: Patch): TimeEntry {
    TimeEntry(
      e.id,
      p.date.GetOr(e.date),
      p.startTime.GetOr(e.startTime),
      p.endTime.GetOr(e.endTime),
      p.activity.GetOr(e.activity),
      p.category.GetOr(e.category),
      p.duration.GetOr(e.duration))
  }

  /** `updates.startTime || updates.endTime`: the patch carries a non-empty time. */
  predicate RecomputesDuration(p: Patch) {
    (p.startTime.Some? && p.startTime.value != "") || (p.endTime.Some? && p.endTime.value != "")
  }

  predicate PatchWellFormed(p: Patch) {
    (p.startTime.Some? ==> IsTimeField(p.startTime.value)) && (p.endTime.Some? ==> IsTimeField(p.endTime.value))
  }

  /** One matching entry after `updateTimeEntry`. */
  function Patched(e: TimeEntry, p: Patch): (r: TimeEntry)
    requires WellFormed(e) && PatchWellFormed(p)
    ensures WellFormed(r)
    ensures r.id == e.id
    ensures RecomputesDuration(p) ==> r.duration == CalculateDuration(r.startTime, r.endTime)
    ensures !RecomputesDuration(p) ==> r.duration == p.duration.GetOr(e.duration)
    ensures r.(duration := 0) == Merge(e, p).(duration := 0)
  {
    var m := Merge(e, p);
    if RecomputesDuration(p) then m.(duration := CalculateDuration(m.startTime, m.endTime)) else m
  }

  /** The entry list after `updateTimeEntry(id, p)`: every entry with that id is patched. */
  function UpdateAll(s: seq<TimeEntry>, id: string, p: Patch): (r: seq<TimeEntry>)
    requires forall i :: 0 <= i < |s| ==> WellFormed(s[i])
    requires PatchWellFormed(p)
    ensures |r| == |s|
    ensures forall i :: 0 <= i < |s| ==> WellFormed(r[i]) && r[i].id == s[i].id
    ensures forall i :: 0 <= i < |s| && s[i].id != id ==> r[i] == s[i]
    ensures forall i :: 0 <= i < |s| && s[i].id == id ==> r[i] == Patched(s[i], p)
  {
    if s == [] then []
    else UpdateAll(s[..|s| - 1], id, p) + [if s[|s| - 1].id == id then Patched(s[|s| - 1], p) else s[|s| - 1]]
  }

  /** An update naming no stored id leaves the list as it was. */
  lemma UpdateUnknownId(s: seq<TimeEntry>, id: string, p: Patch)
    requires forall i :: 0 <= i < |s| ==> WellFormed(s[i])
    requires PatchWellFormed(p)
    requires forall i :: 0 <= i < |s| ==> s[i].id != id
    ensures UpdateAll(s, id, p) == s
  {
  }

  /** Patching is idempotent: the merged fields are the same and so is the recomputed duration. */
  lemma PatchedTwice(e: TimeEntry, p: Patch)
    requires WellFormed(e) && PatchWellFormed(p)
    ensures Patched(Patched(e, p), p) == Patched(e, p)
  {
  }

  /** Repeating an update changes nothing more. */
  lemma {:induction false} UpdateAllTwice(s: seq<TimeEntry>, id: string, p: Patch)
    requires forall i :: 0 <= i < |s| ==> WellFormed(s[i])
    requires PatchWellFormed(p)
    ensures UpdateAll(UpdateAll(s, id, p), id, p) == UpdateAll(s, id, p)
  {
    var r := UpdateAll(s, id, p);
    forall i | 0 <= i < |s| && s[i].id == id
      ensures Patched(r[i], p) == r[i]
    {
      PatchedTwice(s[i], p);
    }
  }

  /** A patch that empties both times without setting a duration keeps the stale duration:
      an empty string does not trigger the recomputation. */
  lemma ClearingTimesKeepsDuration(e: TimeEntry)
    requires WellFormed(e) && e.duration > 0
    ensures var p := Patch(None, Some(""), Some(""), None, None, None);
      var r := Patched(e, p);
      r.startTime == "" && r.endTime == "" && r.duration == e.duration
        && r.duration != CalculateDuration(r.startTime, r.endTime)
  {
  }

  // ---------------------------------------------------------------------
  // Deletion and queries.

  function IdIsNot(id: string): TimeEntry -> bool { (e: TimeEntry) => e.id != id }

  function DateIs(date: int): TimeEntry -> bool { (e: TimeEntry) => e.date == date }

  function DateIn(start: int, end: int): TimeEntry -> bool { (e: TimeEntry) => start <= e.date <= end }

  /** The list after `deleteTimeEntry(id)`. */
  function Deleted(s: seq<TimeEntry>, id: string): (r: seq<TimeEntry>)
    ensures forall i :: 0 <= i < |r| ==> r[i].id != id && r[i] in s
    ensures forall i :: 0 <= i < |s| && s[i].id != id ==> s[i] in r
  {
    FilterComplete(s, IdIsNot(id));
    Filter(s, IdIsNot(id))
  }

  /** Deleting from a list split in two deletes from each part, so survivors keep their order. */
  lemma DeletedAppend(a: seq<TimeEntry>, b: seq<TimeEntry>, id: string)
    ensures Deleted(a + b, id) == Deleted(a, id) + Deleted(b, id)
  {
    FilterAppend(a, b, IdIsNot(id));
  }

  /** Deleting an id that is not stored is a no-op. */
  lemma DeletedUnknownId(s: seq<TimeEntry>, id: string)
    requires forall i :: 0 <= i < |s| ==> s[i].id != id
    ensures Deleted(s, id) == s
  {
    FilterKeepsAll(s, IdIsNot(id));
  }

  /** The deleted entries and the survivors together are the original list. */
  lemma DeletedAccountsForAll(s: seq<TimeEntry>, id: string)
    ensures multiset(Deleted(s, id)) + multiset(Filter(s, Not(IdIsNot(id)))) == multiset(s)
  {
    FilterSplits(s, IdIsNot(id));
  }

  /** The entries of `s` dated `date`: every copy of each, and nothing else. */
  function OnDate(s: seq<TimeEntry>, date: int): (r: seq<TimeEntry>)
    ensures forall i :: 0 <= i < |r| ==> r[i].date == date && r[i] in s
    ensures forall x :: multiset(r)[x] == if x.date == date then multiset(s)[x] else 0
  {
    forall x
      ensures multiset(Filter(s, DateIs(date)))[x] == if x.date == date then multiset(s)[x] else 0
    {
      FilterMultiset(s, DateIs(date), x);
    }
    Filter(s, DateIs(date))
  }

  /** The entries of `s` dated from `start` to `end` inclusive: every copy of each, and nothing else. */
  function InRange(s: seq<TimeEntry>, start: int, end: int): (r: seq<TimeEntry>)
    ensures forall i :: 0 <= i < |r| ==> start <= r[i].date <= end && r[i] in s
    ensures forall x :: multiset(r)[x] == if start <= x.date <= end then multiset(s)[x] else 0
  {
    forall x
      ensures multiset(Filter(s, DateIn(start, end)))[x] == if start <= x.date <= end then multiset(s)[x] else 0
    {
      FilterMultiset(s, DateIn(start, end), x);
    }
    Filter(s, DateIn(start, end))
  }

  /** Querying a list split in two queries each part, so the result keeps the list's order. */
  lemma OnDateAppend(a: seq<TimeEntry>, b: seq<TimeEntry>, date: int)
    ensures OnDate(a + b, date) == OnDate(a, date) + OnDate(b, date)
  {
    FilterAppend(a, b, DateIs(date));
  }

  lemma InRangeAppend(a: seq<TimeEntry>, b: seq<TimeEntry>, start: int, end: int)
    ensures InRange(a + b, start, end) == InRange(a, start, end) + InRange(b, start, end)
  {
    FilterAppend(a, b, DateIn(start, end));
  }

  /** A one-day range selects the same entries as the single-date query. */
  lemma SingleDayRange(s: seq<TimeEntry>, date: int)
    ensures InRange(s, date, date) == OnDate(s, date)
  {
    FilterSameOn(s, DateIn(date, date), DateIs(date));
  }

  // ---------------------------------------------------------------------
  // The provider.

  /** The `timeEntries` state of the provider with its four operations. */
  class TimeEntryStore {
    var entries: seq<TimeEntry>

    ghost predicate Valid()
      reads this
    {
      forall i :: 0 <= i < |entries| ==> WellFormed(entries[i])
    }

    constructor()
      ensures entries == [] && Valid()
    {
      entries := [];
    }

    /** `addTimeEntry`; `id` stands for the `Date.now()` string the provider would stamp. */
    method Add(input: EntryInput, id: string)
      requires Valid() && IsTimeField(input.startTime) && IsTimeField(input.endTime)
      modifies this
      ensures Valid()
      ensures entries == old(entries) + [TimeEntry(id, input.date, input.startTime, input.endTime,
                                                  input.activity, input.category,
                                                  CalculateDuration(input.startTime, input.endTime))]
    {
      var duration := CalculateDuration(input.startTime, input.endTime);
      entries := entries + [TimeEntry(id, input.date, input.startTime, input.endTime,
                                      input.activity, input.category, duration)];
    }

    /** `updateTimeEntry`: every entry with the id is patched, the rest stay in place. */
    method Update(id: string, p: Patch)
      requires Valid() && PatchWellFormed(p)
      modifies this
      ensures Valid()
      ensures entries == UpdateAll(old(entries), id, p)
    {
      entries := UpdateAll(entries, id, p);
    }

    /** `deleteTimeEntry`: every entry with the id goes, the rest keep their order. */
    method Delete(id: string)
      requires Valid()
      modifies this
      ensures Valid()
      ensures entries == Deleted(old(entries), id)
    {
      entries := Deleted(entries, id);
    }

    /** `getEntriesForDate`: the stored entries on that date, in stored order. */
    function EntriesForDate(date: int): (r: seq<TimeEntry>)
      reads this
      ensures forall i :: 0 <= i < |r| ==> r[i].date == date && r[i] in entries
      ensures forall x :: multiset(r)[x] == if x.date == date then multiset(entries)[x] else 0
    {
      OnDate(entries, date)
    }

    /** `getEntriesForDateRange`: the stored entries dated from `start` to `end` inclusive. */
    function EntriesForDateRange(start: int, end: int): (r: seq<TimeEntry>)
      reads this
      ensures forall i :: 0 <= i < |r| ==> start <= r[i].date <= end && r[i] in entries
      ensures forall x :: multiset(r)[x] == if start <= x.date <= end then multiset(entries)[x] else 0
    {
      InRange(entries, start, end)
    }
  }

  /** The date query lists the entries of any prefix of the store before those of the rest. */
  lemma EntriesForDateInStoredOrder(st: TimeEntryStore, date: int, k: int)
    requires 0 <= k <= |st.entries|
    ensures st.EntriesForDate(date) == OnDate(st.entries[..k], date) + OnDate(st.entries[k..], date)
  {
    assert st.entries == st.entries[..k] + st.entries[k..];
    OnDateAppend(st.entries[..k], st.entries[k..], date);
  }

  lemma EntriesForDateRangeInStoredOrder(st: TimeEntryStore, start: int, end: int, k: int)
    requires 0 <= k <= |st.entries|
    ensures st.EntriesForDateRange(start, end) == InRange(st.entries[..k], start, end) + InRange(st.entries[k..], start, end)
  {
    assert st.entries == st.entries[..k] + st.entries[k..];
    InRangeAppend(st.entries[..k], st.entries[k..], start, end);
  }
}
