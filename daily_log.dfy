/** The daily log page: the selected day's entries in start-time order, their stats
    against a 24-hour day, adding a blank block, and the suggestion to reclassify
    social-media time as shrink. */
module DailyLog {
  import opened Seqs
  import opened Text
  import opened TimeEntries
  import opened Aggregates
  import CalendarView

  predicate AllWellFormed(s: seq<TimeEntry>) {
    forall i :: 0 <= i < |s| ==> WellFormed(s[i])
  }

  /** `dayEntries`: the entries of the selected date, sorted by `startTime.localeCompare`. */
  function DayEntries(s: seq<TimeEntry>, date: int): (r: seq<TimeEntry>)
    ensures multiset(r) == multiset(Filter(s, DateIs(date)))
    ensures forall i :: 0 <= i < |r| ==> r[i].date == date && r[i] in s
    ensures AllWellFormed(s) ==>
      forall i, j :: 0 <= i < j < |r| ==> LexLessEq(r[i].startTime, r[j].startTime)
    ensures AllWellFormed(s) ==>
      forall i, j :: 0 <= i < j < |r| && r[j].startTime == "" ==> r[i].startTime == ""
  {
    var day := Filter(s, DateIs(date));
    var r := SortBy(day, StartKey);
    SortedInStore(s, date, r);
    r
  }

  lemma SortedInStore(s: seq<TimeEntry>, date: int, r: seq<TimeEntry>)
    requires multiset(r) == multiset(Filter(s, DateIs(date))) && SortedBy(r, StartKey)
    ensures forall i :: 0 <= i < |r| ==> r[i].date == date && r[i] in s
    ensures AllWellFormed(s) ==>
      forall i, j :: 0 <= i < j < |r| ==> LexLessEq(r[i].startTime, r[j].startTime)
  {
    var day := Filter(s, DateIs(date));
    forall i | 0 <= i < |r|
      ensures r[i].date == date && r[i] in s
    {
      assert r[i] in multiset(day);
    }
    if AllWellFormed(s) {
      forall i, j | 0 <= i < j < |r|
        ensures LexLessEq(r[i].startTime, r[j].startTime)
      {
        LexOrderIsKeyOrder(r[i].startTime, r[j].startTime);
      }
    }
  }

  /** Entries that share a start time keep their stored order. */
  lemma DayEntriesStable(s: seq<TimeEntry>, date: int, k: int)
    ensures Filter(DayEntries(s, date), KeyIs(StartKey, k)) == Filter(Filter(s, DateIs(date)), KeyIs(StartKey, k))
  {
    SortByStable(Filter(s, DateIs(date)), StartKey, k);
  }

  /** `dayStats`: the day's totals against 24 hours. */
  function DayStats(s: seq<TimeEntry>, date: int): (r: HourStats)
    ensures r.capacity == 24
    ensures r.total == Tenths(TotalMinutes(Filter(s, DateIs(date))))
    ensures r.undocumented == Max(0, 240 - r.total)
    ensures r.growth == Tenths(CategoryMinutes(Filter(s, DateIs(date)), Growth))
    ensures r.maintenance == Tenths(CategoryMinutes(Filter(s, DateIs(date)), Maintenance))
    ensures r.shrink == Tenths(CategoryMinutes(Filter(s, DateIs(date)), Shrink))
  {
    var day := DayEntries(s, date);
    var unsorted := Filter(s, DateIs(date));
    TotalMinutesPermutation(day, unsorted);
    CategoryPermutation(day, unsorted, Growth);
    CategoryPermutation(day, unsorted, Maintenance);
    CategoryPermutation(day, unsorted, Shrink);
    Summarize(day, 24)
  }

  /** The daily log and the calendar's day view report the same stats for a date. */
  lemma DayStatsMatchCalendarDayView(s: seq<TimeEntry>, date: int)
    ensures DayStats(s, date) == CalendarView.GetStats(s, CalendarView.DayView, date)
  {
    assert CalendarView.FilteredEntries(s, CalendarView.DayView, date) == Filter(s, DateIs(date));
  }

  // ---------------------------------------------------------------------
  // The suggestion.

  /** What `handleAISuggestionAccept` looks for: "twitter" or "social media" in the activity. */
  predicate MentionsSocialMedia(e: TimeEntry) {
    var a := Lower(e.activity);
    Contains(a, "twitter") || Contains(a, "social media")
  }

  /** What `hasSuggestionCandidate` looks for: also "browsing", and not already shrink. */
  predicate IsCandidate(e: TimeEntry) {
    var a := Lower(e.activity);
    (Contains(a, "twitter") || Contains(a, "social media") || Contains(a, "browsing")) && e.category != Shrink
  }

  /** `hasSuggestionCandidate`: `dayEntries.some(...)`. */
  function HasSuggestionCandidate(s: seq<TimeEntry>, date: int): bool {
    FindFirst(DayEntries(s, date), IsCandidate).Some?
  }

  /** The suggestion is offered exactly when some entry of the day is a candidate,
      whatever order the day's entries are in. */
  lemma HasSuggestionCandidateIff(s: seq<TimeEntry>, date: int)
    ensures HasSuggestionCandidate(s, date) <==>
      exists i :: 0 <= i < |s| && s[i].date == date && IsCandidate(s[i])
  {
    var day := DayEntries(s, date);
    if i :| 0 <= i < |s| && s[i].date == date && IsCandidate(s[i]) {
      FilterKeeps(s, DateIs(date), i);
      assert s[i] in multiset(day);
      var k :| 0 <= k < |day| && day[k] == s[i];
    }
    if HasSuggestionCandidate(s, date) {
      var k := FindFirst(day, IsCandidate).value;
      var i :| 0 <= i < |s| && s[i] == day[k];
    }
  }

  /** The patch `{ category: "shrink" }`. */
  const ShrinkPatch := Patch(None, None, None, None, Some(Shrink), None)

  /** The shrink patch changes the category and nothing else, the duration included. */
  lemma ShrinkPatchOnlyRecategorises(e: TimeEntry)
    requires WellFormed(e)
    ensures Patched(e, ShrinkPatch) == e.(category := Shrink)
  {
  }

  /** The position in `dayEntries` of the entry the suggestion reclassifies, if any. */
  function SuggestionTarget(day: seq<TimeEntry>): (k: Option<nat>)
    ensures k.None? <==> forall i :: 0 <= i < |day| ==> !MentionsSocialMedia(day[i])
    ensures k.Some? ==>
      k.value < |day| && MentionsSocialMedia(day[k.value]) &&
      forall i :: 0 <= i < k.value ==> !MentionsSocialMedia(day[i])
  {
    FindFirst(day, MentionsSocialMedia)
  }

  predicate UniqueIds(s: seq<TimeEntry>) {
    forall i, j :: 0 <= i < |s| && 0 <= j < |s| && s[i].id == s[j].id ==> i == j
  }

  /** With distinct ids an update by the id of a stored entry changes that entry alone. */
  lemma UpdateOfStoredEntry(s: seq<TimeEntry>, j: nat)
    requires AllWellFormed(s) && UniqueIds(s) && j < |s|
    ensures var r := UpdateAll(s, s[j].id, ShrinkPatch);
      r[j] == s[j].(category := Shrink) && forall i :: 0 <= i < |s| && i != j ==> r[i] == s[i]
  {
    ShrinkPatchOnlyRecategorises(s[j]);
  }

  /** The daily log's state over the shared store. */
  class DailyLogPage {
    const store: TimeEntryStore
    var selectedDate: int
    var showAISuggestion: bool

    constructor(store: TimeEntryStore, today: int)
      ensures this.store == store && selectedDate == today && showAISuggestion
    {
      this.store := store;
      selectedDate := today;
      showAISuggestion := true;
    }

    /** `addTimeBlock`: a blank maintenance entry on the selected date, which lasts 0 minutes. */
    method AddTimeBlock(id: string)
      requires store.Valid()
      modifies store
      ensures store.Valid()
      ensures store.entries == old(store.entries) + [TimeEntry(id, selectedDate, "", "", "", Maintenance, 0)]
    {
      store.Add(EntryInput(selectedDate, "", "", "", Maintenance), id);
    }

    /** `updateTimeBlock`. */
    method UpdateTimeBlock(id: string, p: Patch)
      requires store.Valid() && PatchWellFormed(p)
      modifies store
      ensures store.Valid()
      ensures store.entries == UpdateAll(old(store.entries), id, p)
    {
      store.Update(id, p);
    }

    /** `deleteTimeBlock`. */
    method DeleteTimeBlock(id: string)
      requires store.Valid()
      modifies store
      ensures store.Valid()
      ensures store.entries == Deleted(old(store.entries), id)
    {
      store.Delete(id);
    }

    /** `handleAISuggestionAccept`: reclassify the first social-media entry of the day as shrink
        (through its id, so every stored entry sharing that id), then hide the suggestion. */
    method AcceptSuggestion()
      requires store.Valid()
      modifies this, store
      ensures store.Valid()
      ensures selectedDate == old(selectedDate) && !showAISuggestion
      ensures var day := DayEntries(old(store.entries), selectedDate);
        match SuggestionTarget(day)
        case None => store.entries == old(store.entries)
        case Some(k) => store.entries == UpdateAll(old(store.entries), day[k].id, ShrinkPatch)
    {
      var day := DayEntries(store.entries, selectedDate);
      var target := SuggestionTarget(day);
      if target.Some? {
        store.Update(day[target.value].id, ShrinkPatch);
      }
      showAISuggestion := false;
    }
  }

  /** With distinct ids, accepting the suggestion reclassifies at most one entry: the first of
      the day, in start-time order, that mentions social media. */
  lemma AcceptReclassifiesAtMostOne(s: seq<TimeEntry>, date: int)
    requires AllWellFormed(s) && UniqueIds(s)
    ensures var day := DayEntries(s, date);
      match SuggestionTarget(day)
      case None => true
      case Some(k) =>
        var r := UpdateAll(s, day[k].id, ShrinkPatch);
        exists j :: 0 <= j < |s| && s[j] == day[k] && r[j] == s[j].(category := Shrink) &&
          forall i :: 0 <= i < |s| && i != j ==> r[i] == s[i]
  {
    var day := DayEntries(s, date);
    var target := SuggestionTarget(day);
    if target.Some? {
      var k := target.value;
      var j :| 0 <= j < |s| && s[j] == day[k];
      UpdateOfStoredEntry(s, j);
    }
  }
}
