/** The "most common activities" card: entries grouped by their activity text, ignoring case and
    surrounding blanks, then the ten groups with the most time, each with its hours and its
    average session length. The grouping is stated for any key function `key`; the card's is
    `KeyOf`. */
module CommonActivities {
  import opened Seqs
  import opened Text
  import opened TimeEntries
  import opened Aggregates

  /** The card's grouping key: `activity.toLowerCase().trim()`. */
  function KeyOf(e: TimeEntry): string { Trim(Lower(e.activity)) }

  function HasKey(key: TimeEntry -> string, k: string): TimeEntry -> bool { e => key(e) == k }

  /** One accumulator record: the activity text and category of the entry that opened it, then
      the minutes and sessions added so far. */
  datatype Group = Group(activity: string, category: Category, totalMinutes: int, count: nat)

  /** `activityStats`: the keys in the order they were first added (the order `Object.values`
      lists them in) and the record under each key. */
  datatype ActivityStats = ActivityStats(order: seq<string>, groups: map<string, Group>)

  lemma SameGroup(a: Group, b: Group)
    requires a.activity == b.activity && a.category == b.category
    requires a.totalMinutes == b.totalMinutes && a.count == b.count
    ensures a == b
  {
  }

  // ---------------------------------------------------------------------
  // What each record should hold, independently of the fold.

  /** The record key `k` should have after reading `s`: opened by the first entry with that key,
      summing all of them; none when no entry has the key. */
  function GroupOf(s: seq<TimeEntry>, key: TimeEntry -> string, k: string): Option<Group> {
    match FindFirst(s, HasKey(key, k))
    case None => None
    case Some(f) =>
      var mine := Filter(s, HasKey(key, k));
      Some(Group(s[f].activity, s[f].category, TotalMinutes(mine), |mine|))
  }

  /** The position of the first entry with key `k`, or `|s|` when there is none. */
  function FirstIndex(s: seq<TimeEntry>, key: TimeEntry -> string, k: string): nat {
    match FindFirst(s, HasKey(key, k))
    case None => |s|
    case Some(f) => f
  }

  function Lookup(m: map<string, Group>, k: string): Option<Group> {
    if k in m then Some(m[k]) else None
  }

  /** The accumulator after reading `s`: every key of `s` has exactly the record `GroupOf` says,
      there are no other keys, and the keys are listed in order of their first entry. */
  ghost predicate Describes(s: seq<TimeEntry>, key: TimeEntry -> string, st: ActivityStats) {
    (forall k :: k in st.groups <==> k in st.order) &&
    (forall k :: Lookup(st.groups, k) == GroupOf(s, key, k)) &&
    (forall t, u :: 0 <= t < u < |st.order| ==> FirstIndex(s, key, st.order[t]) < FirstIndex(s, key, st.order[u]))
  }

  // ---------------------------------------------------------------------
  // The reduce.

  /** The reducer applied to one entry: open a record for a new key, then add the entry to it. */
  function Step(st: ActivityStats, key: TimeEntry -> string, e: TimeEntry): ActivityStats {
    var k := key(e);
    var order := if k in st.groups then st.order else st.order + [k];
    var g := if k in st.groups then st.groups[k] else Group(e.activity, e.category, 0, 0);
    ActivityStats(order, st.groups[k := g.(totalMinutes := g.totalMinutes + e.duration, count := g.count + 1)])
  }

  /** `entries.reduce(...)` from an empty record. */
  function Grouping(s: seq<TimeEntry>, key: TimeEntry -> string): ActivityStats {
    if s == [] then ActivityStats([], map[]) else Step(Grouping(s[..|s| - 1], key), key, s[|s| - 1])
  }

  /** The card's grouping: `GroupBy` under the card's key. */
  method GroupActivities(entries: seq<TimeEntry>) returns (stats: ActivityStats)
    ensures stats == Grouping(entries, KeyOf)
    ensures Describes(entries, KeyOf, stats)
  {
    stats := GroupBy(entries, KeyOf);
  }

  /** The grouping loop, filling the dictionary in place; the key function is a parameter. */
  method GroupBy(entries: seq<TimeEntry>, key: TimeEntry -> string) returns (stats: ActivityStats)
    ensures stats == Grouping(entries, key)
    ensures Describes(entries, key, stats)
  {
    var order: seq<string> := [];
    var groups: map<string, Group> := map[];
    for i := 0 to |entries|
      invariant ActivityStats(order, groups) == Grouping(entries[..i], key)
    {
      var e := entries[i];
      var k := key(e);
      ghost var before := ActivityStats(order, groups);
      if k !in groups {
        groups := groups[k := Group(e.activity, e.category, 0, 0)];
        order := order + [k];
      }
      groups := groups[k := groups[k].(totalMinutes := groups[k].totalMinutes + e.duration,
                                       count := groups[k].count + 1)];
      StepIs(before, key, e, order, groups);
      GroupingSnoc(entries, key, i);
    }
    assert entries[..|entries|] == entries;
    stats := ActivityStats(order, groups);
    GroupingDescribes(entries, key);
  }

  /** One more entry is one more reducer step. */
  lemma GroupingSnoc(s: seq<TimeEntry>, key: TimeEntry -> string, i: nat)
    requires i < |s|
    ensures Grouping(s[..i + 1], key) == Step(Grouping(s[..i], key), key, s[i])
  {
    assert s[..i + 1][..i] == s[..i];
  }

  /** The loop body's two updates make up one reducer step. */
  lemma StepIs(before: ActivityStats, key: TimeEntry -> string, e: TimeEntry, order: seq<string>, groups: map<string, Group>)
    requires order == if key(e) in before.groups then before.order else before.order + [key(e)]
    requires var g := if key(e) in before.groups then before.groups[key(e)] else Group(e.activity, e.category, 0, 0);
      groups == before.groups[key(e) := g.(totalMinutes := g.totalMinutes + e.duration, count := g.count + 1)]
    ensures ActivityStats(order, groups) == Step(before, key, e)
  {
  }

  /** Each listed key of an accumulator that describes `s` belongs to an entry of `s`. */
  lemma KnownKeysOccur(s: seq<TimeEntry>, key: TimeEntry -> string, st: ActivityStats, k: string)
    requires Describes(s, key, st) && k in st.order
    ensures FindFirst(s, HasKey(key, k)).Some? && FirstIndex(s, key, k) < |s|
  {
    assert Lookup(st.groups, k) == GroupOf(s, key, k);
  }

  /** One reducer step keeps the accumulator describing the entries read. */
  lemma StepDescribes(s: seq<TimeEntry>, key: TimeEntry -> string, st: ActivityStats, e: TimeEntry)
    requires Describes(s, key, st)
    ensures Describes(s + [e], key, Step(st, key, e))
  {
    StepKeys(st, key, e);
    StepRecords(s, key, st, e);
    StepOrder(s, key, st, e);
  }

  lemma StepKeys(st: ActivityStats, key: TimeEntry -> string, e: TimeEntry)
    requires forall k :: k in st.groups <==> k in st.order
    ensures forall k :: k in Step(st, key, e).groups <==> k in Step(st, key, e).order
  {
  }

  lemma StepRecords(s: seq<TimeEntry>, key: TimeEntry -> string, st: ActivityStats, e: TimeEntry)
    requires forall k :: Lookup(st.groups, k) == GroupOf(s, key, k)
    ensures forall k :: Lookup(Step(st, key, e).groups, k) == GroupOf(s + [e], key, k)
  {
    forall k
      ensures Lookup(Step(st, key, e).groups, k) == GroupOf(s + [e], key, k)
    {
      StepRecord(s, key, st, e, k);
    }
  }

  lemma StepOrder(s: seq<TimeEntry>, key: TimeEntry -> string, st: ActivityStats, e: TimeEntry)
    requires Describes(s, key, st)
    ensures var o := Step(st, key, e).order;
      forall t, u :: 0 <= t < u < |o| ==> FirstIndex(s + [e], key, o[t]) < FirstIndex(s + [e], key, o[u])
  {
    var ke := key(e);
    forall t | 0 <= t < |st.order|
      ensures FirstIndex(s, key, st.order[t]) < |s|
    {
      KnownKeysOccur(s, key, st, st.order[t]);
    }
    if ke !in st.groups {
      assert Lookup(st.groups, ke) == GroupOf(s, key, ke);
      assert FindFirst(s, HasKey(key, ke)).None?;
      assert FirstIndex(s, key, ke) == |s|;
    }
    OrderAfterSnoc(s, key, st.order, e, Step(st, key, e).order);
  }

  /** Keys already listed keep their first positions; a key new with `e` comes after all of them. */
  lemma OrderAfterSnoc(s: seq<TimeEntry>, key: TimeEntry -> string, order: seq<string>, e: TimeEntry, o: seq<string>)
    requires forall t, u :: 0 <= t < u < |order| ==> FirstIndex(s, key, order[t]) < FirstIndex(s, key, order[u])
    requires forall t :: 0 <= t < |order| ==> FirstIndex(s, key, order[t]) < |s|
    requires o == order || (o == order + [key(e)] && FirstIndex(s, key, key(e)) == |s|)
    ensures forall t, u :: 0 <= t < u < |o| ==> FirstIndex(s + [e], key, o[t]) < FirstIndex(s + [e], key, o[u])
  {
    forall t | 0 <= t < |o|
      ensures FirstIndex(s + [e], key, o[t]) == if t < |order| then FirstIndex(s, key, order[t]) else |s|
    {
      FirstAfterSnoc(s, key, e, o[t]);
    }
  }

  /** The record of one key after a step. */
  lemma StepRecord(s: seq<TimeEntry>, key: TimeEntry -> string, st: ActivityStats, e: TimeEntry, k: string)
    requires Lookup(st.groups, k) == GroupOf(s, key, k)
    ensures Lookup(Step(st, key, e).groups, k) == GroupOf(s + [e], key, k)
  {
    if k != key(e) {
      StepOtherKey(s, key, st, e, k);
    } else if k in st.groups {
      StepKnownKey(s, key, st, e);
    } else {
      StepNewKey(s, key, st, e);
    }
  }

  /** Where the first entry of key `k` is once `e` is appended. */
  lemma FirstAfterSnoc(s: seq<TimeEntry>, key: TimeEntry -> string, e: TimeEntry, k: string)
    ensures FindFirst(s + [e], HasKey(key, k)) ==
      if FindFirst(s, HasKey(key, k)).Some? then FindFirst(s, HasKey(key, k))
      else if key(e) == k then Some(|s|) else None
  {
    FindFirstSnoc(s, e, HasKey(key, k));
  }

  /** The entries of key `k` once `e` is appended, and their minutes. */
  lemma MineAfterSnoc(s: seq<TimeEntry>, key: TimeEntry -> string, e: TimeEntry, k: string)
    ensures Filter(s + [e], HasKey(key, k)) == Filter(s, HasKey(key, k)) + if key(e) == k then [e] else []
    ensures TotalMinutes(Filter(s + [e], HasKey(key, k))) ==
      TotalMinutes(Filter(s, HasKey(key, k))) + if key(e) == k then e.duration else 0
  {
    FilterSnoc(s, e, HasKey(key, k));
    var tail := if key(e) == k then [e] else [];
    TotalMinutesAppend(Filter(s, HasKey(key, k)), tail);
    assert TotalMinutes(tail) == if key(e) == k then e.duration else 0 by {
      assert [e][..0] == [];
    }
  }

  lemma StepOtherKey(s: seq<TimeEntry>, key: TimeEntry -> string, st: ActivityStats, e: TimeEntry, k: string)
    requires Lookup(st.groups, k) == GroupOf(s, key, k) && k != key(e)
    ensures Lookup(Step(st, key, e).groups, k) == GroupOf(s + [e], key, k)
  {
    FirstAfterSnoc(s, key, e, k);
    MineAfterSnoc(s, key, e, k);
    var r := FindFirst(s, HasKey(key, k));
    if r.Some? {
      assert (s + [e])[r.value] == s[r.value];
    }
  }

  lemma StepKnownKey(s: seq<TimeEntry>, key: TimeEntry -> string, st: ActivityStats, e: TimeEntry)
    requires key(e) in st.groups && Lookup(st.groups, key(e)) == GroupOf(s, key, key(e))
    ensures Lookup(Step(st, key, e).groups, key(e)) == GroupOf(s + [e], key, key(e))
  {
    var k := key(e);
    var f := FindFirst(s, HasKey(key, k)).value;
    var g := st.groups[k];
    GroupOfAt(s, key, k, f);
    GroupOfSnocKnown(s, key, e, k, f);
    var h := GroupOf(s + [e], key, k).value;
    SameGroup(h, Group(g.activity, g.category, g.totalMinutes + e.duration, g.count + 1));
    StepAddsTo(st, key, e, g);
  }

  /** A step adds the entry to the record of its key. */
  lemma StepAddsTo(st: ActivityStats, key: TimeEntry -> string, e: TimeEntry, g: Group)
    requires key(e) in st.groups && st.groups[key(e)] == g
    ensures Lookup(Step(st, key, e).groups, key(e)) ==
      Some(Group(g.activity, g.category, g.totalMinutes + e.duration, g.count + 1))
  {
  }

  /** Appending an entry of a key already present adds it to that key's record. */
  lemma GroupOfSnocKnown(s: seq<TimeEntry>, key: TimeEntry -> string, e: TimeEntry, k: string, f: nat)
    requires key(e) == k && FindFirst(s, HasKey(key, k)) == Some(f)
    ensures f < |s| && GroupOf(s + [e], key, k).Some?
    ensures GroupOf(s + [e], key, k).value.activity == s[f].activity
    ensures GroupOf(s + [e], key, k).value.category == s[f].category
    ensures GroupOf(s + [e], key, k).value.totalMinutes == TotalMinutes(Filter(s, HasKey(key, k))) + e.duration
    ensures GroupOf(s + [e], key, k).value.count == |Filter(s, HasKey(key, k))| + 1
  {
    var s' := s + [e];
    FirstAfterSnoc(s, key, e, k);
    GroupOfAt(s', key, k, f);
    MineAfterSnoc(s, key, e, k);
    assert s'[f] == s[f];
  }

  lemma GroupOfAt(s: seq<TimeEntry>, key: TimeEntry -> string, k: string, f: nat)
    requires FindFirst(s, HasKey(key, k)) == Some(f)
    ensures f < |s|
    ensures GroupOf(s, key, k) ==
      Some(Group(s[f].activity, s[f].category, TotalMinutes(Filter(s, HasKey(key, k))), |Filter(s, HasKey(key, k))|))
  {
  }

  lemma StepNewKey(s: seq<TimeEntry>, key: TimeEntry -> string, st: ActivityStats, e: TimeEntry)
    requires key(e) !in st.groups && Lookup(st.groups, key(e)) == GroupOf(s, key, key(e))
    ensures Lookup(Step(st, key, e).groups, key(e)) == GroupOf(s + [e], key, key(e))
  {
    var k := key(e);
    FirstAfterSnoc(s, key, e, k);
    MineAfterSnoc(s, key, e, k);
    FilterNone(s, HasKey(key, k));
    assert (s + [e])[|s|] == e;
  }

  /** The reduce computes the records `GroupOf` describes. */
  lemma {:induction false} GroupingDescribes(s: seq<TimeEntry>, key: TimeEntry -> string)
    ensures Describes(s, key, Grouping(s, key))
  {
    if s != [] {
      var init := s[..|s| - 1];
      GroupingDescribes(init, key);
      assert s == init + [s[|s| - 1]];
      StepDescribes(init, key, Grouping(init, key), s[|s| - 1]);
    }
  }

  // ---------------------------------------------------------------------
  // The reduce as written, on a plain object.

  /** The lower-cased keys a fresh `{}` already answers with a truthy inherited member:
      `acc["constructor"]` is `Object` and `acc["__proto__"]` is `Object.prototype`. */
  predicate Inherited(k: string) { k == "constructor" || k == "__proto__" }

  function KeyNotInherited(key: TimeEntry -> string): TimeEntry -> bool { e => !Inherited(key(e)) }

  /** The reducer as written: for an inherited key `!acc[key]` is false, so no record is opened,
      and the additions go to the inherited member, which `Object.values` does not list. */
  function StepAsWritten(st: ActivityStats, key: TimeEntry -> string, e: TimeEntry): ActivityStats {
    if Inherited(key(e)) then st else Step(st, key, e)
  }

  function GroupingAsWritten(s: seq<TimeEntry>, key: TimeEntry -> string): ActivityStats {
    if s == [] then ActivityStats([], map[])
    else StepAsWritten(GroupingAsWritten(s[..|s| - 1], key), key, s[|s| - 1])
  }

  /** As written, the reduce groups exactly the entries whose key is not inherited. */
  lemma {:induction false} GroupingAsWrittenSkips(s: seq<TimeEntry>, key: TimeEntry -> string)
    ensures GroupingAsWritten(s, key) == Grouping(Filter(s, KeyNotInherited(key)), key)
  {
    if s != [] {
      var init, last := s[..|s| - 1], s[|s| - 1];
      GroupingAsWrittenSkips(init, key);
      var kept := Filter(init, KeyNotInherited(key));
      assert GroupingAsWritten(s, key) == StepAsWritten(Grouping(kept, key), key, last);
      if Inherited(key(last)) {
        assert Filter(s, KeyNotInherited(key)) == kept;
      } else {
        assert Filter(s, KeyNotInherited(key)) == kept + [last];
        assert (kept + [last])[..|kept|] == kept;
        assert Grouping(kept + [last], key) == Step(Grouping(kept, key), key, last);
      }
    }
  }

  /** An activity typed "constructor" has that key: as written its entry lands in no record and
      the card shows no row, where the intended grouping opens a record holding it. */
  lemma ConstructorActivityIsLost()
    ensures var e := TimeEntry("1", 0, "", "", "constructor", Growth, 30);
      KeyOf(e) == "constructor" &&
      GroupingAsWritten([e], KeyOf) == ActivityStats([], map[]) &&
      Grouping([e], KeyOf) == ActivityStats(["constructor"], map["constructor" := Group("constructor", Growth, 30, 1)])
  {
    var e := TimeEntry("1", 0, "", "", "constructor", Growth, 30);
    KeyOfConstructor(e);
    InheritedEntryIsLost(e, KeyOf);
  }

  lemma KeyOfConstructor(e: TimeEntry)
    requires e.activity == "constructor"
    ensures KeyOf(e) == "constructor"
  {
    var a := e.activity;
    assert forall i :: 0 <= i < |a| ==> 'a' <= a[i] <= 'z';
    UnchangedKey(a);
  }

  /** A key already in lower case, with no blank at either end, is its own key. */
  lemma UnchangedKey(a: string)
    requires a != [] && forall i :: 0 <= i < |a| ==> 'a' <= a[i] <= 'z'
    ensures Trim(Lower(a)) == a
  {
    assert Lower(a) == a by {
      forall i | 0 <= i < |a|
        ensures LowerChar(a[i]) == a[i]
      {
      }
    }
    assert !IsSpace(a[0]) && !IsSpace(a[|a| - 1]);
    NoBlankEnds(a);
  }

  /** A single entry with an inherited key: no record as written, a record of its own when
      grouped. */
  lemma InheritedEntryIsLost(e: TimeEntry, key: TimeEntry -> string)
    requires Inherited(key(e))
    ensures GroupingAsWritten([e], key) == ActivityStats([], map[])
    ensures Grouping([e], key) == ActivityStats([key(e)], map[key(e) := Group(e.activity, e.category, e.duration, 1)])
  {
    assert [e][..0] == [];
  }

  // ---------------------------------------------------------------------
  // The records as a list, and their sums.

  /** `Object.values(activityStats)`. */
  function Values(st: ActivityStats): (r: seq<Group>)
    requires forall k :: k in st.order ==> k in st.groups
    ensures |r| == |st.order| && forall i :: 0 <= i < |r| ==> r[i] == st.groups[st.order[i]]
  {
    seq(|st.order|, i requires 0 <= i < |st.order| => st.groups[st.order[i]])
  }

  function SumCounts(gs: seq<Group>): int {
    if gs == [] then 0 else SumCounts(gs[..|gs| - 1]) + gs[|gs| - 1].count
  }

  function SumMinutes(gs: seq<Group>): int {
    if gs == [] then 0 else SumMinutes(gs[..|gs| - 1]) + gs[|gs| - 1].totalMinutes
  }

  lemma {:induction false} SumsUpdate(gs: seq<Group>, j: nat, g: Group)
    requires j < |gs|
    ensures SumCounts(gs[j := g]) == SumCounts(gs) - gs[j].count + g.count
    ensures SumMinutes(gs[j := g]) == SumMinutes(gs) - gs[j].totalMinutes + g.totalMinutes
  {
    var n := |gs| - 1;
    if j < n {
      assert gs[j := g][..n] == gs[..n][j := g];
      SumsUpdate(gs[..n], j, g);
    } else {
      assert gs[j := g][..n] == gs[..n];
    }
  }

  /** The listed keys are exactly the keys holding a record, each listed once. */
  ghost predicate KeysListed(st: ActivityStats) {
    (forall k :: k in st.groups <==> k in st.order) &&
    (forall t, u :: 0 <= t < u < |st.order| ==> st.order[t] != st.order[u])
  }

  /** One reducer step adds one to the counts and the entry's minutes to the minutes. */
  lemma StepSums(st: ActivityStats, key: TimeEntry -> string, e: TimeEntry)
    requires KeysListed(st)
    ensures KeysListed(Step(st, key, e))
    ensures SumCounts(Values(Step(st, key, e))) == SumCounts(Values(st)) + 1
    ensures SumMinutes(Values(Step(st, key, e))) == SumMinutes(Values(st)) + e.duration
  {
    if key(e) in st.groups {
      StepSumsKnown(st, key, e);
    } else {
      StepSumsNew(st, key, e);
    }
  }

  lemma StepSumsKnown(st: ActivityStats, key: TimeEntry -> string, e: TimeEntry)
    requires KeysListed(st) && key(e) in st.groups
    ensures KeysListed(Step(st, key, e))
    ensures SumCounts(Values(Step(st, key, e))) == SumCounts(Values(st)) + 1
    ensures SumMinutes(Values(Step(st, key, e))) == SumMinutes(Values(st)) + e.duration
  {
    var st' := Step(st, key, e);
    var k := key(e);
    var vs, vs' := Values(st), Values(st');
    var j :| 0 <= j < |st.order| && st.order[j] == k;
    assert forall i :: 0 <= i < |vs| && i != j ==> st.order[i] != k;
    assert vs' == vs[j := st'.groups[k]];
    SumsUpdate(vs, j, st'.groups[k]);
  }

  lemma StepSumsNew(st: ActivityStats, key: TimeEntry -> string, e: TimeEntry)
    requires KeysListed(st) && key(e) !in st.groups
    ensures KeysListed(Step(st, key, e))
    ensures SumCounts(Values(Step(st, key, e))) == SumCounts(Values(st)) + 1
    ensures SumMinutes(Values(Step(st, key, e))) == SumMinutes(Values(st)) + e.duration
  {
    var st' := Step(st, key, e);
    var k := key(e);
    var vs, vs' := Values(st), Values(st');
    assert vs' == vs + [st'.groups[k]];
    assert (vs + [st'.groups[k]])[..|vs|] == vs;
  }

  /** Every entry is counted in exactly one record: the counts add up to the number of entries
      and the minutes to the total. */
  lemma {:induction false} GroupingSums(s: seq<TimeEntry>, key: TimeEntry -> string)
    ensures KeysListed(Grouping(s, key))
    ensures SumCounts(Values(Grouping(s, key))) == |s|
    ensures SumMinutes(Values(Grouping(s, key))) == TotalMinutes(s)
  {
    if s != [] {
      GroupingSums(s[..|s| - 1], key);
      StepSums(Grouping(s[..|s| - 1], key), key, s[|s| - 1]);
    }
  }

  // ---------------------------------------------------------------------
  // The ranking.

  /** The sort key: larger totals first. */
  function NegTotal(g: Group): int { -g.totalMinutes }

  /** `.sort((a, b) => b.totalMinutes - a.totalMinutes).slice(0, 10)`. */
  function Ranked(gs: seq<Group>): seq<Group> {
    var sorted := SortBy(gs, NegTotal);
    sorted[..Min(10, |sorted|)]
  }

  /** The ranking keeps the ten largest totals, largest first; everything left out has no more
      minutes than anything shown. */
  lemma RankedTopTen(gs: seq<Group>)
    ensures |Ranked(gs)| == Min(10, |gs|)
    ensures forall i, j :: 0 <= i < j < |Ranked(gs)| ==> Ranked(gs)[i].totalMinutes >= Ranked(gs)[j].totalMinutes
    ensures multiset(Ranked(gs)) <= multiset(gs)
    ensures forall g :: g in multiset(gs) - multiset(Ranked(gs)) ==>
      forall i :: 0 <= i < |Ranked(gs)| ==> g.totalMinutes <= Ranked(gs)[i].totalMinutes
  {
    var sorted := SortBy(gs, NegTotal);
    TopOfSorted(gs, sorted, Min(10, |sorted|));
  }

  /** The size and order of a ranking, for callers that need no more. */
  lemma RankedOrdered(gs: seq<Group>, r: seq<Group>)
    requires r == Ranked(gs)
    ensures |r| == Min(10, |gs|)
    ensures forall i, j :: 0 <= i < j < |r| ==> r[i].totalMinutes >= r[j].totalMinutes
  {
    RankedTopTen(gs);
  }

  /** Each ranked record is one of the records ranked. */
  lemma RankedSource(gs: seq<Group>, i: nat) returns (j: nat)
    requires i < |Ranked(gs)|
    ensures j < |gs| && gs[j] == Ranked(gs)[i]
  {
    RankedTopTen(gs);
    assert Ranked(gs)[i] in multiset(Ranked(gs));
    j :| 0 <= j < |gs| && gs[j] == Ranked(gs)[i];
  }

  lemma TopOfSorted(gs: seq<Group>, sorted: seq<Group>, n: nat)
    requires n <= |sorted| && SortedBy(sorted, NegTotal) && multiset(sorted) == multiset(gs)
    ensures forall i, j :: 0 <= i < j < n ==> sorted[i].totalMinutes >= sorted[j].totalMinutes
    ensures multiset(sorted[..n]) <= multiset(gs)
    ensures forall g :: g in multiset(gs) - multiset(sorted[..n]) ==>
      forall i :: 0 <= i < n ==> g.totalMinutes <= sorted[i].totalMinutes
  {
    assert sorted == sorted[..n] + sorted[n..];
    assert multiset(gs) == multiset(sorted[..n]) + multiset(sorted[n..]);
    forall g | g in multiset(gs) - multiset(sorted[..n])
      ensures forall i :: 0 <= i < n ==> g.totalMinutes <= sorted[i].totalMinutes
    {
      assert g in multiset(sorted[n..]);
      var j :| 0 <= j < |sorted| - n && sorted[n..][j] == g;
      assert sorted[n + j] == g;
    }
  }

  /** Groups with equal totals (equal sort key `k`) keep their first-seen order. */
  lemma RankingKeepsTiesInOrder(gs: seq<Group>, k: int)
    ensures Filter(SortBy(gs, NegTotal), KeyIs(NegTotal, k)) == Filter(gs, KeyIs(NegTotal, k))
  {
    SortByStable(gs, NegTotal, k);
  }

  // ---------------------------------------------------------------------
  // The rows.

  datatype ActivityRow = ActivityRow(
    activity: string,
    category: Category,
    totalMinutes: int,
    count: nat,
    hours: int,
    avgMinutes: int)

  /** `Math.round(a / b)` for a positive count: the nearest integer, halves rounded up. */
  function RoundDiv(a: int, b: int): (r: int)
    requires b >= 1
    ensures 2 * b * r - b <= 2 * a < 2 * b * r + b
  {
    var q := (2 * a + b) / (2 * b);
    assert (2 * b) * q <= 2 * a + b < (2 * b) * q + 2 * b;
    q
  }

  /** One row: the record's figures, its hours in tenths and its average session rounded to the
      nearest minute. */
  function Row(g: Group): (r: ActivityRow)
    requires g.count >= 1
    ensures r.activity == g.activity && r.category == g.category && r.count == g.count
    ensures r.totalMinutes == g.totalMinutes && r.hours == Tenths(g.totalMinutes)
    ensures 2 * g.count * r.avgMinutes - g.count <= 2 * g.totalMinutes < 2 * g.count * r.avgMinutes + g.count
  {
    ActivityRow(g.activity, g.category, g.totalMinutes, g.count, Tenths(g.totalMinutes),
                RoundDiv(g.totalMinutes, g.count))
  }

  /** Every record of the reduce holds at least one entry. */
  lemma {:induction false} GroupsHoldEntries(s: seq<TimeEntry>, key: TimeEntry -> string)
    ensures forall k :: k in Grouping(s, key).groups ==> Grouping(s, key).groups[k].count >= 1
  {
    if s != [] {
      GroupsHoldEntries(s[..|s| - 1], key);
    }
  }

  /** Hence so does every value listed, and every ranked value. */
  lemma {:induction false} RankedHoldEntries(s: seq<TimeEntry>, key: TimeEntry -> string, r: seq<Group>)
    requires KeysListed(Grouping(s, key)) && r == Ranked(Values(Grouping(s, key)))
    ensures forall i :: 0 <= i < |r| ==> r[i].count >= 1
  {
    GroupsHoldEntries(s, key);
    var st := Grouping(s, key);
    forall i | 0 <= i < |r|
      ensures r[i].count >= 1
    {
      var j := RankedSource(Values(st), i);
      assert st.order[j] in st.groups;
    }
  }

  /** With non-negative durations every ranked record has non-negative minutes. */
  lemma {:induction false} RankedNonNegative(s: seq<TimeEntry>, key: TimeEntry -> string, r: seq<Group>)
    requires forall i :: 0 <= i < |s| ==> s[i].duration >= 0
    requires KeysListed(Grouping(s, key)) && r == Ranked(Values(Grouping(s, key)))
    ensures forall i :: 0 <= i < |r| ==> r[i].totalMinutes >= 0
  {
    GroupsNonNegative(s, key);
    var st := Grouping(s, key);
    forall i | 0 <= i < |r|
      ensures r[i].totalMinutes >= 0
    {
      var j := RankedSource(Values(st), i);
      assert st.order[j] in st.groups;
    }
  }

  /** With non-negative durations every record has non-negative minutes. */
  lemma {:induction false} GroupsNonNegative(s: seq<TimeEntry>, key: TimeEntry -> string)
    requires forall i :: 0 <= i < |s| ==> s[i].duration >= 0
    ensures forall k :: k in Grouping(s, key).groups ==> Grouping(s, key).groups[k].totalMinutes >= 0
  {
    if s != [] {
      GroupsNonNegative(s[..|s| - 1], key);
    }
  }

  /** `topActivities` under grouping key `key`: the ranked records as rows with hours to one
      decimal and the average session length. */
  function TopRows(s: seq<TimeEntry>, key: TimeEntry -> string): (r: seq<ActivityRow>)
    ensures |r| <= 10
    ensures forall i, j :: 0 <= i < j < |r| ==> r[i].totalMinutes >= r[j].totalMinutes && r[i].hours >= r[j].hours
    ensures forall i :: 0 <= i < |r| ==> r[i].count >= 1
  {
    GroupingSums(s, key);
    var ranked := Ranked(Values(Grouping(s, key)));
    RankedHoldEntries(s, key, ranked);
    RankedOrdered(Values(Grouping(s, key)), ranked);
    var rows := RowsOf(ranked);
    RowsOrdered(ranked, rows);
    rows
  }

  /** The rows of ranked records, one each. */
  function RowsOf(ranked: seq<Group>): (r: seq<ActivityRow>)
    requires forall i :: 0 <= i < |ranked| ==> ranked[i].count >= 1
    ensures |r| == |ranked| && forall i :: 0 <= i < |r| ==> r[i] == Row(ranked[i])
  {
    seq(|ranked|, i requires 0 <= i < |ranked| => Row(ranked[i]))
  }

  /** The distinct keys of the entries. */
  function KeysOf(s: seq<TimeEntry>, key: TimeEntry -> string): set<string> {
    set i | 0 <= i < |s| :: key(s[i])
  }

  /** `row` is the row of record `g`. */
  predicate Shows(row: ActivityRow, g: Option<Group>) {
    g.Some? && g.value.count >= 1 && row == Row(g.value)
  }

  /** A key has a record exactly when some entry carries it. */
  lemma KeysOfIff(s: seq<TimeEntry>, key: TimeEntry -> string, k: string)
    ensures k in KeysOf(s, key) <==> GroupOf(s, key, k).Some?
  {
    if k in KeysOf(s, key) {
      var i :| 0 <= i < |s| && key(s[i]) == k;
      assert HasKey(key, k)(s[i]);
    }
  }

  /** The keys the reduce lists are the distinct keys of the entries, each once. */
  lemma OrderListsKeys(s: seq<TimeEntry>, key: TimeEntry -> string)
    ensures (set k | k in Grouping(s, key).order) == KeysOf(s, key)
    ensures |Grouping(s, key).order| == |KeysOf(s, key)|
  {
    var st := Grouping(s, key);
    GroupingDescribes(s, key);
    GroupingSums(s, key);
    forall k
      ensures k in st.order <==> k in KeysOf(s, key)
    {
      KeysOfIff(s, key, k);
      assert Lookup(st.groups, k) == GroupOf(s, key, k);
    }
    DistinctCard(st.order);
  }

  /** `topActivities` row by row: the rows belong to distinct keys of the entries, as many as
      there are keys up to ten, each showing the record `GroupOf` gives its key; and every key
      left out has no more minutes than any row shown. */
  lemma TopRowsKeys(s: seq<TimeEntry>, key: TimeEntry -> string) returns (ks: seq<string>)
    ensures |ks| == |TopRows(s, key)| == Min(10, |KeysOf(s, key)|)
    ensures forall i :: 0 <= i < |ks| ==> ks[i] in KeysOf(s, key) && Shows(TopRows(s, key)[i], GroupOf(s, key, ks[i]))
    ensures forall i, j :: 0 <= i < j < |ks| ==> ks[i] != ks[j]
    ensures forall k :: k in KeysOf(s, key) && k !in ks ==> (GroupOf(s, key, k).Some? &&
      forall i :: 0 <= i < |ks| ==> GroupOf(s, key, k).value.totalMinutes <= TopRows(s, key)[i].totalMinutes)
  {
    var st := Grouping(s, key);
    GroupingSums(s, key);
    var gs := Values(st);
    ks := TopKeys(s, key, st, gs, SortBy(gs, NegTotal), Min(10, |gs|), TopRows(s, key));
  }

  lemma TopKeys(s: seq<TimeEntry>, key: TimeEntry -> string, st: ActivityStats, gs: seq<Group>,
                sorted: seq<Group>, n: nat, rows: seq<ActivityRow>) returns (ks: seq<string>)
    requires st == Grouping(s, key) && KeysListed(st) && gs == Values(st)
    requires sorted == SortBy(gs, NegTotal) && n == Min(10, |gs|) && rows == TopRows(s, key)
    ensures |ks| == |rows| == Min(10, |KeysOf(s, key)|)
    ensures forall i :: 0 <= i < |ks| ==> ks[i] in KeysOf(s, key) && Shows(rows[i], GroupOf(s, key, ks[i]))
    ensures forall i, j :: 0 <= i < j < |ks| ==> ks[i] != ks[j]
    ensures forall k :: k in KeysOf(s, key) && k !in ks ==> (GroupOf(s, key, k).Some? &&
      forall i :: 0 <= i < |ks| ==> GroupOf(s, key, k).value.totalMinutes <= rows[i].totalMinutes)
  {
    GroupsHoldEntries(s, key);
    OrderListsKeys(s, key);
    ks := MatchedRows(st, gs, sorted, n);
    TopRowsUnfold(s, key, st, gs, sorted, n, rows);
    RowsMatched(st, sorted, ks, rows);
    DescribedRecords(s, key, st);
    KeyedRows(s, key, st, ks, rows);
  }

  /** The records of an accumulator that describes `s` are the ones `GroupOf` gives, and its
      listed keys are the keys of `s`. */
  lemma DescribedRecords(s: seq<TimeEntry>, key: TimeEntry -> string, st: ActivityStats)
    requires st == Grouping(s, key) && (set k | k in st.order) == KeysOf(s, key)
    ensures forall k :: k in st.groups ==> GroupOf(s, key, k) == Some(st.groups[k])
    ensures forall k :: k in st.order <==> k in KeysOf(s, key)
  {
    GroupingDescribes(s, key);
    forall k | k in st.groups
      ensures GroupOf(s, key, k) == Some(st.groups[k])
    {
      assert Lookup(st.groups, k) == GroupOf(s, key, k);
    }
    forall k
      ensures k in st.order <==> k in KeysOf(s, key)
    {
      assert k in st.order <==> k in (set k | k in st.order);
    }
  }

  /** The matched rows restated over the keys of `s` and the records `GroupOf` gives them. */
  lemma KeyedRows(s: seq<TimeEntry>, key: TimeEntry -> string, st: ActivityStats, ks: seq<string>, rows: seq<ActivityRow>)
    requires KeysListed(st)
    requires forall k :: k in st.groups ==> GroupOf(s, key, k) == Some(st.groups[k])
    requires forall k :: k in st.order <==> k in KeysOf(s, key)
    requires |st.order| == |KeysOf(s, key)| && |ks| == Min(10, |st.order|) == |rows|
    requires forall i :: 0 <= i < |ks| ==> ks[i] in st.groups && st.groups[ks[i]].count >= 1 && rows[i] == Row(st.groups[ks[i]])
    requires forall k :: k in st.groups && k !in ks ==>
      forall i :: 0 <= i < |ks| ==> st.groups[k].totalMinutes <= rows[i].totalMinutes
    ensures |ks| == |rows| == Min(10, |KeysOf(s, key)|)
    ensures forall i :: 0 <= i < |ks| ==> ks[i] in KeysOf(s, key) && Shows(rows[i], GroupOf(s, key, ks[i]))
    ensures forall k :: k in KeysOf(s, key) && k !in ks ==> (GroupOf(s, key, k).Some? &&
      forall i :: 0 <= i < |ks| ==> GroupOf(s, key, k).value.totalMinutes <= rows[i].totalMinutes)
  {
  }

  lemma TopRowsUnfold(s: seq<TimeEntry>, key: TimeEntry -> string, st: ActivityStats, gs: seq<Group>,
                      sorted: seq<Group>, n: nat, rows: seq<ActivityRow>)
    requires st == Grouping(s, key) && KeysListed(st) && gs == Values(st)
    requires sorted == SortBy(gs, NegTotal) && n == Min(10, |gs|)
    requires forall i :: 0 <= i < n ==> sorted[i].count >= 1
    requires rows == TopRows(s, key)
    ensures rows == RowsOf(sorted[..n])
  {
  }

  /** The keys of the first `n` sorted records, matched back to their positions in `Values(st)`:
      the keys are distinct, key `i` holds sorted record `i`, and every listed key not among
      them has no more minutes than any of those records. */
  lemma MatchedRows(st: ActivityStats, gs: seq<Group>, sorted: seq<Group>, n: nat) returns (ks: seq<string>)
    requires KeysListed(st) && forall k :: k in st.groups ==> st.groups[k].count >= 1
    requires gs == Values(st) && sorted == SortBy(gs, NegTotal) && n <= |sorted|
    ensures |ks| == n
    ensures forall i :: 0 <= i < n ==> ks[i] in st.groups && st.groups[ks[i]] == sorted[i] && sorted[i].count >= 1
    ensures forall i, j :: 0 <= i < j < n ==> ks[i] != ks[j]
    ensures forall k :: k in st.groups && k !in ks ==>
      forall i :: 0 <= i < n ==> st.groups[k].totalMinutes <= sorted[i].totalMinutes
  {
    var idx, inv := PermutationIndices(sorted, gs);
    ks := seq(n, i requires 0 <= i < n => st.order[idx[i]]);
    MatchedKeysHold(st, gs, sorted, n, idx, inv, ks);
    LeftOutBelow(st, gs, sorted, n, idx, inv, ks);
  }

  lemma LeftOutBelow(st: ActivityStats, gs: seq<Group>, sorted: seq<Group>, n: nat,
                     idx: seq<nat>, inv: seq<nat>, ks: seq<string>)
    requires KeysListed(st)
    requires gs == Values(st) && SortedBy(sorted, NegTotal) && n <= |sorted|
    requires |idx| == |sorted| == |gs| == |inv|
    requires forall i :: 0 <= i < |sorted| ==> idx[i] < |gs| && gs[idx[i]] == sorted[i] && inv[idx[i]] == i
    requires forall u :: 0 <= u < |gs| ==> inv[u] < |sorted| && idx[inv[u]] == u
    requires |ks| == n && forall i :: 0 <= i < n ==> ks[i] == st.order[idx[i]]
    ensures forall k :: k in st.groups && k !in ks ==>
      forall i :: 0 <= i < n ==> st.groups[k].totalMinutes <= sorted[i].totalMinutes
  {
    forall k | k in st.groups && k !in ks
      ensures forall i :: 0 <= i < n ==> st.groups[k].totalMinutes <= sorted[i].totalMinutes
    {
      var t :| 0 <= t < |st.order| && st.order[t] == k;
      LeftOutRanksLower(st, gs, sorted, n, idx, inv, ks, t);
    }
  }

  lemma MatchedKeysHold(st: ActivityStats, gs: seq<Group>, sorted: seq<Group>, n: nat,
                        idx: seq<nat>, inv: seq<nat>, ks: seq<string>)
    requires KeysListed(st) && forall k :: k in st.groups ==> st.groups[k].count >= 1
    requires gs == Values(st) && n <= |sorted|
    requires |idx| == |sorted| == |gs| == |inv|
    requires forall i :: 0 <= i < |sorted| ==> idx[i] < |gs| && gs[idx[i]] == sorted[i] && inv[idx[i]] == i
    requires |ks| == n && forall i :: 0 <= i < n ==> ks[i] == st.order[idx[i]]
    ensures forall i :: 0 <= i < n ==> ks[i] in st.groups && st.groups[ks[i]] == sorted[i] && sorted[i].count >= 1
    ensures forall i, j :: 0 <= i < j < n ==> ks[i] != ks[j]
  {
    forall i | 0 <= i < n
      ensures ks[i] in st.groups && st.groups[ks[i]] == sorted[i] && sorted[i].count >= 1
    {
      assert sorted[i] == gs[idx[i]];
    }
    forall i, j | 0 <= i < j < n
      ensures ks[i] != ks[j]
    {
      assert inv[idx[i]] == i && inv[idx[j]] == j;
    }
  }

  /** Row `i` of the rows of the first sorted records shows the record of key `i`. */
  lemma RowsMatched(st: ActivityStats, sorted: seq<Group>, ks: seq<string>, rows: seq<ActivityRow>)
    requires |ks| <= |sorted|
    requires forall i :: 0 <= i < |ks| ==> ks[i] in st.groups && st.groups[ks[i]] == sorted[i] && sorted[i].count >= 1
    requires rows == RowsOf(sorted[..|ks|])
    ensures |rows| == |ks|
    ensures forall i :: 0 <= i < |ks| ==> st.groups[ks[i]].count >= 1 && rows[i] == Row(st.groups[ks[i]])
    ensures forall i :: 0 <= i < |ks| ==> rows[i].totalMinutes == sorted[i].totalMinutes
  {
  }

  /** A record whose key is not among the first `n` sorted positions sits at or after `n`, so
      every one of the first `n` has at least its minutes. */
  lemma LeftOutRanksLower(st: ActivityStats, gs: seq<Group>, sorted: seq<Group>, n: nat,
                          idx: seq<nat>, inv: seq<nat>, ks: seq<string>, t: nat)
    requires forall k :: k in st.order ==> k in st.groups
    requires gs == Values(st) && SortedBy(sorted, NegTotal) && n <= |sorted|
    requires |idx| == |sorted| == |gs| == |inv|
    requires forall i :: 0 <= i < |sorted| ==> idx[i] < |gs| && gs[idx[i]] == sorted[i] && inv[idx[i]] == i
    requires forall u :: 0 <= u < |gs| ==> inv[u] < |sorted| && idx[inv[u]] == u
    requires |ks| == n && forall i :: 0 <= i < n ==> ks[i] == st.order[idx[i]]
    requires t < |st.order| && st.order[t] !in ks
    ensures forall i :: 0 <= i < n ==> st.groups[st.order[t]].totalMinutes <= sorted[i].totalMinutes
  {
    var j := inv[t];
    assert forall i :: 0 <= i < n ==> idx[i] != t;
    assert sorted[j] == gs[t];
    forall i | 0 <= i < n
      ensures st.groups[st.order[t]].totalMinutes <= sorted[i].totalMinutes
    {
      assert NegTotal(sorted[i]) <= NegTotal(sorted[j]);
    }
  }

  /** The card's rows: `TopRows` under the card's key. */
  function TopActivities(s: seq<TimeEntry>): seq<ActivityRow> {
    TopRows(s, KeyOf)
  }

  /** Rows of records ranked by total are ranked by total and by hours. */
  lemma RowsOrdered(ranked: seq<Group>, rows: seq<ActivityRow>)
    requires forall i :: 0 <= i < |ranked| ==> ranked[i].count >= 1
    requires forall i, j :: 0 <= i < j < |ranked| ==> ranked[i].totalMinutes >= ranked[j].totalMinutes
    requires rows == RowsOf(ranked)
    ensures forall i, j :: 0 <= i < j < |rows| ==> rows[i].totalMinutes >= rows[j].totalMinutes && rows[i].hours >= rows[j].hours
  {
    forall i, j | 0 <= i < j < |rows|
      ensures rows[i].totalMinutes >= rows[j].totalMinutes && rows[i].hours >= rows[j].hours
    {
      TenthsMonotone(ranked[j].totalMinutes, ranked[i].totalMinutes);
    }
  }

  /** The empty state is shown exactly when there are no entries. */
  lemma NoActivitiesIff(s: seq<TimeEntry>, key: TimeEntry -> string)
    ensures TopRows(s, key) == [] <==> s == []
  {
    GroupingSums(s, key);
    RankedTopTen(Values(Grouping(s, key)));
    if s != [] {
      assert Values(Grouping(s, key)) != [];
    }
  }

  /** `topActivities[0]?.hours || 1`, in tenths: the top row's hours, or one hour when there is
      no row or the top row rounds to zero. */
  function MaxHours(rows: seq<ActivityRow>): int {
    if rows == [] || rows[0].hours == 0 then 10 else rows[0].hours
  }

  /** With non-negative durations every progress bar is between 0 and 100 percent of `maxHours`. */
  lemma BarsWithinMax(s: seq<TimeEntry>, key: TimeEntry -> string, rows: seq<ActivityRow>)
    requires forall i :: 0 <= i < |s| ==> s[i].duration >= 0
    requires rows == TopRows(s, key)
    ensures MaxHours(rows) > 0
    ensures forall i :: 0 <= i < |rows| ==> 0 <= rows[i].hours <= MaxHours(rows)
  {
    GroupingSums(s, key);
    var ranked := Ranked(Values(Grouping(s, key)));
    RankedHoldEntries(s, key, ranked);
    RankedNonNegative(s, key, ranked);
    assert rows == RowsOf(ranked);
    forall i | 0 <= i < |rows|
      ensures rows[i].hours >= 0
    {
      TenthsMonotone(0, ranked[i].totalMinutes);
    }
  }
}
