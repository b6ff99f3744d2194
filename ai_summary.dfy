/** The summary card of the dashboard: a short list of insights chosen by fixed rules
    from the analytics. Hour figures are tenths of an hour, as in `Dashboard`. */
module AiSummary {
  import opened Seqs
  import opened Dashboard

  /** Which message an insight carries; the message text itself is a template around the numbers. */
  datatype InsightKind =
    | ExcellentScore
    | GoodScore
    | LowScore
    | ShrinkOverGrowth
    | UnderTracking
    | LongDays
    | GrowthFocus

  datatype InsightType = Positive | Neutral | Warning

  function TypeOf(k: InsightKind): InsightType {
    match k
    case ExcellentScore => Positive
    case GoodScore => Neutral
    case LowScore => Warning
    case ShrinkOverGrowth => Warning
    case UnderTracking => Neutral
    case LongDays => Warning
    case GrowthFocus => Positive
  }

  /** The rules in the order `generateInsights` tries them. */
  const Rules: seq<InsightKind> := [ExcellentScore, GoodScore, LowScore, ShrinkOverGrowth, UnderTracking, LongDays, GrowthFocus]

  /** Whether a rule fires on the analytics (an average below 6 hours is below 60 tenths). */
  predicate Fires(a: Analytics, k: InsightKind) {
    match k
    case ExcellentScore => a.productivityScore >= 80
    case GoodScore => 60 <= a.productivityScore < 80
    case LowScore => a.productivityScore < 60
    case ShrinkOverGrowth => a.shrink.hours > a.growth.hours
    case UnderTracking => a.avgDailyHours < 60
    case LongDays => a.avgDailyHours > 120
    case GrowthFocus => a.growth.hours > a.maintenance.hours + a.shrink.hours
  }

  function FiresOn(a: Analytics): InsightKind -> bool { k => Fires(a, k) }

  /** The insights shown: the rules that fire, in rule order, at most three of them. */
  function InsightsOf(a: Analytics): seq<InsightKind> {
    var fired := Filter(Rules, FiresOn(a));
    fired[..Min(3, |fired|)]
  }

  /** The rules that fire, spelled out. */
  lemma FiredRules(a: Analytics)
    ensures Filter(Rules, FiresOn(a)) == ScoreRule(a) + ShrinkRule(a) + AverageRule(a) + GrowthRule(a)
  {
    var p := FiresOn(a);
    var sc, sh, av, gr := [ExcellentScore, GoodScore, LowScore], [ShrinkOverGrowth], [UnderTracking, LongDays], [GrowthFocus];
    assert Rules == sc + sh + av + gr;
    FilterAppend(sc + sh + av, gr, p);
    FilterAppend(sc + sh, av, p);
    FilterAppend(sc, sh, p);
    ScorePart(a);
    FilterOne(ShrinkOverGrowth, p);
    AveragePart(a);
    FilterOne(GrowthFocus, p);
  }

  /** The score insight. */
  function ScoreRule(a: Analytics): seq<InsightKind> {
    [if a.productivityScore >= 80 then ExcellentScore else if a.productivityScore >= 60 then GoodScore else LowScore]
  }

  function ShrinkRule(a: Analytics): seq<InsightKind> {
    if a.shrink.hours > a.growth.hours then [ShrinkOverGrowth] else []
  }

  function AverageRule(a: Analytics): seq<InsightKind> {
    if a.avgDailyHours < 60 then [UnderTracking] else if a.avgDailyHours > 120 then [LongDays] else []
  }

  function GrowthRule(a: Analytics): seq<InsightKind> {
    if a.growth.hours > a.maintenance.hours + a.shrink.hours then [GrowthFocus] else []
  }

  lemma FilterOne<T>(x: T, p: T -> bool)
    ensures Filter([x], p) == if p(x) then [x] else []
  {
    assert [x][..0] == [];
  }

  lemma ScorePart(a: Analytics)
    ensures Filter([ExcellentScore, GoodScore, LowScore], FiresOn(a)) == ScoreRule(a)
  {
    var p := FiresOn(a);
    FilterAppend([ExcellentScore, GoodScore], [LowScore], p);
    FilterAppend([ExcellentScore], [GoodScore], p);
    FilterOne(ExcellentScore, p);
    FilterOne(GoodScore, p);
    FilterOne(LowScore, p);
  }

  lemma AveragePart(a: Analytics)
    ensures Filter([UnderTracking, LongDays], FiresOn(a)) == AverageRule(a)
  {
    var p := FiresOn(a);
    FilterAppend([UnderTracking], [LongDays], p);
    FilterOne(UnderTracking, p);
    FilterOne(LongDays, p);
  }

  /** The rules that fire, in the form `generateInsights` pushes them. */
  function Fired(a: Analytics): seq<InsightKind> {
    ScoreRule(a) + ShrinkRule(a) + AverageRule(a) + GrowthRule(a)
  }

  /** The shown insights are the first three of `Fired`. */
  lemma InsightsSpelled(a: Analytics)
    ensures InsightsOf(a) == Fired(a)[..Min(3, |Fired(a)|)]
  {
    FiredRules(a);
  }

  /** `generateInsights`: conditional pushes in rule order, then `slice(0, 3)`. */
  method GenerateInsights(a: Analytics) returns (insights: seq<InsightKind>)
    ensures insights == InsightsOf(a)
  {
    insights := [];
    if a.productivityScore >= 80 {
      insights := insights + [ExcellentScore];
    } else if a.productivityScore >= 60 {
      insights := insights + [GoodScore];
    } else {
      insights := insights + [LowScore];
    }
    assert insights == ScoreRule(a);
    if a.shrink.hours > a.growth.hours {
      insights := insights + [ShrinkOverGrowth];
    }
    assert insights == ScoreRule(a) + ShrinkRule(a);
    if a.avgDailyHours < 60 {
      insights := insights + [UnderTracking];
    } else if a.avgDailyHours > 120 {
      insights := insights + [LongDays];
    }
    assert insights == ScoreRule(a) + ShrinkRule(a) + AverageRule(a);
    if a.growth.hours > a.maintenance.hours + a.shrink.hours {
      insights := insights + [GrowthFocus];
    }
    assert insights == Fired(a);
    InsightsSpelled(a);
    insights := insights[..Min(3, |insights|)];
  }

  /** One to three insights, the first always about the score: positive from 80, neutral from 60,
      a warning below. */
  lemma InsightsStartWithScore(a: Analytics)
    ensures var r := InsightsOf(a);
      1 <= |r| <= 3 &&
      (TypeOf(r[0]) == Positive <==> a.productivityScore >= 80) &&
      (TypeOf(r[0]) == Neutral <==> 60 <= a.productivityScore < 80) &&
      (TypeOf(r[0]) == Warning <==> a.productivityScore < 60) &&
      r[0] in {ExcellentScore, GoodScore, LowScore}
  {
    InsightsSpelled(a);
    assert Fired(a)[0] == ScoreRule(a)[0];
  }

  /** The shrink warning is shown exactly when shrink hours exceed growth hours. */
  lemma ShrinkWarningIff(a: Analytics)
    ensures ShrinkOverGrowth in InsightsOf(a) <==> a.shrink.hours > a.growth.hours
  {
    InsightsSpelled(a);
    var f := Fired(a);
    if a.shrink.hours > a.growth.hours {
      assert f[1] == ShrinkOverGrowth;
      assert InsightsOf(a)[1] == ShrinkOverGrowth;
    } else {
      assert ShrinkOverGrowth !in f;
    }
  }

  /** At most one remark on the daily average: under 6 hours, over 12 hours, or none. */
  lemma AverageInsightIff(a: Analytics)
    ensures UnderTracking in InsightsOf(a) <==> a.avgDailyHours < 60
    ensures LongDays in InsightsOf(a) <==> a.avgDailyHours > 120
    ensures !(UnderTracking in InsightsOf(a) && LongDays in InsightsOf(a))
  {
    InsightsSpelled(a);
    var f := Fired(a);
    var k := |ScoreRule(a) + ShrinkRule(a)|;
    assert k <= 2;
    if a.avgDailyHours < 60 {
      assert f[k] == UnderTracking;
      assert InsightsOf(a)[k] == UnderTracking;
      assert LongDays !in f;
    } else if a.avgDailyHours > 120 {
      assert f[k] == LongDays;
      assert InsightsOf(a)[k] == LongDays;
      assert UnderTracking !in f;
    } else {
      assert UnderTracking !in f && LongDays !in f;
    }
  }

  /** With non-negative hours the growth insight excludes the shrink warning, so nothing that fires
      is cut by the limit of three, and the growth insight is shown exactly when growth exceeds the
      other two categories together. */
  lemma GrowthFocusIff(a: Analytics)
    requires a.growth.hours >= 0 && a.maintenance.hours >= 0 && a.shrink.hours >= 0
    ensures |Filter(Rules, FiresOn(a))| <= 3
    ensures GrowthFocus in InsightsOf(a) <==> a.growth.hours > a.maintenance.hours + a.shrink.hours
    ensures GrowthFocus in InsightsOf(a) ==> ShrinkOverGrowth !in InsightsOf(a)
  {
    FiredRules(a);
    InsightsSpelled(a);
    var f := Fired(a);
    if a.growth.hours > a.maintenance.hours + a.shrink.hours {
      assert ShrinkRule(a) == [];
      assert |f| <= 3 && f[|f| - 1] == GrowthFocus;
      assert InsightsOf(a) == f;
      assert ShrinkOverGrowth !in f;
    } else {
      assert GrowthFocus !in f;
    }
  }

  /** The shown insights follow rule order. */
  lemma InsightsInRuleOrder(a: Analytics)
    ensures forall i, j :: 0 <= i < j < |InsightsOf(a)| ==> Rank(InsightsOf(a)[i]) < Rank(InsightsOf(a)[j])
  {
    InsightsSpelled(a);
    var f := Fired(a);
    var r := InsightsOf(a);
    forall i, j | 0 <= i < j < |r|
      ensures Rank(r[i]) < Rank(r[j])
    {
      assert r[i] == f[i] && r[j] == f[j];
      FiredRanked(a, i, j);
    }
  }

  lemma FiredRanked(a: Analytics, i: int, j: int)
    requires 0 <= i < j < |Fired(a)|
    ensures Rank(Fired(a)[i]) < Rank(Fired(a)[j])
  {
    var sc, sh, av, gr := ScoreRule(a), ShrinkRule(a), AverageRule(a), GrowthRule(a);
    var f := Fired(a);
    assert forall k :: 0 <= k < |sc| ==> Rank(sc[k]) <= 2;
    assert forall k :: 0 <= k < |sh| ==> Rank(sh[k]) == 3;
    assert forall k :: 0 <= k < |av| ==> 4 <= Rank(av[k]) <= 5;
    assert forall k :: 0 <= k < |gr| ==> Rank(gr[k]) == 6;
    assert |sc| == 1 && |sh| <= 1 && |av| <= 1 && |gr| <= 1;
    assert f == sc + sh + av + gr;
  }

  /** The position of a rule in `Rules`. */
  function Rank(k: InsightKind): (n: nat)
    ensures n < |Rules| && Rules[n] == k
  {
    match k
    case ExcellentScore => 0
    case GoodScore => 1
    case LowScore => 2
    case ShrinkOverGrowth => 3
    case UnderTracking => 4
    case LongDays => 5
    case GrowthFocus => 6
  }
}
