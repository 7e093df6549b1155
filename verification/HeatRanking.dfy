/** What the classification prefers, told by the counts and the relations themselves: manual
    before recent before heat, and among topics the one with the greatest keys. */
module HeatRanking {
  import opened Wrappers
  import opened ClassifyTypes
  import opened HeatPick
  import opened HeatStats
  import opened HeatClassify
  import opened HeatTheorems

  // ----- the two orders, key by key

  predicate FewerLimitUps(a: TopicHeatInfo, b: TopicHeatInfo) {
    if a.limitUpCount != b.limitUpCount then a.limitUpCount < b.limitUpCount
    else if a.stockCount != b.stockCount then a.stockCount < b.stockCount
    else if a.participationRate != b.participationRate then a.participationRate < b.participationRate
    else a.heatScore < b.heatScore
  }

  predicate LessHeat(a: TopicHeatInfo, b: TopicHeatInfo) {
    if a.heatScore != b.heatScore then a.heatScore < b.heatScore
    else if a.stockCount != b.stockCount then a.stockCount < b.stockCount
    else if a.limitUpCount != b.limitUpCount then a.limitUpCount < b.limitUpCount
    else a.participationRate < b.participationRate
  }

  /** The replacement test of the source is the order of the keys. */
  lemma BetterIsGreaterKeys(a: TopicHeatInfo, b: TopicHeatInfo)
    ensures Better(b, a, true) <==> FewerLimitUps(a, b)
    ensures Better(b, a, false) <==> LessHeat(a, b)
  {
  }

  /** A relation that heat may pick: unfiltered, with its topic in the heat map and among the
      allowed ones. */
  predicate Open(r: TopicRelation, heat: HeatMap, allow: Option<set<int>>, s: Setting) {
    r.topicName !in s.filtered && r.topicID in heat && (allow.None? || r.topicID in allow.value)
  }

  /** The first of the open relations whose topic no other open one exceeds in the limit-up keys. */
  ghost predicate IsFirstOfMostLimitUps(relations: seq<TopicRelation>, heat: HeatMap, allow: Option<set<int>>,
                                        s: Setting, i: nat)
  {
    && i < |relations| && Open(relations[i], heat, allow, s)
    && forall j :: 0 <= j < |relations| && Open(relations[j], heat, allow, s) ==>
         && !FewerLimitUps(heat[relations[i].topicID], heat[relations[j].topicID])
         && (j < i ==> FewerLimitUps(heat[relations[j].topicID], heat[relations[i].topicID]))
  }

  /** The same for the heat keys. */
  ghost predicate IsFirstOfMostHeat(relations: seq<TopicRelation>, heat: HeatMap, s: Setting, i: nat) {
    && i < |relations| && Open(relations[i], heat, None, s)
    && forall j :: 0 <= j < |relations| && Open(relations[j], heat, None, s) ==>
         && !LessHeat(heat[relations[i].topicID], heat[relations[j].topicID])
         && (j < i ==> LessHeat(heat[relations[j].topicID], heat[relations[i].topicID]))
  }

  lemma LimitUpModePicks(relations: seq<TopicRelation>, heat: HeatMap, allow: Option<set<int>>, s: Setting)
    ensures var best := PickBest(relations, heat, allow, true, s);
            && (best.None? <==> forall r :: r in relations ==> !Open(r, heat, allow, s))
            && (best.Some? ==> exists i: nat :: IsFirstOfMostLimitUps(relations, heat, allow, s, i) && best.value == relations[i])
  {
    PickBestIsFirstMaximum(relations, heat, allow, true, s);
    assert forall r :: Eligible(r, heat, allow, s) <==> Open(r, heat, allow, s);
    if PickBest(relations, heat, allow, true, s).Some? {
      var i: nat :| IsFirstMaximum(relations, heat, allow, true, s, i) && PickBest(relations, heat, allow, true, s).value == relations[i];
      forall j | 0 <= j < |relations| && Open(relations[j], heat, allow, s)
        ensures !FewerLimitUps(heat[relations[i].topicID], heat[relations[j].topicID])
        ensures j < i ==> FewerLimitUps(heat[relations[j].topicID], heat[relations[i].topicID])
      {
        assert Eligible(relations[j], heat, allow, s);
        BetterIsGreaterKeys(heat[relations[i].topicID], heat[relations[j].topicID]);
        BetterIsGreaterKeys(heat[relations[j].topicID], heat[relations[i].topicID]);
      }
      assert IsFirstOfMostLimitUps(relations, heat, allow, s, i);
    }
  }

  lemma HeatModePicks(relations: seq<TopicRelation>, heat: HeatMap, s: Setting)
    ensures var best := PickBest(relations, heat, None, false, s);
            && (best.None? <==> forall r :: r in relations ==> !Open(r, heat, None, s))
            && (best.Some? ==> exists i: nat :: IsFirstOfMostHeat(relations, heat, s, i) && best.value == relations[i])
  {
    PickBestIsFirstMaximum(relations, heat, None, false, s);
    assert forall r :: Eligible(r, heat, None, s) <==> Open(r, heat, None, s);
    if PickBest(relations, heat, None, false, s).Some? {
      var i: nat :| IsFirstMaximum(relations, heat, None, false, s, i) && PickBest(relations, heat, None, false, s).value == relations[i];
      forall j | 0 <= j < |relations| && Open(relations[j], heat, None, s)
        ensures !LessHeat(heat[relations[i].topicID], heat[relations[j].topicID])
        ensures j < i ==> LessHeat(heat[relations[j].topicID], heat[relations[i].topicID])
      {
        assert Eligible(relations[j], heat, None, s);
        BetterIsGreaterKeys(heat[relations[i].topicID], heat[relations[j].topicID]);
        BetterIsGreaterKeys(heat[relations[j].topicID], heat[relations[i].topicID]);
      }
      assert IsFirstOfMostHeat(relations, heat, s, i);
    }
  }

  // ----- manual and recent relations

  predicate HasManual(relations: seq<TopicRelation>) {
    exists r :: r in relations && r.source == "manual"
  }

  /** The time of a manual relation; none counts as the zero time. */
  function TimeOf(r: TopicRelation): int {
    if r.updatedAt.Some? then r.updatedAt.value else 0
  }

  /** Unfiltered, and last seen at most seven days before today, or later. */
  predicate SeenThisWeek(r: TopicRelation, s: Setting) {
    && r.topicName !in s.filtered && s.today.Some? && r.lastSeenDate.Some?
    && s.today.value - r.lastSeenDate.value <= 7
  }

  ghost predicate HasRecent(relations: seq<TopicRelation>, s: Setting) {
    exists r :: r in relations && SeenThisWeek(r, s) && r.hitCount >= -1
  }

  lemma RecentIsSeenThisWeek(r: TopicRelation, s: Setting)
    ensures s.Recent(r) <==> SeenThisWeek(r, s)
  {
  }

  lemma ManualPick(relations: seq<TopicRelation>)
    ensures var pick := PickManual(relations);
            && (pick.Some? <==> HasManual(relations))
            && (pick.Some? ==> pick.value in relations && pick.value.source == "manual"
                               && forall r :: r in relations && r.source == "manual" ==> TimeOf(r) <= TimeOf(pick.value))
  {
    PickManualIsLatest(relations);
    assert forall r :: UpdatedAt(r) == TimeOf(r);
  }

  /** Index i is the first of the latest manual relations. */
  ghost predicate IsFirstLatest(relations: seq<TopicRelation>, i: nat) {
    && i < |relations| && relations[i].source == "manual"
    && forall j :: 0 <= j < |relations| && relations[j].source == "manual" ==>
         TimeOf(relations[j]) <= TimeOf(relations[i]) && (j < i ==> TimeOf(relations[j]) < TimeOf(relations[i]))
  }

  lemma {:induction false} ManualPickIsFirst(relations: seq<TopicRelation>) returns (i: nat)
    requires HasManual(relations)
    ensures IsFirstLatest(relations, i) && PickManual(relations) == Some(relations[i])
  {
    var n := |relations| - 1;
    var prefix, last := relations[..n], relations[n];
    ManualPick(prefix);
    if HasManual(prefix) {
      i := ManualPickIsFirst(prefix);
      if last.source == "manual" && TimeOf(last) > TimeOf(prefix[i]) {
        i := n;
      }
    } else {
      i := n;
      assert forall j :: 0 <= j < n ==> relations[j] in prefix;
      assert forall r :: r in relations ==> r in prefix || r == last;
    }
  }

  /** What is drawn from: the relations seen this week with the most hits, in order, each as often
      as it is there. */
  lemma {:induction false} DrawnFrom(relations: seq<TopicRelation>, s: Setting, hits: int, r: TopicRelation)
    ensures multiset(RecentWithHits(relations, s, hits))[r]
         == if SeenThisWeek(r, s) && r.hitCount == hits then multiset(relations)[r] else 0
  {
    if relations != [] {
      var prefix, last := relations[..|relations| - 1], relations[|relations| - 1];
      DrawnFrom(prefix, s, hits, r);
      assert relations == prefix + [last];
      CountsSnoc(prefix, last, r);
      TiedNext(relations, s, hits);
      if SeenThisWeek(last, s) && last.hitCount == hits {
        CountsSnoc(RecentWithHits(prefix, s, hits), last, r);
      }
    }
  }

  lemma TiedNext(relations: seq<TopicRelation>, s: Setting, hits: int)
    requires relations != []
    ensures var prefix, last := relations[..|relations| - 1], relations[|relations| - 1];
            RecentWithHits(relations, s, hits)
              == if SeenThisWeek(last, s) && last.hitCount == hits then RecentWithHits(prefix, s, hits) + [last]
                 else RecentWithHits(prefix, s, hits)
  {
    RecentIsSeenThisWeek(relations[|relations| - 1], s);
  }

  lemma CountsSnoc<T>(items: seq<T>, last: T, x: T)
    ensures multiset(items + [last])[x] == multiset(items)[x] + if last == x then 1 else 0
  {
  }

  lemma RecentPickIsDrawn(relations: seq<TopicRelation>, s: Setting, code: string)
    requires HasRecent(relations, s)
    ensures var pick := PickRecent(relations, s, code);
            pick.Some? && var tied := RecentWithHits(relations, s, pick.value.hitCount);
            |tied| > 0 && pick.value == tied[s.draw(code, tied) % |tied|]
  {
    RecentPick(relations, s, code);
    var best := BestHit(relations, s);
    RecentHits(relations, s, best);
    var tied := RecentWithHits(relations, s, best);
    assert tied[s.draw(code, tied) % |tied|] in tied;
  }

  lemma RecentPick(relations: seq<TopicRelation>, s: Setting, code: string)
    ensures var pick := PickRecent(relations, s, code);
            && (pick.Some? <==> HasRecent(relations, s))
            && (pick.Some? ==> pick.value in relations && SeenThisWeek(pick.value, s)
                               && forall r :: r in relations && SeenThisWeek(r, s) ==> r.hitCount <= pick.value.hitCount)
  {
    PickRecentHasMostHits(relations, s, code);
    forall r ensures s.Recent(r) <==> SeenThisWeek(r, s) { RecentIsSeenThisWeek(r, s); }
  }

  // ----- on the classification

  /** A stock that is classified: it has a code and rises by more than 5%. */
  predicate Rises(x: StockQuoteInput) {
    x.tsCode != "" && x.changePercent > 500
  }

  /** A topic given to the code of some limit-up stock. */
  ghost predicate GivenToLimitUp(stocks: seq<StockQuoteInput>, results: map<string, seq<TopicRelation>>, t: int) {
    exists x :: x in stocks && Rises(x) && x.isLimitUp && x.tsCode in results
                && |results[x.tsCode]| == 1 && results[x.tsCode][0].topicID == t
  }

  lemma TakenIsGiven(stocks: seq<StockQuoteInput>, store: Relations, totals: Totals, countStore: Totals, s: Setting, t: int)
    ensures t in PassOne(stocks, store, Heat(stocks, store, totals, countStore, s), s).taken
            <==> GivenToLimitUp(stocks, Classification(stocks, store, totals, countStore, s), t)
  {
    var heat, cls := Heat(stocks, store, totals, countStore, s), ClassifyStocks(stocks);
    ClassifyInHeatUniverse(stocks);
    LimitUpPassTakes(cls, LoadedRelations(stocks, store), heat, s);
    forall x | x in cls && x.isLimitUp
      ensures RelationsOf(LoadedRelations(stocks, store), x.tsCode) == RelationsOf(store, x.tsCode)
      ensures Holds(Classification(stocks, store, totals, countStore, s), x.tsCode,
                    PickForLimitUp(RelationsOf(store, x.tsCode), heat, s, x.tsCode))
    {
      LoadedOf(stocks, store, x);
      ClassificationIsVerdict(stocks, store, totals, countStore, s, x.tsCode);
      assert Comes(cls, x.tsCode, true);
    }
    assert forall x :: x in cls <==> x in stocks && Rises(x);
  }

  ghost predicate ManualOrRecent(relations: seq<TopicRelation>, s: Setting) {
    HasManual(relations) || HasRecent(relations, s)
  }

  /** A manual relation always wins, the latest one; without one, a recent relation wins, one with
      the most hits. */
  lemma ManualThenRecent(stocks: seq<StockQuoteInput>, store: Relations, totals: Totals, countStore: Totals,
                         s: Setting, x: StockQuoteInput)
    requires x in stocks && Rises(x) && ManualOrRecent(RelationsOf(store, x.tsCode), s)
    ensures var results, relations := Classification(stocks, store, totals, countStore, s), RelationsOf(store, x.tsCode);
            && x.tsCode in results && |results[x.tsCode]| == 1
            && var pick := results[x.tsCode][0];
               && pick in relations
               && if HasManual(relations) then
                    pick.source == "manual" && forall r :: r in relations && r.source == "manual" ==> TimeOf(r) <= TimeOf(pick)
                  else
                    SeenThisWeek(pick, s) && forall r :: r in relations && SeenThisWeek(r, s) ==> r.hitCount <= pick.hitCount
  {
    ClassifyInHeatUniverse(stocks);
    ClassificationIsVerdict(stocks, store, totals, countStore, s, x.tsCode);
    assert Comes(ClassifyStocks(stocks), x.tsCode, x.isLimitUp);
    ManualPick(RelationsOf(store, x.tsCode));
    RecentPick(RelationsOf(store, x.tsCode), s, x.tsCode);
  }

  /** The verdict of a code without a manual or recent relation. */
  lemma HeatVerdict(stocks: seq<StockQuoteInput>, store: Relations, totals: Totals, countStore: Totals,
                    s: Setting, x: StockQuoteInput)
    requires x in stocks && Rises(x) && !ManualOrRecent(RelationsOf(store, x.tsCode), s)
    ensures var heat, relations := Heat(stocks, store, totals, countStore, s), RelationsOf(store, x.tsCode);
            var taken := PassOne(stocks, store, heat, s).taken;
            var fromTaken := PickBest(relations, heat, Some(taken), true, s);
            Holds(Classification(stocks, store, totals, countStore, s), x.tsCode,
                  if exists y :: y in stocks && Rises(y) && y.tsCode == x.tsCode && y.isLimitUp
                  then PickBest(relations, heat, None, true, s)
                  else if fromTaken.Some? then fromTaken else PickBest(relations, heat, None, false, s))
  {
    ClassifyInHeatUniverse(stocks);
    assert forall y :: y in ClassifyStocks(stocks) <==> y in stocks && Rises(y);
    ClassificationIsVerdict(stocks, store, totals, countStore, s, x.tsCode);
    assert Comes(ClassifyStocks(stocks), x.tsCode, x.isLimitUp);
    ManualPick(RelationsOf(store, x.tsCode));
    RecentPick(RelationsOf(store, x.tsCode), s, x.tsCode);
  }

  /** The code of a limit-up stock, decided by heat, gets the first of its unfiltered relations
      whose topic has the most limit-up stocks, then strong stocks, then participation, then
      heat score. */
  lemma LimitUpGetsMostLimitUps(stocks: seq<StockQuoteInput>, store: Relations, totals: Totals, countStore: Totals,
                                s: Setting, x: StockQuoteInput)
    requires x in stocks && Rises(x) && x.isLimitUp && !ManualOrRecent(RelationsOf(store, x.tsCode), s)
    requires x.tsCode in Classification(stocks, store, totals, countStore, s)
    ensures var results := Classification(stocks, store, totals, countStore, s);
            exists i: nat :: IsFirstOfMostLimitUps(RelationsOf(store, x.tsCode), Heat(stocks, store, totals, countStore, s), None, s, i)
                             && results[x.tsCode] == [RelationsOf(store, x.tsCode)[i]]
  {
    HeatVerdict(stocks, store, totals, countStore, s, x);
    LimitUpModePicks(RelationsOf(store, x.tsCode), Heat(stocks, store, totals, countStore, s), None, s);
  }

  /** Topics given to limit-up stocks. */
  ghost function Given(stocks: seq<StockQuoteInput>, store: Relations, totals: Totals, countStore: Totals, s: Setting): (topics: set<int>)
    ensures forall t :: t in topics <==> GivenToLimitUp(stocks, Classification(stocks, store, totals, countStore, s), t)
  {
    forall t
      ensures t in PassOne(stocks, store, Heat(stocks, store, totals, countStore, s), s).taken
              <==> GivenToLimitUp(stocks, Classification(stocks, store, totals, countStore, s), t)
    {
      TakenIsGiven(stocks, store, totals, countStore, s, t);
    }
    PassOne(stocks, store, Heat(stocks, store, totals, countStore, s), s).taken
  }

  /** A code with no limit-up stock, decided by heat: if one of its unfiltered relations has a
      topic of the heat map that is given to a limit-up stock, it gets the first of those with
      the greatest limit-up keys; otherwise the first of all with the greatest heat keys. */
  lemma StrongGetsGivenThenHottest(stocks: seq<StockQuoteInput>, store: Relations, totals: Totals, countStore: Totals,
                                   s: Setting, x: StockQuoteInput)
    requires x in stocks && Rises(x) && !ManualOrRecent(RelationsOf(store, x.tsCode), s)
    requires forall y :: y in stocks && Rises(y) && y.tsCode == x.tsCode ==> !y.isLimitUp
    requires x.tsCode in Classification(stocks, store, totals, countStore, s)
    ensures var results, relations := Classification(stocks, store, totals, countStore, s), RelationsOf(store, x.tsCode);
            var heat, given := Heat(stocks, store, totals, countStore, s), Given(stocks, store, totals, countStore, s);
            if exists r :: r in relations && Open(r, heat, Some(given), s)
            then exists i: nat :: IsFirstOfMostLimitUps(relations, heat, Some(given), s, i) && results[x.tsCode] == [relations[i]]
            else exists i: nat :: IsFirstOfMostHeat(relations, heat, s, i) && results[x.tsCode] == [relations[i]]
  {
    var heat := Heat(stocks, store, totals, countStore, s);
    HeatVerdict(stocks, store, totals, countStore, s, x);
    LimitUpModePicks(RelationsOf(store, x.tsCode), heat, Some(PassOne(stocks, store, heat, s).taken), s);
    HeatModePicks(RelationsOf(store, x.tsCode), heat, s);
  }
}
