/** Today's heat of each topic (internal/service/classify/heat_classify.go): per-topic
    counts over the rising stocks, patching of missing totals, and the heat map.

    The loops are proved equal to the step functions, and the step functions to the plain
    counts Count and Mentions. */
module HeatStats {
  import opened Wrappers
  import opened ClassifyTypes

  type Relations = map<string, seq<TopicRelation>>
  type Totals = map<int, int>

  const HEAT_RISING_THRESHOLD := 300
  const CLASSIFY_THRESHOLD := 500

  function RelationsOf(relations: Relations, tsCode: string): seq<TopicRelation> {
    if tsCode in relations then relations[tsCode] else []
  }

  // ----- the reference: counting pairs of a stock and one of its unfiltered relations

  function Mentions(relations: seq<TopicRelation>, s: Setting, topicID: int): nat {
    if relations == [] then 0
    else
      var r := relations[|relations| - 1];
      Mentions(relations[..|relations| - 1], s, topicID) + if s.Unfiltered(r) && r.topicID == topicID then 1 else 0
  }

  datatype Kind = Any | Rising | Strong | SealedStrong

  predicate IsOfKind(stock: StockQuoteInput, kind: Kind) {
    match kind
    case Any => true
    case Rising => stock.changePercent > HEAT_RISING_THRESHOLD
    case Strong => stock.changePercent > CLASSIFY_THRESHOLD
    case SealedStrong => stock.changePercent > CLASSIFY_THRESHOLD && stock.isLimitUp
  }

  function Share(stock: StockQuoteInput, relations: Relations, s: Setting, topicID: int, kind: Kind): nat {
    if IsOfKind(stock, kind) then Mentions(RelationsOf(relations, stock.tsCode), s, topicID) else 0
  }

  function Count(stocks: seq<StockQuoteInput>, relations: Relations, s: Setting, topicID: int, kind: Kind): nat {
    if stocks == [] then 0
    else
      Count(stocks[..|stocks| - 1], relations, s, topicID, kind)
      + Share(stocks[|stocks| - 1], relations, s, topicID, kind)
  }

  lemma {:induction false} MentionsPositive(relations: seq<TopicRelation>, s: Setting, topicID: int)
    ensures Mentions(relations, s, topicID) > 0
            <==> exists r :: r in relations && s.Unfiltered(r) && r.topicID == topicID
  {
    if relations != [] {
      var prefix, last := relations[..|relations| - 1], relations[|relations| - 1];
      MentionsPositive(prefix, s, topicID);
      assert forall r :: r in relations <==> r in prefix || r == last;
    }
  }

  lemma {:induction false} CountAtLeastShare(stocks: seq<StockQuoteInput>, relations: Relations, s: Setting,
                                             topicID: int, kind: Kind, stock: StockQuoteInput)
    requires stock in stocks
    ensures Count(stocks, relations, s, topicID, kind) >= Share(stock, relations, s, topicID, kind)
  {
    if stock != stocks[|stocks| - 1] {
      assert stock in stocks[..|stocks| - 1];
      CountAtLeastShare(stocks[..|stocks| - 1], relations, s, topicID, kind, stock);
    }
  }

  lemma {:induction false} CountChain(stocks: seq<StockQuoteInput>, relations: Relations, s: Setting, topicID: int)
    ensures Count(stocks, relations, s, topicID, SealedStrong) <= Count(stocks, relations, s, topicID, Strong)
            <= Count(stocks, relations, s, topicID, Rising) <= Count(stocks, relations, s, topicID, Any)
    ensures (forall stock :: stock in stocks ==> IsOfKind(stock, Rising)) ==>
              Count(stocks, relations, s, topicID, Rising) == Count(stocks, relations, s, topicID, Any)
  {
    if stocks != [] {
      CountChain(stocks[..|stocks| - 1], relations, s, topicID);
      assert stocks[|stocks| - 1] in stocks;
    }
  }

  function Without<T>(b: seq<T>, i: nat): seq<T>
    requires i < |b|
  {
    b[..i] + b[i + 1..]
  }

  lemma FindAndRemove<T>(a: seq<T>, b: seq<T>) returns (i: nat)
    requires a != [] && multiset(a) == multiset(b)
    ensures i < |b| && b[i] == a[|a| - 1]
    ensures multiset(a[..|a| - 1]) == multiset(Without(b, i))
  {
    var n := |a| - 1;
    assert a == a[..n] + [a[n]];
    assert a[n] in multiset(b);
    i :| 0 <= i < |b| && b[i] == a[n];
    assert b == b[..i] + ([b[i]] + b[i + 1..]);
    assert multiset(b) == multiset(b[..i]) + (multiset{b[i]} + multiset(b[i + 1..]));
    assert multiset(Without(b, i)) == multiset(b) - multiset{b[i]};
    assert multiset(a[..n]) == multiset(a) - multiset{a[n]};
  }

  /** Counts do not depend on the order of the stocks. */
  lemma {:induction false} CountPermutes(a: seq<StockQuoteInput>, b: seq<StockQuoteInput>, relations: Relations,
                                         s: Setting, topicID: int, kind: Kind)
    requires multiset(a) == multiset(b)
    ensures Count(a, relations, s, topicID, kind) == Count(b, relations, s, topicID, kind)
  {
    if a == [] {
      assert |multiset(b)| == 0;
    } else {
      var i := FindAndRemove(a, b);
      CountPermutes(a[..|a| - 1], Without(b, i), relations, s, topicID, kind);
      CountRemove(b, i, relations, s, topicID, kind);
    }
  }

  lemma {:induction false} CountRemove(b: seq<StockQuoteInput>, i: nat, relations: Relations, s: Setting,
                                       topicID: int, kind: Kind)
    requires i < |b|
    ensures Count(b, relations, s, topicID, kind)
            == Count(Without(b, i), relations, s, topicID, kind) + Share(b[i], relations, s, topicID, kind)
  {
    var n := |b| - 1;
    var rest := Without(b, i);
    if i == n {
      assert rest == b[..n];
    } else {
      CountRemove(b[..n], i, relations, s, topicID, kind);
      assert b == b[..n] + [b[n]] && rest == Without(b[..n], i) + [b[n]];
      CountOneMore(b[..n], b[n], relations, s, topicID, kind);
      CountOneMore(Without(b[..n], i), b[n], relations, s, topicID, kind);
    }
  }

  lemma CountOneMore(stocks: seq<StockQuoteInput>, x: StockQuoteInput, relations: Relations, s: Setting, topicID: int, kind: Kind)
    ensures Count(stocks + [x], relations, s, topicID, kind)
            == Count(stocks, relations, s, topicID, kind) + Share(x, relations, s, topicID, kind)
  {
    assert (stocks + [x])[..|stocks|] == stocks;
  }

  // ----- collectTopicHeatStats

  datatype Accumulator = Accumulator(stockCount: nat, limitUpCount: nat, risingCount: nat)
  datatype Tally = Tally(stats: map<int, Accumulator>, missing: set<int>)

  function Bump(a: Accumulator, stock: StockQuoteInput): Accumulator {
    Accumulator(
      a.stockCount + if IsOfKind(stock, Strong) then 1 else 0,
      a.limitUpCount + if IsOfKind(stock, SealedStrong) then 1 else 0,
      a.risingCount + if IsOfKind(stock, Rising) then 1 else 0)
  }

  function StatOf(stats: map<int, Accumulator>, topicID: int): Accumulator {
    if topicID in stats then stats[topicID] else Accumulator(0, 0, 0)
  }

  /** Counts that could not be loaded at all are an empty map. */
  predicate Unavailable(totals: Totals) {
    totals == map[]
  }

  predicate Tracked(totals: Totals, topicID: int) {
    Unavailable(totals) || topicID !in totals || totals[topicID] > 0
  }

  function TallyRelation(t: Tally, stock: StockQuoteInput, r: TopicRelation, totals: Totals, s: Setting): Tally {
    if !s.Unfiltered(r) then t
    else
      var missing := t.missing + if !Unavailable(totals) && r.topicID !in totals then {r.topicID} else {};
      Tally(if Tracked(totals, r.topicID) then t.stats[r.topicID := Bump(StatOf(t.stats, r.topicID), stock)] else t.stats,
            missing)
  }

  function TallyStock(t: Tally, stock: StockQuoteInput, rs: seq<TopicRelation>, totals: Totals, s: Setting): Tally {
    if rs == [] then t
    else TallyRelation(TallyStock(t, stock, rs[..|rs| - 1], totals, s), stock, rs[|rs| - 1], totals, s)
  }

  function TallyAll(stocks: seq<StockQuoteInput>, relations: Relations, totals: Totals, s: Setting): Tally {
    if stocks == [] then Tally(map[], {})
    else
      var stock := stocks[|stocks| - 1];
      TallyStock(TallyAll(stocks[..|stocks| - 1], relations, totals, s),
                 stock, RelationsOf(relations, stock.tsCode), totals, s)
  }

  lemma TallyStockNext(t: Tally, stock: StockQuoteInput, rs: seq<TopicRelation>, j: nat, totals: Totals, s: Setting)
    requires j < |rs|
    ensures TallyStock(t, stock, rs[..j + 1], totals, s)
            == TallyRelation(TallyStock(t, stock, rs[..j], totals, s), stock, rs[j], totals, s)
  {
    assert rs[..j + 1][..j] == rs[..j];
  }

  lemma TallyAllNext(stocks: seq<StockQuoteInput>, i: nat, relations: Relations, totals: Totals, s: Setting)
    requires i < |stocks|
    ensures TallyAll(stocks[..i + 1], relations, totals, s)
            == TallyStock(TallyAll(stocks[..i], relations, totals, s), stocks[i],
                          RelationsOf(relations, stocks[i].tsCode), totals, s)
  {
    assert stocks[..i + 1][..i] == stocks[..i];
  }

  method CollectTopicHeatStats(stocks: seq<StockQuoteInput>, relations: Relations, totals: Totals, s: Setting)
    returns (stats: map<int, Accumulator>, missing: set<int>)
    ensures Tally(stats, missing) == TallyAll(stocks, relations, totals, s)
  {
    stats, missing := map[], {};
    for i := 0 to |stocks|
      invariant Tally(stats, missing) == TallyAll(stocks[..i], relations, totals, s)
    {
      var stock := stocks[i];
      stats, missing := CollectStockStats(stats, missing, stock, RelationsOf(relations, stock.tsCode), totals, s);
      TallyAllNext(stocks, i, relations, totals, s);
    }
    assert stocks[..|stocks|] == stocks;
  }

  /** The inner loop of collectTopicHeatStats. */
  method CollectStockStats(stats0: map<int, Accumulator>, missing0: set<int>, stock: StockQuoteInput,
                           rs: seq<TopicRelation>, totals: Totals, s: Setting)
    returns (stats: map<int, Accumulator>, missing: set<int>)
    ensures Tally(stats, missing) == TallyStock(Tally(stats0, missing0), stock, rs, totals, s)
  {
    stats, missing := stats0, missing0;
    var countsUnavailable := |totals| == 0;
    for j := 0 to |rs|
      invariant Tally(stats, missing) == TallyStock(Tally(stats0, missing0), stock, rs[..j], totals, s)
    {
      var relation := rs[j];
      TallyStockNext(Tally(stats0, missing0), stock, rs, j, totals, s);
      if !s.Unfiltered(relation) { continue; }
      if !countsUnavailable {
        if relation.topicID !in totals {
          missing := missing + {relation.topicID};
        } else if totals[relation.topicID] <= 0 {
          continue;
        }
      }
      var stat := BumpAccumulator(StatOf(stats, relation.topicID), stock);
      stats := stats[relation.topicID := stat];
    }
    assert rs[..|rs|] == rs;
  }

  method BumpAccumulator(a: Accumulator, stock: StockQuoteInput) returns (stat: Accumulator)
    ensures stat == Bump(a, stock)
  {
    stat := a;
    if stock.changePercent > CLASSIFY_THRESHOLD {
      stat := stat.(stockCount := stat.stockCount + 1);
      if stock.isLimitUp {
        stat := stat.(limitUpCount := stat.limitUpCount + 1);
      }
    }
    if stock.changePercent > HEAT_RISING_THRESHOLD {
      stat := stat.(risingCount := stat.risingCount + 1);
    }
  }

  lemma {:induction false} TallyStockCounts(t: Tally, stock: StockQuoteInput, rs: seq<TopicRelation>,
                                            totals: Totals, s: Setting, topicID: int)
    ensures var t', m := TallyStock(t, stock, rs, totals, s), Mentions(rs, s, topicID);
            var a, a' := StatOf(t.stats, topicID), StatOf(t'.stats, topicID);
            && (topicID in t'.stats <==> topicID in t.stats || (Tracked(totals, topicID) && m > 0))
            && (Tracked(totals, topicID) ==>
                  && a'.stockCount == a.stockCount + (if IsOfKind(stock, Strong) then m else 0)
                  && a'.limitUpCount == a.limitUpCount + (if IsOfKind(stock, SealedStrong) then m else 0)
                  && a'.risingCount == a.risingCount + (if IsOfKind(stock, Rising) then m else 0))
            && (topicID in t'.missing <==> topicID in t.missing || (!Unavailable(totals) && topicID !in totals && m > 0))
  {
    if rs != [] {
      TallyStockCounts(t, stock, rs[..|rs| - 1], totals, s, topicID);
    }
  }

  /** The accumulators hold the plain counts, for exactly the tracked topics mentioned. */
  lemma {:induction false} TallyCounts(stocks: seq<StockQuoteInput>, relations: Relations, totals: Totals,
                                       s: Setting, topicID: int)
    ensures var t := TallyAll(stocks, relations, totals, s);
            var hits := Count(stocks, relations, s, topicID, Any);
            && (topicID in t.stats <==> Tracked(totals, topicID) && hits > 0)
            && (Tracked(totals, topicID) ==>
                  StatOf(t.stats, topicID) == Accumulator(Count(stocks, relations, s, topicID, Strong),
                                                          Count(stocks, relations, s, topicID, SealedStrong),
                                                          Count(stocks, relations, s, topicID, Rising)))
            && (topicID in t.missing <==> !Unavailable(totals) && topicID !in totals && hits > 0)
  {
    if stocks != [] {
      var stock := stocks[|stocks| - 1];
      var prefix := stocks[..|stocks| - 1];
      TallyCounts(prefix, relations, totals, s, topicID);
      TallyStockCounts(TallyAll(prefix, relations, totals, s), stock, RelationsOf(relations, stock.tsCode),
                       totals, s, topicID);
    }
  }

  // ----- buildTopicHeatMap

  function FallbackHeatScore(stat: Accumulator): real {
    stat.limitUpCount as real * 1000.0 + stat.stockCount as real * 100.0 + stat.risingCount as real
  }

  function ParticipationHeatScore(stat: Accumulator, participationRate: real): real {
    stat.limitUpCount as real * 1000.0 + stat.stockCount as real * 100.0 + participationRate * 100.0
  }

  function TotalOf(totals: Totals, topicID: int): int {
    if topicID in totals then totals[topicID] else 0
  }

  function HeatInfo(stat: Accumulator, total: int, unavailable: bool): Option<TopicHeatInfo> {
    if stat.risingCount == 0 then None
    else if unavailable then
      Some(TopicHeatInfo(0, stat.stockCount, stat.limitUpCount, stat.risingCount, 0.0, FallbackHeatScore(stat)))
    else if total <= 0 then None
    else
      var rate := stat.stockCount as real / total as real;
      Some(TopicHeatInfo(total, stat.stockCount, stat.limitUpCount, stat.risingCount, rate,
                         ParticipationHeatScore(stat, rate)))
  }

  function HeatMapOf(stats: map<int, Accumulator>, totals: Totals, unavailable: bool): HeatMap {
    map t | t in stats && HeatInfo(stats[t], TotalOf(totals, t), unavailable).Some?
      :: HeatInfo(stats[t], TotalOf(totals, t), unavailable).value
  }

  method BuildTopicHeatMap(stats: map<int, Accumulator>, totals: Totals, unavailable: bool) returns (heat: HeatMap)
    ensures heat == HeatMapOf(stats, totals, unavailable)
  {
    heat := map[];
    var todo := stats.Keys;
    while todo != {}
      invariant todo <= stats.Keys
      invariant heat.Keys == HeatMapOf(stats, totals, unavailable).Keys - todo
      invariant forall t :: t in heat ==> heat[t] == HeatMapOf(stats, totals, unavailable)[t]
      decreases |todo|
    {
      var topicID := AnyOf(todo);
      todo := todo - {topicID};
      var info := BuildHeatInfo(stats[topicID], TotalOf(totals, topicID), unavailable);
      if info.None? { continue; }
      heat := heat[topicID := info.value];
    }
  }

  method BuildHeatInfo(stat: Accumulator, total: int, unavailable: bool) returns (result: Option<TopicHeatInfo>)
    ensures result == HeatInfo(stat, total, unavailable)
  {
    if stat.risingCount == 0 { return None; }
    var info := TopicHeatInfo(0, stat.stockCount, stat.limitUpCount, stat.risingCount, 0.0, 0.0);
    if unavailable {
      info := info.(heatScore := FallbackHeatScore(stat));
    } else {
      info := info.(totalRelatedStocks := total);
      if info.totalRelatedStocks <= 0 { return None; }
      info := info.(participationRate := stat.stockCount as real / info.totalRelatedStocks as real);
      info := info.(heatScore := ParticipationHeatScore(stat, info.participationRate));
    }
    return Some(info);
  }

  // ----- calcTopicHeat

  /** Totals of the missing topics that the count table does hold. */
  function LoadedTotals(missing: set<int>, store: Totals): Totals {
    map t | t in missing && t in store :: store[t]
  }

  function Retained(stats: map<int, Accumulator>, missing: set<int>, totals: Totals): map<int, Accumulator> {
    map x | x in stats && (x in missing ==> TotalOf(totals, x) > 0) :: stats[x]
  }

  function TopicHeat(stocks: seq<StockQuoteInput>, relations: Relations, totals: Totals, store: Totals, s: Setting): HeatMap {
    var t := TallyAll(stocks, relations, totals, s);
    if Unavailable(totals) then HeatMapOf(t.stats, totals, true)
    else
      var patched := totals + LoadedTotals(t.missing, store);
      HeatMapOf(Retained(t.stats, t.missing, patched), patched, false)
  }

  /** Drops the missing topics whose patched total is not positive. */
  method DropMissing(stats0: map<int, Accumulator>, missing: set<int>, totals: Totals)
    returns (stats: map<int, Accumulator>)
    ensures stats == Retained(stats0, missing, totals)
  {
    stats := stats0;
    var todo := missing;
    while todo != {}
      invariant todo <= missing
      invariant forall x :: x in stats <==> x in stats0 && (x in missing && x !in todo ==> TotalOf(totals, x) > 0)
      invariant forall x :: x in stats ==> stats[x] == stats0[x]
      decreases |todo|
    {
      var topicID := AnyOf(todo);
      todo := todo - {topicID};
      if TotalOf(totals, topicID) <= 0 {
        stats := stats - {topicID};
      }
    }
    assert forall x :: x in stats <==> x in stats0 && (x in missing ==> TotalOf(totals, x) > 0);
    assert forall x :: x in stats <==> x in Retained(stats0, missing, totals);
    assert forall x :: x in stats ==> stats[x] == Retained(stats0, missing, totals)[x];
    SameMap(stats, Retained(stats0, missing, totals));
  }

  /** What the tables and the cache answer: None is an error. Totals of single topics are
      asked for only when the loaded totals miss some. */
  datatype Sources = Sources(totals: Option<Totals>, topicTotals: Option<Totals>, heatSaved: bool)

  predicate AsksForTotals(stocks: seq<StockQuoteInput>, relations: Relations, totals: Totals, s: Setting) {
    !Unavailable(totals) && TallyAll(stocks, relations, totals, s).missing != {}
  }

  function OrEmpty<K, V>(loaded: Option<map<K, V>>): map<K, V> {
    match loaded
    case Some(m) => m
    case None => map[]
  }

  predicate HeatFails(stocks: seq<StockQuoteInput>, relations: Relations, from: Sources, s: Setting) {
    || from.totals.None?
    || (AsksForTotals(stocks, relations, from.totals.value, s) && from.topicTotals.None?)
    || !from.heatSaved
  }

  method CalcTopicHeat(stocks: seq<StockQuoteInput>, relations: Relations, from: Sources, s: Setting)
    returns (result: Option<HeatMap>)
    ensures result == if HeatFails(stocks, relations, from, s) then None
                      else Some(TopicHeat(stocks, relations, from.totals.value, OrEmpty(from.topicTotals), s))
  {
    if from.totals.None? { return None; }
    var totals := from.totals.value;
    var countsUnavailable := |totals| == 0;
    var stats, missing := CollectTopicHeatStats(stocks, relations, totals, s);
    var totalCounts := totals;
    if !countsUnavailable && |missing| > 0 {
      if from.topicTotals.None? { return None; }
      totalCounts := totals + LoadedTotals(missing, from.topicTotals.value);
      stats := DropMissing(stats, missing, totalCounts);
    } else if !countsUnavailable {
      NothingMissing(stats, missing, totals, OrEmpty(from.topicTotals));
    }
    var heat := BuildTopicHeatMap(stats, totalCounts, countsUnavailable);
    return if from.heatSaved then Some(heat) else None;
  }

  lemma NothingMissing(stats: map<int, Accumulator>, missing: set<int>, totals: Totals, store: Totals)
    requires missing == {}
    ensures totals + LoadedTotals(missing, store) == totals && Retained(stats, missing, totals) == stats
  {
    SameMap(totals + LoadedTotals(missing, store), totals);
    SameMap(Retained(stats, missing, totals), stats);
  }

  /** The total a topic ends up with: its loaded total, else the count table's, else 0. */
  function FinalTotal(totals: Totals, store: Totals, topicID: int): int {
    if topicID in totals then totals[topicID] else TotalOf(store, topicID)
  }

  /** A topic is in the heat map exactly when some rising stock has an unfiltered relation to
      it and its final total is positive (or no totals are available), and its entry holds the
      plain counts. */
  lemma TopicHeatEntry(stocks: seq<StockQuoteInput>, relations: Relations, totals: Totals, store: Totals,
                       s: Setting, topicID: int)
    requires forall stock :: stock in stocks ==> IsOfKind(stock, Rising)
    ensures var heat := TopicHeat(stocks, relations, totals, store, s);
            var stat := Accumulator(Count(stocks, relations, s, topicID, Strong),
                                    Count(stocks, relations, s, topicID, SealedStrong),
                                    Count(stocks, relations, s, topicID, Rising));
            && (topicID in heat <==>
                  stat.risingCount > 0 && (Unavailable(totals) || FinalTotal(totals, store, topicID) > 0))
            && (topicID in heat ==>
                  Some(heat[topicID]) == HeatInfo(stat, FinalTotal(totals, store, topicID), Unavailable(totals)))
  {
    TallyCounts(stocks, relations, totals, s, topicID);
    CountChain(stocks, relations, s, topicID);
  }

  /** Every entry has LimitUpCount <= StockCount <= RisingCount and at least one rising stock. */
  lemma HeatCountChain(stocks: seq<StockQuoteInput>, relations: Relations, totals: Totals, store: Totals, s: Setting, topicID: int)
    requires forall stock :: stock in stocks ==> IsOfKind(stock, Rising)
    requires topicID in TopicHeat(stocks, relations, totals, store, s)
    ensures var info := TopicHeat(stocks, relations, totals, store, s)[topicID];
            1 <= info.risingCount && info.limitUpCount <= info.stockCount <= info.risingCount
  {
    TopicHeatEntry(stocks, relations, totals, store, s, topicID);
    CountChain(stocks, relations, s, topicID);
  }
}
