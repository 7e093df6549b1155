/** The heat map told by sets of stocks: how many rise, are strong and are sealed among those that
    have an unfiltered relation to a topic. */
module HeatCounts {
  import opened Wrappers
  import opened ClassifyTypes
  import opened HeatStats
  import opened HeatClassify

  predicate Tells(store: Relations, x: StockQuoteInput, s: Setting, t: int) {
    exists r :: r in RelationsOf(store, x.tsCode) && r.topicName !in s.filtered && r.topicID == t
  }

  predicate DistinctTopics(relations: seq<TopicRelation>) {
    forall i, j :: 0 <= i < j < |relations| ==> relations[i].topicID != relations[j].topicID
  }

  predicate DistinctCodes(stocks: seq<StockQuoteInput>) {
    forall i, j :: 0 <= i < j < |stocks| ==> stocks[i].tsCode != stocks[j].tsCode
  }

  lemma {:induction false} MentionsOnce(relations: seq<TopicRelation>, s: Setting, t: int)
    requires DistinctTopics(relations)
    ensures Mentions(relations, s, t) <= 1
    ensures Mentions(relations, s, t) == 1 <==> exists r :: r in relations && r.topicName !in s.filtered && r.topicID == t
  {
    if relations != [] {
      var prefix, last := relations[..|relations| - 1], relations[|relations| - 1];
      assert forall i :: 0 <= i < |prefix| ==> prefix[i] == relations[i];
      MentionsOnce(prefix, s, t);
      assert forall r :: r in relations <==> r in prefix || r == last;
      assert last.topicID == t ==> forall r :: r in prefix ==> r.topicID != t;
    }
  }

  /** Rising is above 3%, strong above 5%, sealed strong and limit-up. */
  predicate Fits(x: StockQuoteInput, kind: Kind) {
    && x.tsCode != "" && x.changePercent > (if kind.Strong? || kind.SealedStrong? then 500 else 300)
    && (kind.SealedStrong? ==> x.isLimitUp)
  }

  /** The stocks of a kind that tell of a topic. */
  function Counted(stocks: seq<StockQuoteInput>, store: Relations, s: Setting, t: int, kind: Kind): set<StockQuoteInput> {
    set x | x in stocks && Fits(x, kind) && Tells(store, x, s, t)
  }

  lemma CountedSnoc(stocks: seq<StockQuoteInput>, x: StockQuoteInput, store: Relations, s: Setting, t: int, kind: Kind)
    requires x !in stocks
    ensures |Counted(stocks + [x], store, s, t, kind)|
            == |Counted(stocks, store, s, t, kind)| + if Fits(x, kind) && Tells(store, x, s, t) then 1 else 0
  {
    var before, after := Counted(stocks, store, s, t, kind), Counted(stocks + [x], store, s, t, kind);
    SameSet(after, if Fits(x, kind) && Tells(store, x, s, t) then before + {x} else before);
  }

  lemma CountSnoc(stocks: seq<StockQuoteInput>, x: StockQuoteInput, store: Relations, s: Setting, t: int, kind: Kind)
    requires DistinctTopics(RelationsOf(store, x.tsCode)) && !kind.Any?
    ensures Count(HeatStocks(stocks + [x]), store, s, t, kind)
            == Count(HeatStocks(stocks), store, s, t, kind) + if Fits(x, kind) && Tells(store, x, s, t) then 1 else 0
  {
    var before := HeatStocks(stocks);
    HeatStocksSnoc(stocks, x);
    CountOneMore(before, x, store, s, t, kind);
    ShareOnce(x, store, s, t, kind);
  }

  lemma ShareOnce(x: StockQuoteInput, store: Relations, s: Setting, t: int, kind: Kind)
    requires DistinctTopics(RelationsOf(store, x.tsCode)) && !kind.Any?
    ensures InHeatUniverse(x) ==> Share(x, store, s, t, kind) == if Fits(x, kind) && Tells(store, x, s, t) then 1 else 0
    ensures Fits(x, kind) ==> InHeatUniverse(x)
  {
    MentionsOnce(RelationsOf(store, x.tsCode), s, t);
  }

  lemma HeatStocksSnoc(stocks: seq<StockQuoteInput>, x: StockQuoteInput)
    ensures HeatStocks(stocks + [x]) == if InHeatUniverse(x) then HeatStocks(stocks) + [x] else HeatStocks(stocks)
  {
    assert (stocks + [x])[..|stocks|] == stocks;
  }

  /** The plain counts are sizes of sets of stocks. */
  lemma {:induction false} CountIsSize(stocks: seq<StockQuoteInput>, store: Relations, s: Setting, t: int, kind: Kind)
    requires DistinctCodes(stocks) && !kind.Any? && forall code :: code in store ==> DistinctTopics(store[code])
    ensures Count(HeatStocks(stocks), store, s, t, kind) == |Counted(stocks, store, s, t, kind)|
  {
    if stocks == [] {
      assert Counted(stocks, store, s, t, kind) == {};
    } else {
      var prefix, x := stocks[..|stocks| - 1], stocks[|stocks| - 1];
      assert stocks == prefix + [x];
      assert forall i :: 0 <= i < |prefix| ==> prefix[i] == stocks[i];
      CountIsSize(prefix, store, s, t, kind);
      CountSnoc(prefix, x, store, s, t, kind);
      CountedSnoc(prefix, x, store, s, t, kind);
    }
  }

  lemma {:induction false} LoadedCounts(heatStocks: seq<StockQuoteInput>, store: Relations, tsCodes: set<string>,
                                        s: Setting, t: int, kind: Kind)
    requires TsCodes(heatStocks) <= tsCodes
    ensures Count(heatStocks, Load(store, tsCodes), s, t, kind) == Count(heatStocks, store, s, t, kind)
  {
    if heatStocks != [] {
      var prefix, x := heatStocks[..|heatStocks| - 1], heatStocks[|heatStocks| - 1];
      assert x in heatStocks && x.tsCode in TsCodes(heatStocks);
      assert TsCodes(prefix) <= TsCodes(heatStocks);
      LoadedCounts(prefix, store, tsCodes, s, t, kind);
    }
  }

  /** The total a topic is measured by: the loaded one, else that of the count table, else none. */
  function Total(totals: Totals, countStore: Totals, t: int): int {
    if t in totals then totals[t] else if t in countStore then countStore[t] else 0
  }

  /** One entry of the heat map, for stocks with distinct codes and relations with distinct topics:
      when it exists, its counts, its rate and its score. */
  lemma HeatEntry(stocks: seq<StockQuoteInput>, store: Relations, totals: Totals, countStore: Totals, s: Setting, t: int)
    requires DistinctCodes(stocks) && forall code :: code in store ==> DistinctTopics(store[code])
    ensures var heat := Heat(stocks, store, totals, countStore, s);
            var rising, strong, limitUp := |Counted(stocks, store, s, t, Rising)|,
                                           |Counted(stocks, store, s, t, Strong)|, |Counted(stocks, store, s, t, SealedStrong)|;
            var total := Total(totals, countStore, t);
            && (t in heat <==> rising > 0 && (totals == map[] || total > 0))
            && (t in heat ==>
                  && heat[t].limitUpCount == limitUp && heat[t].stockCount == strong && heat[t].risingCount == rising
                  && if totals == map[] then
                       && heat[t].totalRelatedStocks == 0 && heat[t].participationRate == 0.0
                       && heat[t].heatScore == 1000.0 * limitUp as real + 100.0 * strong as real + rising as real
                     else
                       && heat[t].totalRelatedStocks == total && heat[t].participationRate == strong as real / total as real
                       && heat[t].heatScore == 1000.0 * limitUp as real + 100.0 * strong as real
                                               + 100.0 * (strong as real / total as real))
  {
    ClassifyInHeatUniverse(stocks);
    CountIsSize(stocks, store, s, t, Rising);
    CountIsSize(stocks, store, s, t, Strong);
    CountIsSize(stocks, store, s, t, SealedStrong);
    var heatStocks := HeatStocks(stocks);
    LoadedCounts(heatStocks, store, TsCodes(heatStocks), s, t, Rising);
    LoadedCounts(heatStocks, store, TsCodes(heatStocks), s, t, Strong);
    LoadedCounts(heatStocks, store, TsCodes(heatStocks), s, t, SealedStrong);
    TopicHeatEntry(heatStocks, LoadedRelations(stocks, store), totals, countStore, s, t);
  }

  // ----- when a run fails

  lemma {:induction false} CountPositive(stocks: seq<StockQuoteInput>, relations: Relations, s: Setting, t: int)
    ensures Count(stocks, relations, s, t, Any) > 0 <==> exists x :: x in stocks && Tells(relations, x, s, t)
  {
    if stocks != [] {
      var prefix, last := stocks[..|stocks| - 1], stocks[|stocks| - 1];
      CountPositive(prefix, relations, s, t);
      MentionsPositive(RelationsOf(relations, last.tsCode), s, t);
      assert Share(last, relations, s, t, Any) > 0 <==> Tells(relations, last, s, t);
      assert last in stocks && forall x :: x in prefix ==> x in stocks;
      if x :| x in stocks && Tells(relations, x, s, t) {
        assert x in prefix || x == last;
      }
    }
  }

  predicate Risen(x: StockQuoteInput) {
    x.tsCode != "" && x.changePercent > 300
  }

  /** Some risen stock has no cached relation. */
  ghost predicate NeedsTable(stocks: seq<StockQuoteInput>, cache: Relations) {
    exists x :: x in stocks && Risen(x) && (x.tsCode !in cache || cache[x.tsCode] == [])
  }

  ghost predicate SomeTells(stocks: seq<StockQuoteInput>, store: Relations, s: Setting, t: int) {
    exists x :: x in stocks && Risen(x) && Tells(store, x, s, t)
  }

  /** Some risen stock tells of a topic without a loaded total. */
  ghost predicate NeedsTotals(stocks: seq<StockQuoteInput>, store: Relations, totals: Totals, s: Setting) {
    totals != map[] && exists t :: t !in totals && SomeTells(stocks, store, s, t)
  }

  lemma MissingIff(stocks: seq<StockQuoteInput>, store: Relations, totals: Totals, s: Setting, t: int)
    ensures t in TallyAll(HeatStocks(stocks), LoadedRelations(stocks, store), totals, s).missing
            <==> totals != map[] && t !in totals && SomeTells(stocks, store, s, t)
  {
    var heatStocks := HeatStocks(stocks);
    TallyCounts(heatStocks, LoadedRelations(stocks, store), totals, s, t);
    LoadedCounts(heatStocks, store, TsCodes(heatStocks), s, t, Any);
    CountPositive(heatStocks, store, s, t);
    RisenTells(stocks, store, s, t);
  }

  lemma RisenTells(stocks: seq<StockQuoteInput>, store: Relations, s: Setting, t: int)
    ensures (exists x :: x in HeatStocks(stocks) && Tells(store, x, s, t)) <==> SomeTells(stocks, store, s, t)
  {
    ClassifyInHeatUniverse(stocks);
  }

  lemma AsksIff(stocks: seq<StockQuoteInput>, store: Relations, totals: Totals, s: Setting)
    ensures AsksForTotals(HeatStocks(stocks), LoadedRelations(stocks, store), totals, s) <==> NeedsTotals(stocks, store, totals, s)
  {
    var missing := TallyAll(HeatStocks(stocks), LoadedRelations(stocks, store), totals, s).missing;
    if NeedsTotals(stocks, store, totals, s) {
      var t :| t !in totals && SomeTells(stocks, store, s, t);
      MissingIff(stocks, store, totals, s, t);
      assert t in missing;
    } else {
      forall t ensures t !in missing {
        MissingIff(stocks, store, totals, s, t);
        if SomeTells(stocks, store, s, t) && totals != map[] { assert t in totals; }
      }
      SameSet(missing, {});
    }
  }

  /** A run with something to classify fails exactly when the relation table is needed and
      fails, the totals fail, single totals are needed and fail, or the heat map is not saved. */
  lemma RunFailsIff(stocks: seq<StockQuoteInput>, a: Answers, s: Setting)
    ensures Fails(stocks, a, s) <==>
              || (a.table.None? && NeedsTable(stocks, a.cache))
              || a.from.totals.None?
              || (a.from.topicTotals.None? && NeedsTotals(stocks, a.Store(), a.from.totals.value, s))
              || !a.from.heatSaved
  {
    ClassifyInHeatUniverse(stocks);
    var uncached := Uncached(a.cache, TsCodes(HeatStocks(stocks)));
    if NeedsTable(stocks, a.cache) {
      var x :| x in stocks && Risen(x) && (x.tsCode !in a.cache || a.cache[x.tsCode] == []);
      assert x.tsCode in uncached;
    }
    if code :| code in uncached {
      var x :| x in HeatStocks(stocks) && x.tsCode == code;
      assert NeedsTable(stocks, a.cache);
    }
    if a.from.totals.Some? {
      AsksIff(stocks, a.Store(), a.from.totals.value, s);
    }
  }

  /** The relations of a code: the cached ones, or those of the table if none is cached. */
  lemma CachedBeforeTable(a: Answers, code: string)
    ensures RelationsOf(a.Store(), code)
         == if code in a.cache && a.cache[code] != [] then a.cache[code]
            else if a.table.Some? && code in a.table.value then a.table.value[code]
            else []
  {
  }
}
