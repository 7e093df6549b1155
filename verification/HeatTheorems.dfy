/** What a classification guarantees, over every input. */
module HeatTheorems {
  import opened Wrappers
  import opened ClassifyTypes
  import opened HeatPick
  import opened HeatStats
  import opened HeatClassify

  // ----- who is classified

  ghost predicate OneOf(choice: seq<TopicRelation>, relations: seq<TopicRelation>) {
    |choice| == 1 && choice[0] in relations
  }

  ghost predicate PickableIn(stocks: seq<StockQuoteInput>, limitUp: bool, relations: Relations, heat: HeatMap,
                             s: Setting, code: string)
  {
    exists x :: x in stocks && x.tsCode == code && x.isLimitUp == limitUp && Pickable(RelationsOf(relations, code), heat, s)
  }

  ghost predicate Sound(st: State, relations: Relations) {
    && st.classified == st.results.Keys
    && forall code :: code in st.results ==> OneOf(st.results[code], RelationsOf(relations, code))
  }

  lemma PickableSnoc(stocks: seq<StockQuoteInput>, limitUp: bool, relations: Relations, heat: HeatMap, s: Setting, code: string)
    requires stocks != []
    ensures var last := stocks[|stocks| - 1];
            PickableIn(stocks, limitUp, relations, heat, s, code)
            <==> PickableIn(stocks[..|stocks| - 1], limitUp, relations, heat, s, code)
                 || (last.tsCode == code && last.isLimitUp == limitUp && Pickable(RelationsOf(relations, code), heat, s))
  {
  }

  lemma {:induction false} LimitUpPassCovers(stocks: seq<StockQuoteInput>, relations: Relations, heat: HeatMap,
                                             s: Setting, code: string)
    ensures var st := LimitUpPass(NewState, stocks, relations, heat, s);
            Sound(st, relations) && (code in st.results <==> PickableIn(stocks, true, relations, heat, s, code))
  {
    if stocks != [] {
      var prefix, last := stocks[..|stocks| - 1], stocks[|stocks| - 1];
      LimitUpPassCovers(prefix, relations, heat, s, code);
      PickableSnoc(stocks, true, relations, heat, s, code);
      PicksCover(RelationsOf(relations, last.tsCode), heat, {}, s, last.tsCode);
    }
  }

  lemma {:induction false} StrongPassCovers(st: State, stocks: seq<StockQuoteInput>, relations: Relations,
                                            heat: HeatMap, s: Setting, code: string)
    requires Sound(st, relations)
    ensures var st' := StrongPass(st, stocks, relations, heat, s);
            && Sound(st', relations) && st'.taken == st.taken
            && (code in st'.results <==> code in st.results || PickableIn(stocks, false, relations, heat, s, code))
  {
    if stocks != [] {
      var prefix, last := stocks[..|stocks| - 1], stocks[|stocks| - 1];
      StrongPassCovers(st, prefix, relations, heat, s, code);
      PickableSnoc(stocks, false, relations, heat, s, code);
      PicksCover(RelationsOf(relations, last.tsCode), heat, st.taken, s, last.tsCode);
    }
  }

  /** Why a stock can be classified, said without any heat map. */
  ghost predicate HasReason(relations: seq<TopicRelation>, totals: Totals, countStore: Totals, s: Setting) {
    exists r :: r in relations &&
      (|| r.source == "manual"
       || (s.Recent(r) && r.hitCount >= -1)
       || (s.Unfiltered(r) && (Unavailable(totals) || FinalTotal(totals, countStore, r.topicID) > 0)))
  }

  lemma HeatOfMentionedTopic(stocks: seq<StockQuoteInput>, store: Relations, totals: Totals, countStore: Totals,
                             s: Setting, stock: StockQuoteInput, r: TopicRelation)
    requires stock in stocks && InHeatUniverse(stock)
    requires r in RelationsOf(store, stock.tsCode) && s.Unfiltered(r)
    ensures RelationsOf(LoadedRelations(stocks, store), stock.tsCode) == RelationsOf(store, stock.tsCode)
    ensures r.topicID in Heat(stocks, store, totals, countStore, s)
            <==> Unavailable(totals) || FinalTotal(totals, countStore, r.topicID) > 0
    ensures r.topicID in Heat(stocks, store, totals, countStore, s) && stock.isLimitUp && InClassifyUniverse(stock) ==>
              Heat(stocks, store, totals, countStore, s)[r.topicID].limitUpCount >= 1
  {
    var heatStocks, loaded := HeatStocks(stocks), LoadedRelations(stocks, store);
    ClassifyInHeatUniverse(stocks);
    assert stock in heatStocks;
    assert stock.tsCode in TsCodes(heatStocks);
    TopicHeatEntry(heatStocks, loaded, totals, countStore, s, r.topicID);
    MentionsPositive(RelationsOf(store, stock.tsCode), s, r.topicID);
    CountAtLeastShare(heatStocks, loaded, s, r.topicID, Rising, stock);
    CountAtLeastShare(heatStocks, loaded, s, r.topicID, SealedStrong, stock);
  }

  /** A code is in the result exactly when some input stock of that code rises above 5% and
      the code has a manual relation, a recent unfiltered one, or an unfiltered one to a topic
      whose final total is positive (any, when no totals are available). The result is always
      one of the code's own relations. */
  lemma ExactCoverage(stocks: seq<StockQuoteInput>, store: Relations, totals: Totals, countStore: Totals, s: Setting, code: string)
    ensures var results := Classification(stocks, store, totals, countStore, s);
            && (code in results <==>
                  && (exists x :: x in stocks && InClassifyUniverse(x) && x.tsCode == code)
                  && HasReason(RelationsOf(store, code), totals, countStore, s))
            && (code in results ==> OneOf(results[code], RelationsOf(store, code)))
  {
    var heat, loaded, cls := Heat(stocks, store, totals, countStore, s), LoadedRelations(stocks, store), ClassifyStocks(stocks);
    LimitUpPassCovers(cls, loaded, heat, s, code);
    StrongPassCovers(PassOne(stocks, store, heat, s), cls, loaded, heat, s, code);
    ClassifyInHeatUniverse(stocks);
    if x :| x in stocks && InClassifyUniverse(x) && x.tsCode == code {
      LoadedOf(stocks, store, x);
      forall r | r in RelationsOf(store, code) && s.Unfiltered(r)
        ensures r.topicID in heat <==> Unavailable(totals) || FinalTotal(totals, countStore, r.topicID) > 0
      {
        HeatOfMentionedTopic(stocks, store, totals, countStore, s, x, r);
      }
      ReasonIsPickable(RelationsOf(store, code), heat, totals, countStore, s);
      assert PickableIn(cls, x.isLimitUp, loaded, heat, s, code) <==> Pickable(RelationsOf(loaded, code), heat, s);
    }
  }

  lemma LoadedOf(stocks: seq<StockQuoteInput>, store: Relations, x: StockQuoteInput)
    requires x in stocks && InHeatUniverse(x)
    ensures RelationsOf(LoadedRelations(stocks, store), x.tsCode) == RelationsOf(store, x.tsCode)
  {
    ClassifyInHeatUniverse(stocks);
    assert x in HeatStocks(stocks);
  }

  lemma ReasonIsPickable(relations: seq<TopicRelation>, heat: HeatMap, totals: Totals, countStore: Totals, s: Setting)
    requires forall r :: r in relations && s.Unfiltered(r) ==>
               (r.topicID in heat <==> Unavailable(totals) || FinalTotal(totals, countStore, r.topicID) > 0)
    ensures Pickable(relations, heat, s) <==> HasReason(relations, totals, countStore, s)
  {
  }

  // ----- what is chosen

  /** Some stock of a code, limit-up or not as asked. */
  ghost predicate Comes(stocks: seq<StockQuoteInput>, code: string, limitUp: bool) {
    exists x :: x in stocks && x.tsCode == code && x.isLimitUp == limitUp
  }

  lemma ComesSnoc(stocks: seq<StockQuoteInput>, code: string, limitUp: bool)
    requires stocks != []
    ensures var last := stocks[|stocks| - 1];
            Comes(stocks, code, limitUp)
            <==> Comes(stocks[..|stocks| - 1], code, limitUp) || (last.tsCode == code && last.isLimitUp == limitUp)
  {
    var prefix, last := stocks[..|stocks| - 1], stocks[|stocks| - 1];
    assert forall x :: x in stocks <==> x in prefix || x == last;
  }

  ghost predicate TakenBy(stocks: seq<StockQuoteInput>, relations: Relations, heat: HeatMap, s: Setting, topicID: int) {
    exists x :: x in stocks && x.isLimitUp
      && PickForLimitUp(RelationsOf(relations, x.tsCode), heat, s, x.tsCode).Some?
      && PickForLimitUp(RelationsOf(relations, x.tsCode), heat, s, x.tsCode).value.topicID == topicID
  }

  /** What is chosen for a code, given the topics taken by limit-up stocks: if any of its stocks
      is limit-up the limit-up path decides, else the strong path. */
  ghost function Verdict(stocks: seq<StockQuoteInput>, relations: Relations, heat: HeatMap, taken: set<int>, s: Setting,
                         code: string): Option<TopicRelation> {
    if Comes(stocks, code, true) then PickForLimitUp(RelationsOf(relations, code), heat, s, code)
    else if Comes(stocks, code, false) then PickForStrong(RelationsOf(relations, code), heat, taken, s, code)
    else None
  }

  ghost predicate Holds(results: map<string, seq<TopicRelation>>, code: string, verdict: Option<TopicRelation>) {
    if verdict.Some? then code in results && results[code] == [verdict.value] else code !in results
  }

  lemma {:induction false} LimitUpPassTakes(stocks: seq<StockQuoteInput>, relations: Relations, heat: HeatMap, s: Setting)
    ensures forall t :: t in LimitUpPass(NewState, stocks, relations, heat, s).taken <==> TakenBy(stocks, relations, heat, s, t)
  {
    if stocks != [] {
      var prefix, last := stocks[..|stocks| - 1], stocks[|stocks| - 1];
      LimitUpPassTakes(prefix, relations, heat, s);
      assert forall x :: x in stocks <==> x in prefix || x == last;
    }
  }

  lemma {:induction false} LimitUpPassChooses(stocks: seq<StockQuoteInput>, relations: Relations, heat: HeatMap, s: Setting, code: string)
    ensures var st := LimitUpPass(NewState, stocks, relations, heat, s);
            && st.classified == st.results.Keys
            && Holds(st.results, code, if Comes(stocks, code, true)
                                       then PickForLimitUp(RelationsOf(relations, code), heat, s, code) else None)
  {
    if stocks != [] {
      LimitUpPassChooses(stocks[..|stocks| - 1], relations, heat, s, code);
      ComesSnoc(stocks, code, true);
    }
  }

  lemma {:induction false} StrongPassChooses(st: State, stocks: seq<StockQuoteInput>, relations: Relations,
                                             heat: HeatMap, s: Setting, code: string)
    requires st.classified == st.results.Keys
    ensures var st' := StrongPass(st, stocks, relations, heat, s);
            && st'.taken == st.taken && st'.classified == st'.results.Keys
            && if code in st.results then code in st'.results && st'.results[code] == st.results[code]
               else Holds(st'.results, code, if Comes(stocks, code, false)
                          then PickForStrong(RelationsOf(relations, code), heat, st.taken, s, code) else None)
  {
    if stocks != [] {
      StrongPassChooses(st, stocks[..|stocks| - 1], relations, heat, s, code);
      ComesSnoc(stocks, code, false);
    }
  }

  /** The two passes together: if the limit-up path picks nothing, the strong path does not either. */
  lemma PassesChoose(stocks: seq<StockQuoteInput>, relations: Relations, heat: HeatMap, s: Setting, code: string)
    ensures var one := LimitUpPass(NewState, stocks, relations, heat, s);
            Holds(StrongPass(one, stocks, relations, heat, s).results, code,
                  Verdict(stocks, relations, heat, one.taken, s, code))
  {
    var one := LimitUpPass(NewState, stocks, relations, heat, s);
    LimitUpPassChooses(stocks, relations, heat, s, code);
    StrongPassChooses(one, stocks, relations, heat, s, code);
    PicksCover(RelationsOf(relations, code), heat, one.taken, s, code);
  }

  /** The result for a code is its verdict: by the limit-up path if any of its classified stocks
      is limit-up, else by the strong path, given the set of topics the limit-up stocks took, and
      nothing else of the run. */
  lemma ClassificationIsVerdict(stocks: seq<StockQuoteInput>, store: Relations, totals: Totals, countStore: Totals,
                                s: Setting, code: string)
    ensures var heat := Heat(stocks, store, totals, countStore, s);
            Holds(Classification(stocks, store, totals, countStore, s), code,
                  Verdict(ClassifyStocks(stocks), store, heat, PassOne(stocks, store, heat, s).taken, s, code))
  {
    var heat, cls, loaded := Heat(stocks, store, totals, countStore, s), ClassifyStocks(stocks), LoadedRelations(stocks, store);
    PassesChoose(cls, loaded, heat, s, code);
    if x :| x in cls && x.tsCode == code {
      ClassifyInHeatUniverse(stocks);
      LoadedOf(stocks, store, x);
    }
  }

  /** What the limit-up path picks is one of the topics taken. */
  lemma PickIsTaken(stocks: seq<StockQuoteInput>, store: Relations, heat: HeatMap, s: Setting, x: StockQuoteInput)
    requires x in ClassifyStocks(stocks) && x.isLimitUp
    ensures var pick := PickForLimitUp(RelationsOf(store, x.tsCode), heat, s, x.tsCode);
            pick.Some? ==> pick.value.topicID in PassOne(stocks, store, heat, s).taken
  {
    ClassifyInHeatUniverse(stocks);
    LoadedOf(stocks, store, x);
    LimitUpPassTakes(ClassifyStocks(stocks), LoadedRelations(stocks, store), heat, s);
  }

  ghost predicate OnlyByHeat(store: Relations, s: Setting, code: string) {
    PickManual(RelationsOf(store, code)).None? && PickRecent(RelationsOf(store, code), s, code).None?
  }

  /** Alignment, first half: the code of a limit-up stock, without a manual or recent relation,
      gets a topic that at least one limit-up stock confirms. */
  lemma LimitUpTopicIsConfirmed(stocks: seq<StockQuoteInput>, store: Relations, totals: Totals, countStore: Totals,
                                s: Setting, x: StockQuoteInput)
    requires x in stocks && InClassifyUniverse(x) && x.isLimitUp && OnlyByHeat(store, s, x.tsCode)
    ensures var heat, results := Heat(stocks, store, totals, countStore, s), Classification(stocks, store, totals, countStore, s);
            x.tsCode in results ==>
              |results[x.tsCode]| == 1 && results[x.tsCode][0].topicID in heat
              && heat[results[x.tsCode][0].topicID].limitUpCount >= 1
  {
    var heat := Heat(stocks, store, totals, countStore, s);
    ClassifyInHeatUniverse(stocks);
    ClassificationIsVerdict(stocks, store, totals, countStore, s, x.tsCode);
    assert Comes(ClassifyStocks(stocks), x.tsCode, true);
    var best := PickBest(RelationsOf(store, x.tsCode), heat, None, true, s);
    if best.Some? {
      HeatOfMentionedTopic(stocks, store, totals, countStore, s, x, best.value);
    }
  }

  /** Alignment, second half: a code without a manual or recent relation that has an eligible
      topic among those taken by limit-up stocks gets one of those. */
  lemma StrongStockAligns(stocks: seq<StockQuoteInput>, store: Relations, totals: Totals, countStore: Totals,
                          s: Setting, x: StockQuoteInput)
    requires x in stocks && InClassifyUniverse(x) && OnlyByHeat(store, s, x.tsCode)
    ensures var heat, results := Heat(stocks, store, totals, countStore, s), Classification(stocks, store, totals, countStore, s);
            var taken := PassOne(stocks, store, heat, s).taken;
            (exists r :: r in RelationsOf(store, x.tsCode) && Eligible(r, heat, Some(taken), s))
            ==> x.tsCode in results && |results[x.tsCode]| == 1 && results[x.tsCode][0].topicID in taken
  {
    var heat := Heat(stocks, store, totals, countStore, s);
    var taken, relations := PassOne(stocks, store, heat, s).taken, RelationsOf(store, x.tsCode);
    ClassifyInHeatUniverse(stocks);
    ClassificationIsVerdict(stocks, store, totals, countStore, s, x.tsCode);
    PickBestIsFirstMaximum(relations, heat, Some(taken), true, s);
    if y :| y in ClassifyStocks(stocks) && y.tsCode == x.tsCode && y.isLimitUp {
      PickBestIsFirstMaximum(relations, heat, None, true, s);
      PickIsTaken(stocks, store, heat, s, y);
      if r :| r in relations && Eligible(r, heat, Some(taken), s) {
        assert Eligible(r, heat, None, s);
      }
    } else {
      assert Comes(ClassifyStocks(stocks), x.tsCode, false);
    }
  }

  // ----- order independence

  lemma {:induction false} HeatStocksCount(stocks: seq<StockQuoteInput>, x: StockQuoteInput)
    ensures multiset(HeatStocks(stocks))[x] == if InHeatUniverse(x) then multiset(stocks)[x] else 0
  {
    if stocks != [] {
      var prefix, last := stocks[..|stocks| - 1], stocks[|stocks| - 1];
      HeatStocksCount(prefix, x);
      assert stocks == prefix + [last];
    }
  }

  lemma HeatStocksPermute(a: seq<StockQuoteInput>, b: seq<StockQuoteInput>)
    requires multiset(a) == multiset(b)
    ensures multiset(HeatStocks(a)) == multiset(HeatStocks(b))
    ensures TsCodes(HeatStocks(a)) == TsCodes(HeatStocks(b))
  {
    forall x ensures multiset(HeatStocks(a))[x] == multiset(HeatStocks(b))[x] {
      HeatStocksCount(a, x);
      HeatStocksCount(b, x);
    }
    forall x ensures x in HeatStocks(a) <==> x in HeatStocks(b) {
      assert x in HeatStocks(a) <==> x in multiset(HeatStocks(a));
      assert x in HeatStocks(b) <==> x in multiset(HeatStocks(b));
    }
  }

  lemma HeatPermutes(a: seq<StockQuoteInput>, b: seq<StockQuoteInput>, store: Relations, totals: Totals,
                     countStore: Totals, s: Setting)
    requires multiset(a) == multiset(b)
    ensures Heat(a, store, totals, countStore, s) == Heat(b, store, totals, countStore, s)
  {
    var ha, hb, relations := HeatStocks(a), HeatStocks(b), LoadedRelations(a, store);
    HeatStocksPermute(a, b);
    ClassifyInHeatUniverse(a);
    ClassifyInHeatUniverse(b);
    var ma, mb := TopicHeat(ha, relations, totals, countStore, s), TopicHeat(hb, relations, totals, countStore, s);
    forall t ensures (t in ma <==> t in mb) && (t in ma ==> ma[t] == mb[t]) {
      CountPermutes(ha, hb, relations, s, t, Strong);
      CountPermutes(ha, hb, relations, s, t, SealedStrong);
      CountPermutes(ha, hb, relations, s, t, Rising);
      TopicHeatEntry(ha, relations, totals, countStore, s, t);
      TopicHeatEntry(hb, relations, totals, countStore, s, t);
    }
    SameMap(ma, mb);
  }

  lemma ClassifyStocksPermute(a: seq<StockQuoteInput>, b: seq<StockQuoteInput>)
    requires multiset(a) == multiset(b)
    ensures forall x :: x in ClassifyStocks(a) <==> x in ClassifyStocks(b)
  {
    ClassifyInHeatUniverse(a);
    ClassifyInHeatUniverse(b);
    assert forall x :: (x in a <==> x in multiset(a)) && (x in b <==> x in multiset(b));
  }

  lemma TakenByMembers(a: seq<StockQuoteInput>, b: seq<StockQuoteInput>, relations: Relations, heat: HeatMap,
                       s: Setting, topicID: int)
    requires forall x :: x in a <==> x in b
    ensures TakenBy(a, relations, heat, s, topicID) <==> TakenBy(b, relations, heat, s, topicID)
  {
  }

  lemma TakenPermutes(a: seq<StockQuoteInput>, b: seq<StockQuoteInput>, store: Relations, heat: HeatMap, s: Setting)
    requires multiset(a) == multiset(b)
    ensures PassOne(a, store, heat, s).taken == PassOne(b, store, heat, s).taken
  {
    var ca, cb, relations := ClassifyStocks(a), ClassifyStocks(b), LoadedRelations(a, store);
    HeatStocksPermute(a, b);
    ClassifyStocksPermute(a, b);
    var ta, tb := LimitUpPass(NewState, ca, relations, heat, s).taken, LimitUpPass(NewState, cb, relations, heat, s).taken;
    forall t ensures t in ta <==> t in tb {
      LimitUpPassTakes(ca, relations, heat, s);
      LimitUpPassTakes(cb, relations, heat, s);
      TakenByMembers(ca, cb, relations, heat, s, t);
    }
    SameSet(ta, tb);
  }

  lemma ComesPermutes(a: seq<StockQuoteInput>, b: seq<StockQuoteInput>, code: string, limitUp: bool)
    requires multiset(a) == multiset(b)
    ensures Comes(ClassifyStocks(a), code, limitUp) <==> Comes(ClassifyStocks(b), code, limitUp)
  {
    ClassifyStocksPermute(a, b);
  }

  /** Permuting the input stocks changes neither the heat map nor the classification, whatever
      copies of a code the input holds. */
  lemma OrderIndependence(a: seq<StockQuoteInput>, b: seq<StockQuoteInput>, store: Relations, totals: Totals,
                          countStore: Totals, s: Setting)
    requires multiset(a) == multiset(b)
    ensures Heat(a, store, totals, countStore, s) == Heat(b, store, totals, countStore, s)
    ensures Classification(a, store, totals, countStore, s) == Classification(b, store, totals, countStore, s)
  {
    HeatPermutes(a, b, store, totals, countStore, s);
    TakenPermutes(a, b, store, Heat(a, store, totals, countStore, s), s);
    var ra, rb := Classification(a, store, totals, countStore, s), Classification(b, store, totals, countStore, s);
    forall code ensures (code in ra <==> code in rb) && (code in ra ==> ra[code] == rb[code]) {
      ClassificationIsVerdict(a, store, totals, countStore, s, code);
      ClassificationIsVerdict(b, store, totals, countStore, s, code);
      ComesPermutes(a, b, code, true);
      ComesPermutes(a, b, code, false);
    }
    SameMap(ra, rb);
  }

  // ----- tie-breaks that never decide

  /** In limit-up mode the heat score never decides between two topics of one heat map that
      was built with totals. */
  lemma HeatScoreNeverDecides(stocks: seq<StockQuoteInput>, store: Relations, totals: Totals, countStore: Totals,
                              s: Setting, t1: int, t2: int)
    requires !Unavailable(totals)
    requires var heat := Heat(stocks, store, totals, countStore, s); t1 in heat && t2 in heat
    ensures var heat := Heat(stocks, store, totals, countStore, s);
            var a, b := heat[t1], heat[t2];
            a.limitUpCount == b.limitUpCount && a.stockCount == b.stockCount && a.participationRate == b.participationRate
            ==> a.heatScore == b.heatScore
  {
  }

  /** In heat mode the last two tie-breaks never decide when no topic has more strong stocks
      than its total. */
  lemma LastTieBreaksNeverDecide(stocks: seq<StockQuoteInput>, store: Relations, totals: Totals, countStore: Totals,
                                 s: Setting, t1: int, t2: int)
    requires !Unavailable(totals)
    requires var heat := Heat(stocks, store, totals, countStore, s);
             && t1 in heat && t2 in heat
             && heat[t1].stockCount <= heat[t1].totalRelatedStocks && heat[t2].stockCount <= heat[t2].totalRelatedStocks
    ensures var heat := Heat(stocks, store, totals, countStore, s);
            var a, b := heat[t1], heat[t2];
            a.heatScore == b.heatScore && a.stockCount == b.stockCount
            ==> a.limitUpCount == b.limitUpCount && a.participationRate == b.participationRate
  {
    var heat := Heat(stocks, store, totals, countStore, s);
    ClassifyInHeatUniverse(stocks);
    TopicHeatEntry(HeatStocks(stocks), LoadedRelations(stocks, store), totals, countStore, s, t1);
    TopicHeatEntry(HeatStocks(stocks), LoadedRelations(stocks, store), totals, countStore, s, t2);
    RateAtMostOne(heat[t1].stockCount, heat[t1].totalRelatedStocks);
    RateAtMostOne(heat[t2].stockCount, heat[t2].totalRelatedStocks);
  }

  lemma RateAtMostOne(n: nat, total: int)
    requires n <= total && total > 0
    ensures 0.0 <= n as real / total as real <= 1.0
  {
  }
}
