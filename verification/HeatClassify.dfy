/** The two-pass heat classifier (ClassifyBySimpleHeat in
    internal/service/classify/heat_classify.go), proved equal to Classification. What the
    classification guarantees is in HeatTheorems. */
module HeatClassify {
  import opened Wrappers
  import opened ClassifyTypes
  import opened HeatPick
  import opened HeatStats

  // ----- the universe

  predicate InHeatUniverse(stock: StockQuoteInput) {
    stock.tsCode != "" && stock.changePercent > HEAT_RISING_THRESHOLD
  }

  predicate InClassifyUniverse(stock: StockQuoteInput) {
    stock.tsCode != "" && stock.changePercent > CLASSIFY_THRESHOLD
  }

  function HeatStocks(stocks: seq<StockQuoteInput>): seq<StockQuoteInput> {
    if stocks == [] then []
    else
      var stock := stocks[|stocks| - 1];
      HeatStocks(stocks[..|stocks| - 1]) + if InHeatUniverse(stock) then [stock] else []
  }

  function ClassifyStocks(stocks: seq<StockQuoteInput>): seq<StockQuoteInput> {
    if stocks == [] then []
    else
      var stock := stocks[|stocks| - 1];
      ClassifyStocks(stocks[..|stocks| - 1]) + if InClassifyUniverse(stock) then [stock] else []
  }

  function TsCodes(stocks: seq<StockQuoteInput>): set<string> {
    set stock | stock in stocks :: stock.tsCode
  }

  /** Relations are loaded only for the codes asked for. */
  function Load(store: Relations, tsCodes: set<string>): Relations {
    map code | code in tsCodes && code in store :: store[code]
  }

  /** The relations of a code: the cached ones if there are any, else those of the table. */
  function TopicsFrom(cache: Relations, table: Relations): Relations {
    map code | code in cache.Keys + table.Keys ::
      if RelationsOf(cache, code) != [] || code !in table then RelationsOf(cache, code) else table[code]
  }

  /** The codes without a cached relation. */
  function Uncached(cache: Relations, tsCodes: set<string>): set<string> {
    set code | code in tsCodes && RelationsOf(cache, code) == []
  }

  lemma LoadedTopics(cache: Relations, table: Relations, tsCodes: set<string>)
    ensures Load(cache, tsCodes) + Load(table, Uncached(cache, tsCodes)) == Load(TopicsFrom(cache, table), tsCodes)
  {
    var results := Load(cache, tsCodes) + Load(table, Uncached(cache, tsCodes));
    SameMap(results, Load(TopicsFrom(cache, table), tsCodes));
  }

  lemma WritebackKeepsTopics(cache: Relations, table: Relations, tsCodes: set<string>)
    ensures TopicsFrom(cache + Load(table, Uncached(cache, tsCodes)), table) == TopicsFrom(cache, table)
  {
    SameMap(TopicsFrom(cache + Load(table, Uncached(cache, tsCodes)), table), TopicsFrom(cache, table));
  }

  lemma ElementsSnoc(tsCodes: seq<string>, code: string)
    ensures Elements(tsCodes + [code]) == Elements(tsCodes) + {code}
  {
    SameSet(Elements(tsCodes + [code]), Elements(tsCodes) + {code});
  }

  lemma UncachedAdd(found: Relations, tsCodes: set<string>, code: string)
    ensures Uncached(found, tsCodes + {code})
            == if RelationsOf(found, code) == [] then Uncached(found, tsCodes) + {code} else Uncached(found, tsCodes)
  {
  }

  method MissingCodes(found: Relations, tsCodes: seq<string>) returns (missing: seq<string>)
    ensures Elements(missing) == Uncached(found, Elements(tsCodes))
    ensures missing == [] <==> Elements(missing) == {}
  {
    missing := [];
    for i := 0 to |tsCodes|
      invariant Elements(missing) == Uncached(found, Elements(tsCodes[..i]))
    {
      assert tsCodes[..i + 1] == tsCodes[..i] + [tsCodes[i]];
      ElementsSnoc(tsCodes[..i], tsCodes[i]);
      ElementsSnoc(missing, tsCodes[i]);
      UncachedAdd(found, Elements(tsCodes[..i]), tsCodes[i]);
      if RelationsOf(found, tsCodes[i]) == [] {
        missing := missing + [tsCodes[i]];
      }
    }
    assert tsCodes[..|tsCodes|] == tsCodes;
    if missing != [] {
      assert missing[0] in Elements(missing);
    }
  }

  /** Cached relations first; the table is asked only for codes that have none, and its answer
      is written back, which changes no later answer. No table stands for a failing one. */
  method LoadStockTopicsBatch(cache: Relations, table: Option<Relations>, tsCodes: seq<string>)
    returns (results: Option<Relations>, cached: Relations)
    ensures results == if table.None? && Uncached(cache, Elements(tsCodes)) != {} then None
                       else Some(Load(TopicsFrom(cache, OrEmpty(table)), Elements(tsCodes)))
    ensures TopicsFrom(cached, OrEmpty(table)) == TopicsFrom(cache, OrEmpty(table))
  {
    var found := Load(cache, Elements(tsCodes));
    var missing := MissingCodes(found, tsCodes);
    SameSet(Elements(missing), Uncached(cache, Elements(tsCodes)));
    LoadedTopics(cache, OrEmpty(table), Elements(tsCodes));
    WritebackKeepsTopics(cache, OrEmpty(table), Elements(tsCodes));
    if |missing| == 0 {
      SameMap(found + Load(OrEmpty(table), {}), found);
      return Some(found), cache;
    }
    if table.None? { return None, cache; }
    var writeback := Load(table.value, Elements(missing));
    return Some(found + writeback), cache + writeback;
  }

  method SplitStocks(stocks: seq<StockQuoteInput>)
    returns (heatStocks: seq<StockQuoteInput>, classifyStocks: seq<StockQuoteInput>, tsCodes: seq<string>)
    ensures heatStocks == HeatStocks(stocks) && classifyStocks == ClassifyStocks(stocks)
    ensures Elements(tsCodes) == TsCodes(heatStocks)
    ensures |tsCodes| == |TsCodes(heatStocks)|
  {
    heatStocks, classifyStocks, tsCodes := [], [], [];
    var seen: set<string> := {};
    for i := 0 to |stocks|
      invariant heatStocks == HeatStocks(stocks[..i]) && classifyStocks == ClassifyStocks(stocks[..i])
      invariant seen == TsCodes(heatStocks) == Elements(tsCodes)
      invariant |tsCodes| == |seen|
    {
      var stock := stocks[i];
      assert stocks[..i + 1][..i] == stocks[..i];
      if stock.tsCode == "" { continue; }
      if stock.changePercent > HEAT_RISING_THRESHOLD {
        assert TsCodes(heatStocks + [stock]) == TsCodes(heatStocks) + {stock.tsCode};
        heatStocks := heatStocks + [stock];
        if stock.tsCode !in seen {
          tsCodes := tsCodes + [stock.tsCode];
        }
        seen := seen + {stock.tsCode};
      }
      if stock.changePercent > CLASSIFY_THRESHOLD {
        classifyStocks := classifyStocks + [stock];
      }
    }
    assert stocks[..|stocks|] == stocks;
  }

  // ----- the two passes

  datatype State = State(results: map<string, seq<TopicRelation>>, classified: set<string>, taken: set<int>)

  const NewState := State(map[], {}, {})

  function LimitUpStep(st: State, stock: StockQuoteInput, relations: Relations, heat: HeatMap, s: Setting): State {
    if !stock.isLimitUp then st
    else
      match PickForLimitUp(RelationsOf(relations, stock.tsCode), heat, s, stock.tsCode)
      case None => st
      case Some(best) =>
        State(st.results[stock.tsCode := [best]], st.classified + {stock.tsCode}, st.taken + {best.topicID})
  }

  function LimitUpPass(st: State, stocks: seq<StockQuoteInput>, relations: Relations, heat: HeatMap, s: Setting): State {
    if stocks == [] then st
    else LimitUpStep(LimitUpPass(st, stocks[..|stocks| - 1], relations, heat, s), stocks[|stocks| - 1], relations, heat, s)
  }

  function StrongStep(st: State, stock: StockQuoteInput, relations: Relations, heat: HeatMap, s: Setting): State {
    if stock.isLimitUp || stock.tsCode in st.classified then st
    else
      match PickForStrong(RelationsOf(relations, stock.tsCode), heat, st.taken, s, stock.tsCode)
      case None => st
      case Some(best) => State(st.results[stock.tsCode := [best]], st.classified + {stock.tsCode}, st.taken)
  }

  function StrongPass(st: State, stocks: seq<StockQuoteInput>, relations: Relations, heat: HeatMap, s: Setting): State {
    if stocks == [] then st
    else StrongStep(StrongPass(st, stocks[..|stocks| - 1], relations, heat, s), stocks[|stocks| - 1], relations, heat, s)
  }

  class RunState {
    var results: map<string, seq<TopicRelation>>
    var classified: set<string>
    var limitUpAssignedTopics: set<int>

    constructor ()
      ensures View() == NewState
    {
      results, classified, limitUpAssignedTopics := map[], {}, {};
    }

    function View(): State
      reads this
    {
      State(results, classified, limitUpAssignedTopics)
    }

    method ClassifyLimitUpStocks(stocks: seq<StockQuoteInput>, relations: Relations, heat: HeatMap, s: Setting)
      modifies this
      ensures View() == LimitUpPass(old(View()), stocks, relations, heat, s)
    {
      for i := 0 to |stocks|
        invariant View() == LimitUpPass(old(View()), stocks[..i], relations, heat, s)
      {
        var stock := stocks[i];
        assert stocks[..i + 1][..i] == stocks[..i];
        if !stock.isLimitUp { continue; }
        var best := PickBestTopicForLimitUp(RelationsOf(relations, stock.tsCode), heat, s, stock.tsCode);
        if best.None? { continue; }
        results := results[stock.tsCode := [best.value]];
        classified := classified + {stock.tsCode};
        limitUpAssignedTopics := limitUpAssignedTopics + {best.value.topicID};
      }
      assert stocks[..|stocks|] == stocks;
    }

    method ClassifyStrongStocks(stocks: seq<StockQuoteInput>, relations: Relations, heat: HeatMap, s: Setting)
      modifies this
      ensures View() == StrongPass(old(View()), stocks, relations, heat, s)
    {
      for i := 0 to |stocks|
        invariant View() == StrongPass(old(View()), stocks[..i], relations, heat, s)
      {
        var stock := stocks[i];
        assert stocks[..i + 1][..i] == stocks[..i];
        if stock.isLimitUp || stock.tsCode in classified { continue; }
        var best := PickBestTopicForStrong(RelationsOf(relations, stock.tsCode), heat, limitUpAssignedTopics, s,
                                           stock.tsCode);
        if best.None? { continue; }
        results := results[stock.tsCode := [best.value]];
        classified := classified + {stock.tsCode};
      }
      assert stocks[..|stocks|] == stocks;
    }
  }

  // ----- the whole run

  function LoadedRelations(stocks: seq<StockQuoteInput>, store: Relations): Relations {
    Load(store, TsCodes(HeatStocks(stocks)))
  }

  function Heat(stocks: seq<StockQuoteInput>, store: Relations, totals: Totals, countStore: Totals, s: Setting): HeatMap {
    TopicHeat(HeatStocks(stocks), LoadedRelations(stocks, store), totals, countStore, s)
  }

  function PassOne(stocks: seq<StockQuoteInput>, store: Relations, heat: HeatMap, s: Setting): State {
    LimitUpPass(NewState, ClassifyStocks(stocks), LoadedRelations(stocks, store), heat, s)
  }

  /** The result of a run; a run that classifies nothing has the empty result. */
  function Classification(stocks: seq<StockQuoteInput>, store: Relations, totals: Totals, countStore: Totals, s: Setting)
    : map<string, seq<TopicRelation>>
  {
    var heat := Heat(stocks, store, totals, countStore, s);
    StrongPass(PassOne(stocks, store, heat, s), ClassifyStocks(stocks), LoadedRelations(stocks, store), heat, s).results
  }

  /** What a run is answered by the relation cache and the tables. */
  datatype Answers = Answers(cache: Relations, table: Option<Relations>, from: Sources) {
    function Store(): Relations { TopicsFrom(cache, OrEmpty(table)) }
    function Totals(): Totals { OrEmpty(from.totals) }
    function TopicTotals(): Totals { OrEmpty(from.topicTotals) }
  }

  predicate NothingToClassify(stocks: seq<StockQuoteInput>) {
    ClassifyStocks(stocks) == []
  }

  predicate Fails(stocks: seq<StockQuoteInput>, a: Answers, s: Setting) {
    || (a.table.None? && Uncached(a.cache, TsCodes(HeatStocks(stocks))) != {})
    || HeatFails(HeatStocks(stocks), LoadedRelations(stocks, a.Store()), a.from, s)
  }

  /** A run with nothing to classify returns nothing and saves no heat map; a failing load or a
      failing save of the heat map fails the run. */
  method ClassifyBySimpleHeat(stocks: seq<StockQuoteInput>, a: Answers, s: Setting)
    returns (results: Option<map<string, seq<TopicRelation>>>, saved: Option<HeatMap>)
    ensures results == if NothingToClassify(stocks) then Some(map[])
                       else if Fails(stocks, a, s) then None
                       else Some(Classification(stocks, a.Store(), a.Totals(), a.TopicTotals(), s))
    ensures saved == if NothingToClassify(stocks) || Fails(stocks, a, s) then None
                     else Some(Heat(stocks, a.Store(), a.Totals(), a.TopicTotals(), s))
  {
    if |stocks| == 0 { return Some(map[]), None; }
    var heatStocks, classifyStocks, tsCodes := SplitStocks(stocks);
    ClassifyInHeatUniverse(stocks);
    if |heatStocks| == 0 || |classifyStocks| == 0 { return Some(map[]), None; }
    var loaded, _ := LoadStockTopicsBatch(a.cache, a.table, tsCodes);
    if loaded.None? { return None, None; }
    var relations := loaded.value;
    saved := CalcTopicHeat(heatStocks, relations, a.from, s);
    if saved.None? { return None, None; }
    var state := new RunState();
    state.ClassifyLimitUpStocks(classifyStocks, relations, saved.value, s);
    state.ClassifyStrongStocks(classifyStocks, relations, saved.value, s);
    results := Some(state.results);
  }

  lemma {:induction false} ClassifyInHeatUniverse(stocks: seq<StockQuoteInput>)
    ensures forall x :: x in HeatStocks(stocks) <==> x in stocks && InHeatUniverse(x)
    ensures forall x :: x in ClassifyStocks(stocks) <==> x in stocks && InClassifyUniverse(x)
    ensures HeatStocks(stocks) == [] ==> ClassifyStocks(stocks) == []
  {
    if stocks != [] {
      var prefix, last := stocks[..|stocks| - 1], stocks[|stocks| - 1];
      ClassifyInHeatUniverse(prefix);
      assert forall x :: x in stocks <==> x in prefix || x == last;
    }
  }
}
