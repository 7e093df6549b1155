/** The intraday tick engine (internal/service/monitor): each tick runs every quote through
    the state machine, then updates the two pools in batches, all removals first.

    ProcessTick is proved equal to TickStep; MonitorRuns proves what whole runs of ticks
    and resets keep. */
module Monitor {
  import opened Wrappers
  import opened Limiter
  import opened PoolCaches
  import opened ClassifyTypes

  datatype Stock = Stock(name: string, isST: bool)
  type StockMap = map<string, Stock>

  /** What the engine holds for one date. */
  datatype Engine = Engine(
    states: map<string, LimitState>,
    limitUp: set<string>,
    above5: set<string>,
    firstLimit: map<string, string>)

  const Fresh := Engine(map[], {}, {}, map[])

  function StateOf(states: map<string, LimitState>, code: string): LimitState {
    if code in states then states[code] else Idle
  }

  /** A quote is processed when its stock is active and not an ST stock. */
  predicate Live(q: Quote, stocks: StockMap) {
    q.tsCode in stocks && !stocks[q.tsCode].isST
  }

  /** The board is read off the first six characters of a code. */
  predicate CodesHaveSymbol(stocks: StockMap) {
    forall code :: code in stocks && !stocks[code].isST ==> |code| >= 6
  }

  function RatioOf(code: string): nat {
    LimitUpRatio(DetectBoard(if |code| >= 6 then code[..6] else code))
  }

  function Detect(q: Quote, prev: LimitState): DetectOutput {
    DetectLimitUp(DetectInput(q.price, q.preClose, q.pctChg, false, q.updateTime, prev), RatioOf(q.tsCode))
  }

  /** The lists the quote loop fills. */
  datatype Lists = Lists(
    limitUpCodes: seq<string>,
    above5Codes: seq<string>,
    removeFromLimitUp: seq<string>,
    removeFromAbove5: seq<string>,
    limitUpSet: set<string>)

  const NoLists := Lists([], [], [], [], {})

  /** All that the quote loop changes on one date. */
  datatype Batch = Batch(
    states: map<string, LimitState>,
    firstLimit: map<string, string>,
    limitUpCodes: seq<string>,
    above5Codes: seq<string>,
    removeFromLimitUp: seq<string>,
    removeFromAbove5: seq<string>,
    limitUpSet: set<string>)

  function QuoteStep(b: Batch, q: Quote, stocks: StockMap): Batch {
    if !Live(q, stocks) then b
    else
      var out := Detect(q, StateOf(b.states, q.tsCode));
      var b := b.(states := b.states[q.tsCode := out.currentState]);
      if out.isLimitUp then
        b.(limitUpCodes := b.limitUpCodes + [q.tsCode],
           removeFromAbove5 := b.removeFromAbove5 + [q.tsCode],
           limitUpSet := b.limitUpSet + {q.tsCode},
           firstLimit := if out.isFirstLimitUp && q.tsCode !in b.firstLimit
                         then b.firstLimit[q.tsCode := q.updateTime] else b.firstLimit)
      else if out.isAbove5Pct then
        b.(above5Codes := b.above5Codes + [q.tsCode],
           removeFromLimitUp := b.removeFromLimitUp + if out.currentState == Opened then [q.tsCode] else [])
      else
        b.(removeFromLimitUp := b.removeFromLimitUp + [q.tsCode],
           removeFromAbove5 := b.removeFromAbove5 + [q.tsCode])
  }

  function Start(e: Engine): Batch {
    Batch(e.states, e.firstLimit, [], [], [], [], {})
  }

  function QuoteLoop(e: Engine, quotes: seq<Quote>, stocks: StockMap): Batch {
    if quotes == [] then Start(e)
    else QuoteStep(QuoteLoop(e, quotes[..|quotes| - 1], stocks), quotes[|quotes| - 1], stocks)
  }

  lemma QuoteLoopNext(e: Engine, quotes: seq<Quote>, i: nat, stocks: StockMap)
    requires i < |quotes|
    ensures QuoteLoop(e, quotes[..i + 1], stocks)
            == QuoteStep(QuoteLoop(e, quotes[..i], stocks), quotes[i], stocks)
  {
    assert quotes[..i + 1][..i] == quotes[..i];
  }

  ghost predicate TimesKept(before: Times, after: Times, date: Date) {
    forall other :: other != date ==> TimesOn(after, other) == TimesOn(before, other)
  }

  function TickStep(e: Engine, quotes: seq<Quote>, stocks: StockMap): Engine {
    var b := QuoteLoop(e, quotes, stocks);
    Engine(
      b.states,
      e.limitUp - Elements(b.removeFromLimitUp) + Elements(b.limitUpCodes),
      e.above5 - Elements(b.removeFromAbove5) + Elements(b.above5Codes),
      b.firstLimit)
  }

  function HeatInputs(quotes: seq<Quote>, stocks: StockMap, limitUpSet: set<string>): seq<StockQuoteInput> {
    if quotes == [] then []
    else
      var q := quotes[|quotes| - 1];
      HeatInputs(quotes[..|quotes| - 1], stocks, limitUpSet)
      + if Live(q, stocks) then [StockQuoteInput(q.tsCode, q.pctChg, q.tsCode in limitUpSet)] else []
  }

  class MonitorService {
    var stockStates: map<string, LimitState>
    const poolCache: PoolCache

    constructor (poolCache: PoolCache)
      ensures this.poolCache == poolCache && stockStates == map[]
    {
      this.poolCache := poolCache;
      stockStates := map[];
    }

    function View(date: Date): Engine
      reads this, poolCache
    {
      Engine(
        stockStates,
        Members(poolCache.limitUp, date),
        Members(poolCache.above5, date),
        TimesOn(poolCache.firstLimit, date))
    }

    /** Run before the market opens; it forgets the states but not the pools. */
    method ResetClassifiedToday()
      modifies this`stockStates
      ensures stockStates == map[]
      ensures forall date :: View(date) == old(View(date)).(states := map[])
    {
      stockStates := map[];
    }

    function InProgress(date: Date, lists: Lists): Batch
      reads this, poolCache
    {
      Batch(stockStates, TimesOn(poolCache.firstLimit, date), lists.limitUpCodes, lists.above5Codes,
            lists.removeFromLimitUp, lists.removeFromAbove5, lists.limitUpSet)
    }

    method ProcessTick(date: Date, quotes: seq<Quote>, stockMap: StockMap) returns (limitUpSet: set<string>)
      requires CodesHaveSymbol(stockMap)
      modifies this`stockStates, poolCache
      ensures View(date) == TickStep(old(View(date)), quotes, stockMap)
      ensures limitUpSet == QuoteLoop(old(View(date)), quotes, stockMap).limitUpSet
      ensures forall other :: other != date ==> View(other) == old(View(other)).(states := stockStates)
      ensures poolCache.yesterdayStrong == old(poolCache.yesterdayStrong)
    {
      ghost var start := View(date);
      var lists := NoLists;
      for i := 0 to |quotes|
        invariant InProgress(date, lists) == QuoteLoop(start, quotes[..i], stockMap)
        invariant poolCache.limitUp == old(poolCache.limitUp) && poolCache.above5 == old(poolCache.above5)
        invariant poolCache.yesterdayStrong == old(poolCache.yesterdayStrong)
        invariant TimesKept(old(poolCache.firstLimit), poolCache.firstLimit, date)
      {
        QuoteLoopNext(start, quotes, i, stockMap);
        lists := ProcessQuote(date, quotes[i], stockMap, lists);
      }
      assert quotes[..|quotes|] == quotes;
      BatchPoolOperations(date, lists.limitUpCodes, lists.above5Codes, lists.removeFromLimitUp, lists.removeFromAbove5);
      limitUpSet := lists.limitUpSet;
    }

    /** The body of the quote loop. */
    method ProcessQuote(date: Date, quote: Quote, stockMap: StockMap, before: Lists) returns (lists: Lists)
      requires CodesHaveSymbol(stockMap)
      modifies this`stockStates, poolCache`firstLimit
      ensures InProgress(date, lists) == QuoteStep(old(InProgress(date, before)), quote, stockMap)
      ensures TimesKept(old(poolCache.firstLimit), poolCache.firstLimit, date)
    {
      lists := before;
      if quote.tsCode !in stockMap { return; }
      var stock := stockMap[quote.tsCode];
      if stock.isST { return; }

      var output := DetectQuote(quote, stock);
      if output.isLimitUp {
        lists := lists.(limitUpCodes := lists.limitUpCodes + [quote.tsCode],
                        removeFromAbove5 := lists.removeFromAbove5 + [quote.tsCode],
                        limitUpSet := lists.limitUpSet + {quote.tsCode});
        if output.isFirstLimitUp {
          poolCache.SetFirstLimitTime(date, quote.tsCode, output.firstLimitTime.value);
        }
      } else if output.isAbove5Pct {
        lists := lists.(above5Codes := lists.above5Codes + [quote.tsCode]);
        if output.currentState == Opened {
          lists := lists.(removeFromLimitUp := lists.removeFromLimitUp + [quote.tsCode]);
        }
      } else {
        lists := lists.(removeFromLimitUp := lists.removeFromLimitUp + [quote.tsCode],
                        removeFromAbove5 := lists.removeFromAbove5 + [quote.tsCode]);
      }
    }

    /** Runs one quote through the detector and stores the new state. */
    method DetectQuote(quote: Quote, stock: Stock) returns (output: DetectOutput)
      requires !stock.isST && |quote.tsCode| >= 6
      modifies this`stockStates
      ensures output == Detect(quote, StateOf(old(stockStates), quote.tsCode))
      ensures stockStates == old(stockStates)[quote.tsCode := output.currentState]
    {
      var board := DetectBoard(quote.tsCode[..6]);
      var prevState := if quote.tsCode in stockStates then stockStates[quote.tsCode] else Idle;
      var input := DetectInput(quote.price, quote.preClose, quote.pctChg, stock.isST, quote.updateTime, prevState);
      output := DetectLimitUp(input, LimitUpRatio(board));
      stockStates := stockStates[quote.tsCode := output.currentState];
    }

    method BatchPoolOperations(date: Date, limitUpCodes: seq<string>, above5Codes: seq<string>,
                               removeFromLimitUp: seq<string>, removeFromAbove5: seq<string>)
      modifies poolCache`limitUp, poolCache`above5
      ensures Members(poolCache.limitUp, date)
              == Members(old(poolCache.limitUp), date) - Elements(removeFromLimitUp) + Elements(limitUpCodes)
      ensures Members(poolCache.above5, date)
              == Members(old(poolCache.above5), date) - Elements(removeFromAbove5) + Elements(above5Codes)
      ensures forall other :: other != date ==>
                && Members(poolCache.limitUp, other) == Members(old(poolCache.limitUp), other)
                && Members(poolCache.above5, other) == Members(old(poolCache.above5), other)
    {
      poolCache.RemoveLimitUpBatch(date, removeFromLimitUp);
      poolCache.RemoveAbove5Batch(date, removeFromAbove5);
      poolCache.AddLimitUpBatch(date, limitUpCodes);
      poolCache.AddAbove5Batch(date, above5Codes);
    }

    method BuildHeatInputs(quotes: seq<Quote>, stockMap: StockMap, limitUpSet: set<string>)
      returns (heatInputs: seq<StockQuoteInput>)
      ensures heatInputs == HeatInputs(quotes, stockMap, limitUpSet)
    {
      heatInputs := [];
      for i := 0 to |quotes|
        invariant heatInputs == HeatInputs(quotes[..i], stockMap, limitUpSet)
      {
        var quote := quotes[i];
        assert quotes[..i + 1][..i] == quotes[..i];
        if quote.tsCode !in stockMap || stockMap[quote.tsCode].isST { continue; }
        heatInputs := heatInputs + [StockQuoteInput(quote.tsCode, quote.pctChg, quote.tsCode in limitUpSet)];
      }
      assert quotes[..|quotes|] == quotes;
    }
  }
}
