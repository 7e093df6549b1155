/** The limit rule of each board spelled out on codes and cents, and what it means for the pools:
    the main board may gain 10%, ChiNext (300, 301) and STAR (688) 20%, Beijing (8, 4, 9) 30%. */
module Boards {
  import opened Wrappers
  import opened Limiter
  import opened PoolCaches
  import opened Monitor
  import opened MonitorRuns

  lemma LimitIsFloor(price: int, preClose: int, ratio: nat)
    requires preClose > 0
    ensures price >= CalcLimitUpPrice(preClose, ratio) <==> 100 * (price + 1) > preClose * (100 + ratio)
  {
    LimitPriceWithinOneCent(preClose, ratio);
  }

  /** A quote is at its limit exactly when a cent more would be above the allowed gain. */
  lemma AtLimitByBoard(q: Quote)
    requires |q.tsCode| >= 6
    ensures AtLimit(q) <==>
              && q.preClose > 0
              && 100 * (q.price + 1) > q.preClose * (if q.tsCode[..3] in {"300", "301", "688"} then 120
                                                     else if q.tsCode[0] in {'8', '4', '9'} then 130 else 110)
  {
    assert q.tsCode[..6][..3] == q.tsCode[..3];
    if q.preClose > 0 {
      LimitIsFloor(q.price, q.preClose, RatioOf(q.tsCode));
    }
  }

  /** The first quote of an active stock: which pool it enters, and whether its time is kept. */
  lemma FirstQuoteByBoard(stocks: StockMap, q: Quote)
    requires q.tsCode in stocks && !stocks[q.tsCode].isST && |q.tsCode| >= 6 && q.preClose > 0
    ensures var e := TickStep(Fresh, [q], stocks);
            var sealed := 100 * (q.price + 1) > q.preClose * (if q.tsCode[..3] in {"300", "301", "688"} then 120
                                                              else if q.tsCode[0] in {'8', '4', '9'} then 130 else 110);
            && e.limitUp == (if sealed then {q.tsCode} else {})
            && e.above5 == (if !sealed && q.pctChg >= 500 then {q.tsCode} else {})
            && e.firstLimit == (if sealed then map[q.tsCode := q.updateTime] else map[])
  {
    AtLimitByBoard(q);
    assert [q][..0] == [];
    assert QuoteLoop(Fresh, [q], stocks) == QuoteStep(Start(Fresh), q, stocks);
  }

  /** A first time is recorded only for a stock at its limit with no state and no time yet. */
  lemma FirstTimeOnlyFromIdle(e: Engine, stocks: StockMap, q: Quote)
    requires q.tsCode in stocks && !stocks[q.tsCode].isST && |q.tsCode| >= 6
    ensures TickStep(e, [q], stocks).firstLimit
         == if AtLimit(q) && (q.tsCode !in e.states || e.states[q.tsCode] == Idle) && q.tsCode !in e.firstLimit
            then e.firstLimit[q.tsCode := q.updateTime] else e.firstLimit
  {
    assert [q][..0] == [];
    assert QuoteLoop(e, [q], stocks) == QuoteStep(Start(e), q, stocks);
  }

  /** States are not kept by date, times are: a stock whose state was not reset over night gets no
      time on the new date while it stays at its limit. */
  lemma {:induction false} UnresetSealHasNoTime(e: Engine, quotes: seq<Quote>, stocks: StockMap, code: string)
    requires StateOf(e.states, code) != Idle && code !in e.firstLimit
    requires forall q :: q in quotes && q.tsCode == code ==> AtLimit(q)
    ensures var after := TickStep(e, quotes, stocks);
            code !in after.firstLimit && StateOf(after.states, code) != Idle
  {
    if quotes != [] {
      var prefix, q := quotes[..|quotes| - 1], quotes[|quotes| - 1];
      assert q in quotes && forall x :: x in prefix ==> x in quotes;
      UnresetSealHasNoTime(e, prefix, stocks, code);
      assert QuoteLoop(e, quotes, stocks) == QuoteStep(QuoteLoop(e, prefix, stocks), q, stocks);
    }
  }

  /** A stock that is unknown or an ST stock in every tick never gets a state, a pool or a time. */
  lemma {:induction false} InactiveStocksStayOut(run: seq<Event>, code: string)
    requires forall i :: 0 <= i < |run| && run[i].Tick? ==> code !in run[i].stocks || run[i].stocks[code].isST
    ensures var e := Exec(run);
            code !in e.limitUp && code !in e.above5 && code !in e.firstLimit && StateOf(e.states, code) == Idle
  {
    if run != [] {
      var prefix, event := run[..|run| - 1], run[|run| - 1];
      assert forall i :: 0 <= i < |prefix| ==> prefix[i] == run[i];
      InactiveStocksStayOut(prefix, code);
      if event.Tick? {
        LoopUntouched(Exec(prefix), event.quotes, event.stocks, code);
        NoFirstLimit(event.quotes, event.stocks, code);
        LoopTimes(Exec(prefix), event.quotes, event.stocks, code, None);
      }
    }
  }

  lemma {:induction false} NoFirstLimit(quotes: seq<Quote>, stocks: StockMap, code: string)
    requires code !in stocks || stocks[code].isST
    ensures FirstLimitIn(quotes, stocks, code) == None
  {
    if quotes != [] {
      NoFirstLimit(quotes[..|quotes| - 1], stocks, code);
    }
  }

  lemma {:induction false} LastOfIsOfCode(run: seq<Event>, code: string)
    ensures LastOf(run, code).Some? ==> LastOf(run, code).value.tsCode == code
  {
    if run != [] {
      LastOfIsOfCode(run[..|run| - 1], code);
      if run[|run| - 1].Tick? {
        LastLiveIsLive(run[|run| - 1].quotes, run[|run| - 1].stocks, code);
      }
    }
  }

  /** After any day of single-quote ticks, from the last live quote of a code. */
  lemma PoolsByBoard(run: seq<Event>, code: string)
    requires CleanDay(run) && |code| >= 6 && LastOf(run, code).Some?
    ensures var q := LastOf(run, code).value;
            var sealed := 100 * (q.price + 1) > q.preClose * (if code[..3] in {"300", "301", "688"} then 120
                                                              else if code[0] in {'8', '4', '9'} then 130 else 110);
            && (code in Exec(run).limitUp <==> q.preClose > 0 && sealed)
            && (code in Exec(run).above5 <==> q.preClose > 0 && !sealed && q.pctChg >= 500)
  {
    PoolsRefineHistory(run);
    LastOfIsOfCode(run, code);
    AtLimitByBoard(LastOf(run, code).value);
  }

  /** A quote below 5% passes the prefilter exactly when its stock is recorded as strong for the
      day; one at 5% or more always passes. */
  lemma StrongYesterdayPasses(cache: PoolCache, today: Date, q: Quote, now: string)
    ensures KeptQuotes([q], cache.YesterdayStrong(today), now)
            == if q.pctChg >= 500 || (today in cache.yesterdayStrong && q.tsCode in cache.yesterdayStrong[today])
               then [q.(updateTime := now)] else []
  {
    assert [q][..0] == [];
    assert KeptQuotes([q], cache.YesterdayStrong(today), now)
           == KeptQuotes([], cache.YesterdayStrong(today), now)
              + if Kept(q, cache.YesterdayStrong(today)) then [q.(updateTime := now)] else [];
  }
}
