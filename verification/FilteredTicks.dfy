/** Ticks fed by the quote prefilter: the market quotes of each tick pass FetchAllQuotes
    (internal/service/quote_fetcher) before ProcessTick (internal/service/monitor) sees them.
    The reference is the market itself: the last quote of each code, filtered or not. */
module FilteredTicks {
  import opened Wrappers
  import opened Limiter
  import opened PoolCaches
  import opened Monitor
  import opened MonitorRuns

  datatype MarketTick = MarketTick(quotes: seq<Quote>, strong: set<string>, now: string, stocks: StockMap)

  function MarketStep(e: Engine, t: MarketTick): Engine {
    TickStep(e, KeptOf(t), t.stocks)
  }

  /** The filter asks for the members of the real today, whatever date the tick is for. */
  method FetchAndProcess(service: MonitorService, date: Date, today: Date, market: seq<Quote>, now: string, stocks: StockMap)
    returns (limitUpSet: set<string>)
    requires CodesHaveSymbol(stocks)
    modifies service`stockStates, service.poolCache
    ensures service.View(date) == MarketStep(old(service.View(date)),
              MarketTick(market, old(service.poolCache.YesterdayStrong(today)), now, stocks))
    ensures service.poolCache.YesterdayStrong(today) == old(service.poolCache.YesterdayStrong(today))
  {
    var quotes := FetchAllQuotes(market, service.poolCache.YesterdayStrong(today), now);
    limitUpSet := service.ProcessTick(date, quotes, stocks);
  }

  function ExecMarket(run: seq<MarketTick>): Engine {
    if run == [] then Fresh else MarketStep(ExecMarket(run[..|run| - 1]), run[|run| - 1])
  }

  function LastQuote(run: seq<MarketTick>, code: string): Option<Quote> {
    if run == [] then None
    else Newest(LastQuote(run[..|run| - 1], code), run[|run| - 1].quotes, run[|run| - 1].stocks, code)
  }

  function KeptOf(t: MarketTick): seq<Quote> {
    KeptQuotes(t.quotes, t.strong, t.now)
  }

  /** The last quote of a code that passed the filter. */
  function LastKept(run: seq<MarketTick>, code: string): Option<Quote> {
    if run == [] then None
    else Newest(LastKept(run[..|run| - 1], code), KeptOf(run[|run| - 1]), run[|run| - 1].stocks, code)
  }

  ghost predicate PoolsMatchMarket(e: Engine, run: seq<MarketTick>) {
    forall code :: Agrees(e, LastQuote(run, code), code)
  }

  // ----- any number of quotes of a code

  /** What a tick does to a code it has live quotes of, told by the quotes alone. If none of them
      passes the filter, the last must be like the one before the tick. Otherwise a kept quote is
      strong iff the last quote is strong; and the last quote is at the limit iff a kept one is,
      or the code's kept quotes are all strong and it was at its limit before without its last
      kept quote being so. */
  ghost predicate Followed(run: seq<MarketTick>, t: MarketTick, code: string) {
    var last, kept := LastLive(t.quotes, t.stocks, code), KeptOf(t);
    last.Some? ==>
      if LastLive(kept, t.stocks, code).None? then
        && (WasAtLimit(LastQuote(run, code)) <==> WasAtLimit(last))
        && (WasStrong(LastQuote(run, code)) <==> WasStrong(last))
      else
        && (SomeQuote(kept, t.stocks, code, Strong) <==> WasStrong(last))
        && (WasAtLimit(last) <==>
              || SomeQuote(kept, t.stocks, code, AtLimit)
              || (WasAtLimit(LastQuote(run, code)) && !WasAtLimit(LastKept(run, code))
                  && !SomeQuote(kept, t.stocks, code, NotStrong)))
  }

  lemma {:induction false} SealedIsLastKept(run: seq<MarketTick>, code: string)
    ensures StateOf(ExecMarket(run).states, code).Sealed() <==> WasAtLimit(LastKept(run, code))
  {
    if run != [] {
      var prefix, t := run[..|run| - 1], run[|run| - 1];
      SealedIsLastKept(prefix, code);
      LoopSealed(ExecMarket(prefix), KeptOf(t), t.stocks, code);
    }
  }

  lemma KeptLiveHasOrigin(t: MarketTick, code: string)
    requires LastLive(t.quotes, t.stocks, code).None?
    ensures LastLive(KeptOf(t), t.stocks, code).None?
  {
    LastLiveIsLive(t.quotes, t.stocks, code);
    forall k | k in KeptOf(t) && Live(k, t.stocks) ensures k.tsCode != code {
      KeptOrigin(t.quotes, t.strong, t.now, k);
      var q :| q in t.quotes && Kept(q, t.strong) && k == q.(updateTime := t.now);
    }
    LastLiveIsLive(KeptOf(t), t.stocks, code);
  }

  lemma MarketAgreesIff(run: seq<MarketTick>, t: MarketTick, code: string)
    requires Agrees(ExecMarket(run), LastQuote(run, code), code)
    ensures Agrees(MarketStep(ExecMarket(run), t), Newest(LastQuote(run, code), t.quotes, t.stocks, code), code)
            <==> Followed(run, t, code)
  {
    TickPools(ExecMarket(run), KeptOf(t), t.stocks, code);
    SealedIsLastKept(run, code);
    if LastLive(t.quotes, t.stocks, code).None? {
      KeptLiveHasOrigin(t, code);
    }
  }

  lemma LastQuoteSnoc(run: seq<MarketTick>, t: MarketTick, code: string)
    ensures LastQuote(run + [t], code) == Newest(LastQuote(run, code), t.quotes, t.stocks, code)
  {
    assert (run + [t])[..|run|] == run;
  }

  ghost predicate AllFollowed(run: seq<MarketTick>, t: MarketTick) {
    forall code :: Followed(run, t, code)
  }

  /** One filtered tick keeps the pools equal to the market if and only if every code is followed. */
  lemma FilteredTickIff(run: seq<MarketTick>, t: MarketTick)
    requires PoolsMatchMarket(ExecMarket(run), run)
    ensures PoolsMatchMarket(ExecMarket(run + [t]), run + [t]) <==> AllFollowed(run, t)
  {
    assert (run + [t])[..|run|] == run;
    forall code
      ensures Agrees(ExecMarket(run + [t]), LastQuote(run + [t], code), code) <==> Followed(run, t, code)
    {
      LastQuoteSnoc(run, t, code);
      MarketAgreesIff(run, t, code);
    }
  }

  ghost predicate MatchesThroughout(run: seq<MarketTick>) {
    forall n :: 0 <= n <= |run| ==> PoolsMatchMarket(ExecMarket(run[..n]), run[..n])
  }

  ghost predicate FollowedThroughout(run: seq<MarketTick>) {
    forall n :: 0 <= n < |run| ==> AllFollowed(run[..n], run[n])
  }

  lemma MatchesSnoc(run: seq<MarketTick>, t: MarketTick)
    ensures MatchesThroughout(run + [t])
            <==> MatchesThroughout(run) && PoolsMatchMarket(ExecMarket(run + [t]), run + [t])
  {
    assert forall n :: 0 <= n <= |run| ==> (run + [t])[..n] == run[..n];
    assert (run + [t])[..|run| + 1] == run + [t];
  }

  lemma FollowedSnoc(run: seq<MarketTick>, t: MarketTick)
    ensures FollowedThroughout(run + [t]) <==> FollowedThroughout(run) && AllFollowed(run, t)
  {
    assert forall n :: 0 <= n <= |run| ==> (run + [t])[..n] == run[..n];
    assert run[..|run|] == run && (run + [t])[|run|] == t;
  }

  lemma MatchesNow(run: seq<MarketTick>)
    requires MatchesThroughout(run)
    ensures PoolsMatchMarket(ExecMarket(run), run)
  {
    assert run[..|run|] == run;
  }

  lemma EmptyDayMatches()
    ensures MatchesThroughout([])
  {
    var none: seq<MarketTick> := [];
    assert none[..0] == none;
  }

  /** The pools follow the market through a whole day, whatever quotes it has, if and only if
      every tick follows every code: a condition on the market's quotes and yesterday's strong
      stocks alone. */
  lemma {:induction false} PoolsFollowMarketIff(run: seq<MarketTick>)
    ensures MatchesThroughout(run) <==> FollowedThroughout(run)
  {
    if run == [] {
      EmptyDayMatches();
    } else {
      var prefix, t := run[..|run| - 1], run[|run| - 1];
      assert run == prefix + [t];
      MatchesSnoc(prefix, t);
      FollowedSnoc(prefix, t);
      PoolsFollowMarketIff(prefix);
      if MatchesThroughout(prefix) {
        MatchesNow(prefix);
        FilteredTickIff(prefix, t);
      }
    }
  }

  // ----- the prefilter, quote by quote

  lemma {:induction false} KeptOrigin(quotes: seq<Quote>, strong: set<string>, now: string, k: Quote)
    requires k in KeptQuotes(quotes, strong, now)
    ensures exists q :: q in quotes && Kept(q, strong) && k == q.(updateTime := now)
  {
    var prefix, last := quotes[..|quotes| - 1], quotes[|quotes| - 1];
    if k in KeptQuotes(prefix, strong, now) {
      KeptOrigin(prefix, strong, now, k);
      var q :| q in prefix && Kept(q, strong) && k == q.(updateTime := now);
      assert q in quotes;
    }
  }

  lemma {:induction false} KeptOnePerCode(quotes: seq<Quote>, strong: set<string>, now: string)
    requires OneQuotePerCode(quotes)
    ensures OneQuotePerCode(KeptQuotes(quotes, strong, now))
  {
    if quotes != [] {
      var prefix, last := quotes[..|quotes| - 1], quotes[|quotes| - 1];
      KeptOnePerCode(prefix, strong, now);
      var kept := KeptQuotes(prefix, strong, now);
      forall i | 0 <= i < |kept| ensures kept[i].tsCode != last.tsCode {
        KeptOrigin(prefix, strong, now, kept[i]);
        var q :| q in prefix && Kept(q, strong) && kept[i] == q.(updateTime := now);
      }
    }
  }

  /** A tick leaves the pools alone at a code of which it keeps no live quote. */
  lemma UnkeptUntouched(e: Engine, t: MarketTick, code: string)
    requires forall q :: q in t.quotes && Live(q, t.stocks) && Kept(q, t.strong) ==> q.tsCode != code
    ensures code in MarketStep(e, t).limitUp <==> code in e.limitUp
    ensures code in MarketStep(e, t).above5 <==> code in e.above5
  {
    var kept := KeptQuotes(t.quotes, t.strong, t.now);
    forall k | k in kept && Live(k, t.stocks) ensures k.tsCode != code {
      KeptOrigin(t.quotes, t.strong, t.now, k);
      var q :| q in t.quotes && Kept(q, t.strong) && k == q.(updateTime := t.now);
    }
    LoopUntouched(e, kept, t.stocks, code);
  }

  lemma KeptAgrees(e: Engine, t: MarketTick, q: Quote)
    requires OneQuotePerCode(t.quotes) && StatesMatchPool(e)
    requires q in t.quotes && Live(q, t.stocks) && Kept(q, t.strong)
    ensures Agrees(MarketStep(e, t), Some(q), q.tsCode)
  {
    KeptQuotesMembers(t.quotes, t.strong, t.now, q);
    KeptOnePerCode(t.quotes, t.strong, t.now);
    LoopVerdict(e, KeptQuotes(t.quotes, t.strong, t.now), t.stocks, q.(updateTime := t.now));
  }

  // ----- one quote per code

  /** A live quote the prefilter drops although it is news: the stock's last quote was strong,
      or exactly one of the two quotes is at the limit. */
  predicate Missed(last: Option<Quote>, q: Quote, t: MarketTick) {
    && Live(q, t.stocks) && !Kept(q, t.strong)
    && (WasStrong(last) || (WasAtLimit(last) <==> !AtLimit(q)))
  }

  ghost predicate MissesNothing(run: seq<MarketTick>, t: MarketTick) {
    forall q :: q in t.quotes ==> !Missed(LastQuote(run, q.tsCode), q, t)
  }

  ghost predicate CleanMarket(run: seq<MarketTick>) {
    forall i :: 0 <= i < |run| ==> OneQuotePerCode(run[i].quotes)
  }

  lemma {:induction false} FilteredStates(run: seq<MarketTick>)
    requires CleanMarket(run)
    ensures StatesMatchPool(ExecMarket(run))
  {
    if run != [] {
      var prefix, t := run[..|run| - 1], run[|run| - 1];
      FilteredStates(prefix);
      KeptOnePerCode(t.quotes, t.strong, t.now);
      TickKeepsStatesMatchPool(ExecMarket(prefix), KeptOf(t), t.stocks);
    }
  }

  lemma SingleAgreesIff(e: Engine, last: Option<Quote>, t: MarketTick, code: string)
    requires OneQuotePerCode(t.quotes) && StatesMatchPool(e) && Agrees(e, last, code)
    ensures Agrees(MarketStep(e, t), Newest(last, t.quotes, t.stocks, code), code)
            <==> forall q :: q in t.quotes && q.tsCode == code ==> !Missed(last, q, t)
  {
    LastLiveIsLive(t.quotes, t.stocks, code);
    var newest := LastLive(t.quotes, t.stocks, code);
    if newest.Some? && Kept(newest.value, t.strong) {
      KeptAgrees(e, t, newest.value);
    } else {
      UnkeptUntouched(e, t, code);
    }
    assert newest.Some? ==> forall p :: p in t.quotes && p.tsCode == code ==> p == newest.value;
  }

  /** With one quote per code, every code is followed exactly when no quote is missed. */
  lemma SingleFollowedIff(run: seq<MarketTick>, t: MarketTick)
    requires CleanMarket(run) && OneQuotePerCode(t.quotes) && PoolsMatchMarket(ExecMarket(run), run)
    ensures AllFollowed(run, t) <==> MissesNothing(run, t)
  {
    FilteredStates(run);
    forall code
      ensures Followed(run, t, code)
              <==> forall q :: q in t.quotes && q.tsCode == code ==> !Missed(LastQuote(run, code), q, t)
    {
      MarketAgreesIff(run, t, code);
      SingleAgreesIff(ExecMarket(run), LastQuote(run, code), t, code);
    }
    if q :| q in t.quotes && Missed(LastQuote(run, q.tsCode), q, t) {
      assert !Followed(run, t, q.tsCode);
    }
  }

  ghost predicate NeverMisses(run: seq<MarketTick>) {
    forall n :: 0 <= n < |run| ==> MissesNothing(run[..n], run[n])
  }

  lemma MissesSnoc(run: seq<MarketTick>, t: MarketTick)
    ensures NeverMisses(run + [t]) <==> NeverMisses(run) && MissesNothing(run, t)
  {
    assert forall n :: 0 <= n <= |run| ==> (run + [t])[..n] == run[..n];
    assert run[..|run|] == run && (run + [t])[|run|] == t;
  }

  /** With one quote per code, the pools follow the market through a whole day if and only if
      the prefilter never misses a quote. */
  lemma {:induction false} SinglePoolsFollowMarketIff(run: seq<MarketTick>)
    requires CleanMarket(run)
    ensures MatchesThroughout(run) <==> NeverMisses(run)
  {
    if run == [] {
      EmptyDayMatches();
    } else {
      var prefix, t := run[..|run| - 1], run[|run| - 1];
      assert run == prefix + [t];
      MatchesSnoc(prefix, t);
      MissesSnoc(prefix, t);
      SinglePoolsFollowMarketIff(prefix);
      if MatchesThroughout(prefix) {
        MatchesNow(prefix);
        FilteredTickIff(prefix, t);
        SingleFollowedIff(prefix, t);
      }
    }
  }

  /** The change is computed from the prices, and the limit is at least a cent of gain. */
  predicate Honest(q: Quote) {
    WellPriced(q) && q.preClose > 0 && q.preClose * RatioOf(q.tsCode) >= 100
  }

  /** An honest quote is missed exactly when it follows a strong or a limit-up one, is itself
      below 5%, and its stock was not strong yesterday. */
  lemma HonestMissedIff(last: Option<Quote>, q: Quote, t: MarketTick)
    requires Honest(q)
    ensures Missed(last, q, t)
            <==> Live(q, t.stocks) && q.pctChg < 500 && q.tsCode !in t.strong && (WasStrong(last) || WasAtLimit(last))
  {
    LimitUpShowsFivePercentIff(q.preClose, DetectBoard(if |q.tsCode| >= 6 then q.tsCode[..6] else q.tsCode));
  }

  ghost predicate NoFallGoesUnseen(run: seq<MarketTick>, t: MarketTick) {
    forall q :: q in t.quotes && Live(q, t.stocks) && q.pctChg < 500 && q.tsCode !in t.strong ==>
      !WasStrong(LastQuote(run, q.tsCode)) && !WasAtLimit(LastQuote(run, q.tsCode))
  }

  /** On honest quotes, one for each code, the pools follow the market through a whole day if and
      only if no stock falls from a strong or limit-up quote to below 5% without having been strong yesterday. */
  lemma SingleHonestPoolsFollowMarketIff(run: seq<MarketTick>)
    requires CleanMarket(run)
    requires forall n, q :: 0 <= n < |run| && q in run[n].quotes && Live(q, run[n].stocks) ==> Honest(q)
    ensures MatchesThroughout(run) <==> forall n :: 0 <= n < |run| ==> NoFallGoesUnseen(run[..n], run[n])
  {
    SinglePoolsFollowMarketIff(run);
    forall n | 0 <= n < |run| ensures MissesNothing(run[..n], run[n]) <==> NoFallGoesUnseen(run[..n], run[n]) {
      forall q | q in run[n].quotes
        ensures Missed(LastQuote(run[..n], q.tsCode), q, run[n])
                <==> Live(q, run[n].stocks) && q.pctChg < 500 && q.tsCode !in run[n].strong
                     && (WasStrong(LastQuote(run[..n], q.tsCode)) || WasAtLimit(LastQuote(run[..n], q.tsCode)))
      {
        if Live(q, run[n].stocks) {
          HonestMissedIff(LastQuote(run[..n], q.tsCode), q, run[n]);
        }
      }
    }
  }

  // ----- honest quotes, any number of a code

  lemma HonestKept(q: Quote, strong: set<string>)
    requires Honest(q) && (AtLimit(q) || Strong(q))
    ensures Kept(q, strong)
  {
    LimitUpShowsFivePercentIff(q.preClose, DetectBoard(if |q.tsCode| >= 6 then q.tsCode[..6] else q.tsCode));
  }

  ghost predicate HonestTick(t: MarketTick) {
    forall q :: q in t.quotes && Live(q, t.stocks) ==> Honest(q)
  }

  lemma {:induction false} KeptLast(quotes: seq<Quote>, strong: set<string>, now: string, stocks: StockMap, code: string)
    requires LastLive(quotes, stocks, code).Some? && Kept(LastLive(quotes, stocks, code).value, strong)
    ensures LastLive(KeptQuotes(quotes, strong, now), stocks, code)
            == Some(LastLive(quotes, stocks, code).value.(updateTime := now))
  {
    var prefix, last := quotes[..|quotes| - 1], quotes[|quotes| - 1];
    if !(Live(last, stocks) && last.tsCode == code) {
      KeptLast(prefix, strong, now, stocks, code);
      var kept := KeptQuotes(prefix, strong, now);
      if Kept(last, strong) {
        assert (kept + [last.(updateTime := now)])[..|kept|] == kept;
      } else {
        assert KeptQuotes(quotes, strong, now) == kept;
      }
    }
  }

  lemma HonestLimitIsKept(t: MarketTick, code: string)
    requires HonestTick(t) && WasAtLimit(LastLive(t.quotes, t.stocks, code))
    ensures WasAtLimit(LastLive(KeptOf(t), t.stocks, code))
  {
    LastLiveIsLive(t.quotes, t.stocks, code);
    HonestKept(LastLive(t.quotes, t.stocks, code).value, t.strong);
    KeptLast(t.quotes, t.strong, t.now, t.stocks, code);
  }

  /** On honest quotes a limit-up quote is never dropped, so the last kept quote of a code whose
      last quote is limit-up is that quote. */
  lemma {:induction false} HonestLastIsKept(run: seq<MarketTick>, code: string)
    requires forall i :: 0 <= i < |run| ==> HonestTick(run[i])
    ensures WasAtLimit(LastQuote(run, code)) ==> WasAtLimit(LastKept(run, code))
  {
    if run != [] {
      var prefix, t := run[..|run| - 1], run[|run| - 1];
      assert forall i :: 0 <= i < |prefix| ==> prefix[i] == run[i];
      HonestLastIsKept(prefix, code);
      if LastLive(t.quotes, t.stocks, code).None? {
        KeptLiveHasOrigin(t, code);
      } else if WasAtLimit(LastLive(t.quotes, t.stocks, code)) {
        HonestLimitIsKept(t, code);
      }
    }
  }

  lemma HonestSome(t: MarketTick, code: string, p: Quote -> bool)
    requires HonestTick(t)
    requires forall q :: p(q) ==> AtLimit(q) || Strong(q)
    requires forall q, now :: p(q) <==> p(q.(updateTime := now))
    ensures SomeQuote(KeptOf(t), t.stocks, code, p) <==> SomeQuote(t.quotes, t.stocks, code, p)
  {
    if k :| k in KeptOf(t) && Live(k, t.stocks) && k.tsCode == code && p(k) {
      KeptOrigin(t.quotes, t.strong, t.now, k);
      var q :| q in t.quotes && Kept(q, t.strong) && k == q.(updateTime := t.now);
      assert p(q);
    }
    if q :| q in t.quotes && Live(q, t.stocks) && q.tsCode == code && p(q) {
      HonestKept(q, t.strong);
      KeptQuotesMembers(t.quotes, t.strong, t.now, q);
      assert p(q.(updateTime := t.now));
    }
  }

  ghost predicate AllDropped(t: MarketTick, code: string) {
    forall q :: q in t.quotes && Live(q, t.stocks) && q.tsCode == code ==> !Kept(q, t.strong)
  }

  lemma AllDroppedIff(t: MarketTick, code: string)
    ensures AllDropped(t, code) <==> LastLive(KeptOf(t), t.stocks, code).None?
  {
    LastLiveIsLive(KeptOf(t), t.stocks, code);
    if q :| q in t.quotes && Live(q, t.stocks) && q.tsCode == code && Kept(q, t.strong) {
      KeptQuotesMembers(t.quotes, t.strong, t.now, q);
    } else {
      forall k | k in KeptOf(t) && Live(k, t.stocks) ensures k.tsCode != code {
        KeptOrigin(t.quotes, t.strong, t.now, k);
        var q :| q in t.quotes && Kept(q, t.strong) && k == q.(updateTime := t.now);
      }
    }
  }

  /** What an honest tick does to a code it has live quotes of: if one is at the limit the last
      is, if one is strong the last is, and if all are dropped the last quote before the tick was
      neither strong nor at the limit. */
  ghost predicate HonestlyFollowed(run: seq<MarketTick>, t: MarketTick, code: string) {
    var last := LastLive(t.quotes, t.stocks, code);
    last.Some? ==>
      && (SomeQuote(t.quotes, t.stocks, code, AtLimit) ==> WasAtLimit(last))
      && (SomeQuote(t.quotes, t.stocks, code, Strong) ==> WasStrong(last))
      && (AllDropped(t, code) ==> !WasAtLimit(LastQuote(run, code)) && !WasStrong(LastQuote(run, code)))
  }

  lemma HonestlyFollowedIff(run: seq<MarketTick>, t: MarketTick, code: string)
    requires HonestTick(t) && forall i :: 0 <= i < |run| ==> HonestTick(run[i])
    ensures Followed(run, t, code) <==> HonestlyFollowed(run, t, code)
  {
    HonestSome(t, code, AtLimit);
    HonestSome(t, code, Strong);
    HonestLastIsKept(run, code);
    AllDroppedIff(t, code);
    LastLiveIsLive(t.quotes, t.stocks, code);
    var last := LastLive(t.quotes, t.stocks, code);
    if last.Some? {
      assert AtLimit(last.value) ==> SomeQuote(t.quotes, t.stocks, code, AtLimit);
      assert Strong(last.value) ==> SomeQuote(t.quotes, t.stocks, code, Strong);
      if AllDropped(t, code) {
        if AtLimit(last.value) || Strong(last.value) {
          HonestKept(last.value, t.strong);
        }
        forall q | q in t.quotes && Live(q, t.stocks) && q.tsCode == code ensures !AtLimit(q) && !Strong(q) {
          if AtLimit(q) || Strong(q) { HonestKept(q, t.strong); }
        }
      }
    }
  }

  ghost predicate AllHonestlyFollowed(run: seq<MarketTick>, t: MarketTick) {
    forall code :: HonestlyFollowed(run, t, code)
  }

  /** On honest quotes, any number of a code, the pools follow the market through a whole day if
      and only if in every tick the last quote of a code is limit-up or strong whenever one of
      its quotes is, and no strong or limit-up stock falls with quotes that are all dropped. */
  lemma HonestPoolsFollowMarketIff(run: seq<MarketTick>)
    requires forall i :: 0 <= i < |run| ==> HonestTick(run[i])
    ensures MatchesThroughout(run) <==> forall n :: 0 <= n < |run| ==> AllHonestlyFollowed(run[..n], run[n])
  {
    PoolsFollowMarketIff(run);
    forall n | 0 <= n < |run| ensures AllFollowed(run[..n], run[n]) <==> AllHonestlyFollowed(run[..n], run[n]) {
      assert forall i :: 0 <= i < n ==> run[..n][i] == run[i];
      forall code ensures Followed(run[..n], run[n], code) <==> HonestlyFollowed(run[..n], run[n], code) {
        HonestlyFollowedIff(run[..n], run[n], code);
      }
    }
  }

  /** The family that fails: a stock at its limit in one tick whose next quote is below 5%,
      and which was not strong yesterday, stays in the limit-up pool. */
  lemma FallenStockStays(t1: MarketTick, t2: MarketTick, q1: Quote, q2: Quote)
    requires OneQuotePerCode(t1.quotes) && OneQuotePerCode(t2.quotes)
    requires q1 in t1.quotes && Live(q1, t1.stocks) && Kept(q1, t1.strong) && AtLimit(q1)
    requires q2 in t2.quotes && Live(q2, t2.stocks) && !Kept(q2, t2.strong) && !AtLimit(q2)
    requires q1.tsCode == q2.tsCode
    ensures LastQuote([t1, t2], q2.tsCode) == Some(q2) && q2.tsCode in ExecMarket([t1, t2]).limitUp
  {
    assert [t1, t2][..1] == [t1] && [t1][..0] == [];
    assert ExecMarket([t1]) == MarketStep(Fresh, t1);
    assert ExecMarket([t1, t2]) == MarketStep(ExecMarket([t1]), t2);
    KeptAgrees(Fresh, t1, q1);
    LastLiveIsLive(t2.quotes, t2.stocks, q2.tsCode);
    assert forall p :: p in t2.quotes && p.tsCode == q2.tsCode ==> p == q2;
    UnkeptUntouched(ExecMarket([t1]), t2, q2.tsCode);
  }
}
