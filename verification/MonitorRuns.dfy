/** What whole runs of the tick engine keep on one date. The reference is the quote history
    alone: the last quote processed for each code, and its first limit-up quote. */
module MonitorRuns {
  import opened Wrappers
  import opened Limiter
  import opened PoolCaches
  import opened Monitor
  import opened ClassifyTypes

  datatype Event = Tick(quotes: seq<Quote>, stocks: StockMap) | Reset

  function Step(e: Engine, event: Event): Engine {
    match event
    case Tick(quotes, stocks) => TickStep(e, quotes, stocks)
    case Reset => e.(states := map[])
  }

  function Exec(run: seq<Event>): Engine {
    if run == [] then Fresh else Step(Exec(run[..|run| - 1]), run[|run| - 1])
  }

  // ----- the reference: what the quotes say, with no state

  predicate AtLimit(q: Quote) {
    ReachesLimit(q.price, q.preClose, RatioOf(q.tsCode))
  }

  predicate Strong(q: Quote) {
    q.preClose > 0 && q.pctChg >= 500 && !AtLimit(q)
  }

  predicate NotStrong(q: Quote) {
    !Strong(q)
  }

  predicate WasAtLimit(last: Option<Quote>) {
    last.Some? && AtLimit(last.value)
  }

  predicate WasStrong(last: Option<Quote>) {
    last.Some? && Strong(last.value)
  }

  function LastLive(quotes: seq<Quote>, stocks: StockMap, code: string): Option<Quote> {
    if quotes == [] then None
    else
      var q := quotes[|quotes| - 1];
      if Live(q, stocks) && q.tsCode == code then Some(q) else LastLive(quotes[..|quotes| - 1], stocks, code)
  }

  /** The last quote processed for a code. */
  function LastOf(run: seq<Event>, code: string): Option<Quote> {
    if run == [] then None
    else
      var event := run[|run| - 1];
      if event.Tick? && LastLive(event.quotes, event.stocks, code).Some?
      then LastLive(event.quotes, event.stocks, code)
      else LastOf(run[..|run| - 1], code)
  }

  /** The time of the first limit-up quote of a code within one tick. */
  function FirstLimitIn(quotes: seq<Quote>, stocks: StockMap, code: string): Option<string> {
    if quotes == [] then None
    else
      var earlier := FirstLimitIn(quotes[..|quotes| - 1], stocks, code);
      var q := quotes[|quotes| - 1];
      if earlier.Some? then earlier
      else if Live(q, stocks) && q.tsCode == code && AtLimit(q) then Some(q.updateTime) else None
  }

  function FirstLimitOf(run: seq<Event>, code: string): Option<string> {
    if run == [] then None
    else
      var earlier := FirstLimitOf(run[..|run| - 1], code);
      var event := run[|run| - 1];
      if earlier.None? && event.Tick? then FirstLimitIn(event.quotes, event.stocks, code) else earlier
  }

  /** At most one quote for each code. */
  predicate OneQuotePerCode(quotes: seq<Quote>) {
    forall i, j :: 0 <= i < j < |quotes| ==> quotes[i].tsCode != quotes[j].tsCode
  }

  // ----- one tick, code by code

  ghost predicate SomeQuote(quotes: seq<Quote>, stocks: StockMap, code: string, p: Quote -> bool) {
    exists q :: q in quotes && Live(q, stocks) && q.tsCode == code && p(q)
  }

  lemma SomeQuoteSnoc(quotes: seq<Quote>, stocks: StockMap, code: string, p: Quote -> bool)
    requires quotes != []
    ensures var q := quotes[|quotes| - 1];
            SomeQuote(quotes, stocks, code, p)
            <==> SomeQuote(quotes[..|quotes| - 1], stocks, code, p) || (Live(q, stocks) && q.tsCode == code && p(q))
  {
  }

  /** Which codes a tick puts in its lists is decided by its quotes alone, even when a code
      has several, except for the one branch that asks the state: an above-5% quote removes
      its code from the limit-up pool only when the stock has just opened. */
  lemma {:induction false} LoopLists(e: Engine, quotes: seq<Quote>, stocks: StockMap, code: string)
    ensures var b := QuoteLoop(e, quotes, stocks);
            && (code in b.limitUpCodes <==> SomeQuote(quotes, stocks, code, AtLimit))
            && (code in b.limitUpSet <==> SomeQuote(quotes, stocks, code, AtLimit))
            && (code in b.above5Codes <==> SomeQuote(quotes, stocks, code, Strong))
            && (code in b.removeFromAbove5 <==> SomeQuote(quotes, stocks, code, NotStrong))
  {
    if quotes != [] {
      LoopLists(e, quotes[..|quotes| - 1], stocks, code);
      SomeQuoteSnoc(quotes, stocks, code, AtLimit);
      SomeQuoteSnoc(quotes, stocks, code, Strong);
      SomeQuoteSnoc(quotes, stocks, code, NotStrong);
    }
  }

  lemma {:induction false} LoopUntouched(e: Engine, quotes: seq<Quote>, stocks: StockMap, code: string)
    requires forall q :: q in quotes && Live(q, stocks) ==> q.tsCode != code
    ensures LastLive(quotes, stocks, code) == None
    ensures var b := QuoteLoop(e, quotes, stocks);
            && StateOf(b.states, code) == StateOf(e.states, code)
            && code !in b.limitUpCodes && code !in b.above5Codes
            && code !in b.removeFromLimitUp && code !in b.removeFromAbove5
  {
    if quotes != [] {
      LoopUntouched(e, quotes[..|quotes| - 1], stocks, code);
    }
  }

  /** With one quote per code, the code of a live quote gets that quote's verdict from the
      state it had before the tick. */
  lemma {:induction false} LoopVerdict(e: Engine, quotes: seq<Quote>, stocks: StockMap, q: Quote)
    requires OneQuotePerCode(quotes) && q in quotes && Live(q, stocks)
    ensures LastLive(quotes, stocks, q.tsCode) == Some(q)
    ensures var b := QuoteLoop(e, quotes, stocks);
            var out := Detect(q, StateOf(e.states, q.tsCode));
            && StateOf(b.states, q.tsCode) == out.currentState
            && (q.tsCode in b.limitUpCodes <==> AtLimit(q))
            && (q.tsCode in b.above5Codes <==> Strong(q))
            && (q.tsCode in b.removeFromAbove5 <==> !Strong(q))
            && (q.tsCode in b.removeFromLimitUp <==> !AtLimit(q) && (Strong(q) ==> out.currentState == Opened))
  {
    var prefix, last := quotes[..|quotes| - 1], quotes[|quotes| - 1];
    if q == last {
      LoopUntouched(e, prefix, stocks, q.tsCode);
    } else {
      var i :| 0 <= i < |quotes| && quotes[i] == q;
      assert prefix[i] == q && last.tsCode != q.tsCode;
      LoopVerdict(e, prefix, stocks, q);
    }
  }

  /** The last live quote of a code is one of its live quotes; there is none only without any. */
  lemma {:induction false} LastLiveIsLive(quotes: seq<Quote>, stocks: StockMap, code: string)
    ensures var last := LastLive(quotes, stocks, code);
            if last.Some? then last.value in quotes && Live(last.value, stocks) && last.value.tsCode == code
            else forall q :: q in quotes && Live(q, stocks) ==> q.tsCode != code
  {
    if quotes != [] {
      LastLiveIsLive(quotes[..|quotes| - 1], stocks, code);
    }
  }

  /** After a tick a stock is sealed exactly when its last quote of the tick was limit-up, or
      it had none and was sealed before. */
  lemma {:induction false} LoopSealed(e: Engine, quotes: seq<Quote>, stocks: StockMap, code: string)
    ensures var last := LastLive(quotes, stocks, code);
            StateOf(QuoteLoop(e, quotes, stocks).states, code).Sealed()
            <==> if last.Some? then AtLimit(last.value) else StateOf(e.states, code).Sealed()
  {
    if quotes != [] {
      LoopSealed(e, quotes[..|quotes| - 1], stocks, code);
    }
  }

  /** The one branch that asks the state: without a limit-up quote in the tick, a code is
      removed from the limit-up pool for a quote that is not strong, or for its first strong
      quote if it was sealed before the tick. */
  lemma {:induction false} LoopRemovals(e: Engine, quotes: seq<Quote>, stocks: StockMap, code: string)
    requires !SomeQuote(quotes, stocks, code, AtLimit)
    ensures code in QuoteLoop(e, quotes, stocks).removeFromLimitUp
            <==> SomeQuote(quotes, stocks, code, NotStrong)
                 || (StateOf(e.states, code).Sealed() && SomeQuote(quotes, stocks, code, Strong))
  {
    if quotes != [] {
      var prefix := quotes[..|quotes| - 1];
      SomeQuoteSnoc(quotes, stocks, code, AtLimit);
      SomeQuoteSnoc(quotes, stocks, code, Strong);
      SomeQuoteSnoc(quotes, stocks, code, NotStrong);
      LoopRemovals(e, prefix, stocks, code);
      LoopSealed(e, prefix, stocks, code);
      LastLiveIsLive(prefix, stocks, code);
    }
  }

  // ----- pools

  /** The pools say of one code what its last quote says. */
  ghost predicate Agrees(e: Engine, last: Option<Quote>, code: string) {
    (code in e.limitUp <==> WasAtLimit(last)) && (code in e.above5 <==> WasStrong(last))
  }

  ghost predicate PoolsExact(e: Engine, run: seq<Event>) {
    forall code :: Agrees(e, LastOf(run, code), code)
  }

  function Newest(last: Option<Quote>, quotes: seq<Quote>, stocks: StockMap, code: string): Option<Quote> {
    var newest := LastLive(quotes, stocks, code);
    if newest.Some? then newest else last
  }

  /** What a tick asks of a code's quotes: if one is at the limit the last one is, if one is
      strong the last one is, and a code that is in the limit-up pool without being sealed
      has a quote that is not strong. */
  ghost predicate Settled(e: Engine, quotes: seq<Quote>, stocks: StockMap, code: string) {
    var last := LastLive(quotes, stocks, code);
    last.Some? ==>
      && (SomeQuote(quotes, stocks, code, AtLimit) ==> AtLimit(last.value))
      && (SomeQuote(quotes, stocks, code, Strong) ==> Strong(last.value))
      && (code in e.limitUp && !StateOf(e.states, code).Sealed() ==> SomeQuote(quotes, stocks, code, NotStrong))
  }

  /** The pools after a tick, at a code: unchanged without a live quote of it; else the above-5%
      pool has it iff one is strong, the limit-up pool iff one is at the limit, or it was there
      unsealed and all are strong. */
  lemma TickPools(e: Engine, quotes: seq<Quote>, stocks: StockMap, code: string)
    ensures var e' := TickStep(e, quotes, stocks);
            if LastLive(quotes, stocks, code).None? then
              (code in e'.limitUp <==> code in e.limitUp) && (code in e'.above5 <==> code in e.above5)
            else
              && (code in e'.above5 <==> SomeQuote(quotes, stocks, code, Strong))
              && (code in e'.limitUp <==>
                    || SomeQuote(quotes, stocks, code, AtLimit)
                    || (code in e.limitUp && !StateOf(e.states, code).Sealed() && !SomeQuote(quotes, stocks, code, NotStrong)))
  {
    LastLiveIsLive(quotes, stocks, code);
    var newest := LastLive(quotes, stocks, code);
    if newest.None? {
      LoopUntouched(e, quotes, stocks, code);
    } else {
      LoopLists(e, quotes, stocks, code);
      assert if Strong(newest.value) then SomeQuote(quotes, stocks, code, Strong)
             else SomeQuote(quotes, stocks, code, NotStrong);
      if q :| q in quotes && Live(q, stocks) && q.tsCode == code && AtLimit(q) {
        assert SomeQuote(quotes, stocks, code, AtLimit);
      } else {
        LoopRemovals(e, quotes, stocks, code);
      }
    }
  }

  lemma TickAgreesIff(e: Engine, last: Option<Quote>, quotes: seq<Quote>, stocks: StockMap, code: string)
    requires Agrees(e, last, code)
    ensures Agrees(TickStep(e, quotes, stocks), Newest(last, quotes, stocks, code), code)
            <==> Settled(e, quotes, stocks, code)
  {
    TickPools(e, quotes, stocks, code);
    LastLiveIsLive(quotes, stocks, code);
    var newest := LastLive(quotes, stocks, code);
    if newest.Some? {
      assert AtLimit(newest.value) ==> SomeQuote(quotes, stocks, code, AtLimit);
      assert Strong(newest.value) ==> SomeQuote(quotes, stocks, code, Strong);
      if q :| q in quotes && Live(q, stocks) && q.tsCode == code && AtLimit(q) {
        assert SomeQuote(quotes, stocks, code, NotStrong);
      }
    }
  }

  lemma LastOfTick(run: seq<Event>, quotes: seq<Quote>, stocks: StockMap, code: string)
    ensures LastOf(run + [Tick(quotes, stocks)], code) == Newest(LastOf(run, code), quotes, stocks, code)
  {
    assert (run + [Tick(quotes, stocks)])[..|run|] == run;
  }

  /** One tick keeps the pools equal to the quote history if and only if every code settles.
      This is exact for every engine state, whatever resets came before and however many
      quotes the tick has of a code. */
  lemma TickKeepsPoolsIff(e: Engine, run: seq<Event>, quotes: seq<Quote>, stocks: StockMap)
    requires PoolsExact(e, run)
    ensures PoolsExact(TickStep(e, quotes, stocks), run + [Tick(quotes, stocks)])
            <==> forall code :: Settled(e, quotes, stocks, code)
  {
    forall code
      ensures Agrees(TickStep(e, quotes, stocks), LastOf(run + [Tick(quotes, stocks)], code), code)
              <==> Settled(e, quotes, stocks, code)
    {
      LastOfTick(run, quotes, stocks, code);
      TickAgreesIff(e, LastOf(run, code), quotes, stocks, code);
    }
  }

  /** A code the tick would leave behind in the limit-up pool: it is in the pool, its state
      does not say so, and its quote is strong but no longer at the limit. */
  predicate Stranded(e: Engine, q: Quote, stocks: StockMap) {
    Live(q, stocks) && Strong(q) && q.tsCode in e.limitUp && !StateOf(e.states, q.tsCode).Sealed()
  }

  /** With one quote per code, a code settles exactly when its quote is not stranded. */
  lemma SingleQuoteSettlesIff(e: Engine, quotes: seq<Quote>, stocks: StockMap, code: string)
    requires OneQuotePerCode(quotes)
    ensures Settled(e, quotes, stocks, code)
            <==> forall q :: q in quotes && q.tsCode == code ==> !Stranded(e, q, stocks)
  {
    LastLiveIsLive(quotes, stocks, code);
    var last := LastLive(quotes, stocks, code);
    if last.Some? {
      var q := last.value;
      assert forall p :: p in quotes && p.tsCode == code ==> p == q;
      assert SomeQuote(quotes, stocks, code, NotStrong) <==> NotStrong(q);
    }
  }

  ghost predicate StatesMatchPool(e: Engine) {
    forall code :: code in e.limitUp <==> StateOf(e.states, code).Sealed()
  }

  lemma TickKeepsStatesMatchPool(e: Engine, quotes: seq<Quote>, stocks: StockMap)
    requires OneQuotePerCode(quotes) && StatesMatchPool(e)
    ensures StatesMatchPool(TickStep(e, quotes, stocks))
  {
    forall code
      ensures code in TickStep(e, quotes, stocks).limitUp
              <==> StateOf(TickStep(e, quotes, stocks).states, code).Sealed()
    {
      if q :| q in quotes && Live(q, stocks) && q.tsCode == code {
        LoopVerdict(e, quotes, stocks, q);
      } else {
        LoopUntouched(e, quotes, stocks, code);
      }
    }
  }

  ghost predicate CleanDay(run: seq<Event>) {
    forall i :: 0 <= i < |run| ==> run[i].Tick? && OneQuotePerCode(run[i].quotes)
  }

  lemma {:induction false} RunInvariant(run: seq<Event>)
    requires CleanDay(run)
    ensures PoolsExact(Exec(run), run) && StatesMatchPool(Exec(run))
  {
    if run != [] {
      var prefix, last := run[..|run| - 1], run[|run| - 1];
      RunInvariant(prefix);
      forall code ensures Settled(Exec(prefix), last.quotes, last.stocks, code) {
        SingleQuoteSettlesIff(Exec(prefix), last.quotes, last.stocks, code);
      }
      TickKeepsPoolsIff(Exec(prefix), prefix, last.quotes, last.stocks);
      TickKeepsStatesMatchPool(Exec(prefix), last.quotes, last.stocks);
      assert prefix + [Tick(last.quotes, last.stocks)] == run;
    }
  }

  /** After any sequence of ticks from a fresh engine the limit-up pool is exactly the codes
      whose last quote was limit-up and the above-5% pool exactly those whose last quote was
      strong without being limit-up; no code is in both. */
  lemma PoolsRefineHistory(run: seq<Event>)
    requires CleanDay(run)
    ensures forall code :: code in Exec(run).limitUp
              <==> LastOf(run, code).Some? && AtLimit(LastOf(run, code).value)
    ensures forall code :: code in Exec(run).above5
              <==> LastOf(run, code).Some? && Strong(LastOf(run, code).value)
    ensures Exec(run).limitUp !! Exec(run).above5
  {
    RunInvariant(run);
    assert forall code :: Agrees(Exec(run), LastOf(run, code), code);
  }

  // ----- whole runs, with resets and several quotes of a code, told by the quotes alone

  /** The last quote processed for a code since the last reset. */
  function LastSinceReset(run: seq<Event>, code: string): Option<Quote> {
    if run == [] || run[|run| - 1].Reset? then None
    else Newest(LastSinceReset(run[..|run| - 1], code), run[|run| - 1].quotes, run[|run| - 1].stocks, code)
  }

  lemma {:induction false} SealedIsLastSinceReset(run: seq<Event>, code: string)
    ensures StateOf(Exec(run).states, code).Sealed() <==> WasAtLimit(LastSinceReset(run, code))
  {
    if run != [] && run[|run| - 1].Tick? {
      var prefix, tick := run[..|run| - 1], run[|run| - 1];
      SealedIsLastSinceReset(prefix, code);
      LoopSealed(Exec(prefix), tick.quotes, tick.stocks, code);
    }
  }

  /** An event after a run: if the tick has a limit-up quote of a code the code's last quote is
      limit-up, if it has a strong one the last is strong, and a code that was at its limit
      before a reset and has had no quote since does not come back with strong quotes only. */
  ghost predicate Orderly(run: seq<Event>, event: Event, code: string) {
    event.Tick? && LastLive(event.quotes, event.stocks, code).Some? ==>
      var last := LastLive(event.quotes, event.stocks, code).value;
      && (SomeQuote(event.quotes, event.stocks, code, AtLimit) ==> AtLimit(last))
      && (SomeQuote(event.quotes, event.stocks, code, Strong) ==> Strong(last))
      && (WasAtLimit(LastOf(run, code)) && LastSinceReset(run, code).None? ==>
            SomeQuote(event.quotes, event.stocks, code, NotStrong))
  }

  lemma {:induction false} SinceResetIsLast(run: seq<Event>, code: string)
    ensures LastSinceReset(run, code).Some? ==> LastOf(run, code) == LastSinceReset(run, code)
  {
    if run != [] {
      SinceResetIsLast(run[..|run| - 1], code);
    }
  }

  ghost predicate OrderlyEvent(run: seq<Event>, event: Event) {
    forall code :: Orderly(run, event, code)
  }

  lemma EventKeepsPoolsIff(run: seq<Event>, event: Event)
    requires PoolsExact(Exec(run), run)
    ensures PoolsExact(Exec(run + [event]), run + [event]) <==> OrderlyEvent(run, event)
  {
    assert (run + [event])[..|run|] == run;
    match event
    case Reset =>
      forall code ensures Agrees(Exec(run + [event]), LastOf(run + [event], code), code) {
        assert Agrees(Exec(run), LastOf(run, code), code);
      }
    case Tick(quotes, stocks) =>
      TickKeepsPoolsIff(Exec(run), run, quotes, stocks);
      forall code ensures Settled(Exec(run), quotes, stocks, code) <==> Orderly(run, event, code) {
        assert Agrees(Exec(run), LastOf(run, code), code);
        SealedIsLastSinceReset(run, code);
        SinceResetIsLast(run, code);
      }
  }

  ghost predicate ExactThroughout(run: seq<Event>) {
    forall n :: 0 <= n <= |run| ==> PoolsExact(Exec(run[..n]), run[..n])
  }

  ghost predicate OrderlyThroughout(run: seq<Event>) {
    forall n :: 0 <= n < |run| ==> OrderlyEvent(run[..n], run[n])
  }

  lemma ExactSnoc(run: seq<Event>, event: Event)
    ensures ExactThroughout(run + [event]) <==> ExactThroughout(run) && PoolsExact(Exec(run + [event]), run + [event])
  {
    assert forall n :: 0 <= n <= |run| ==> (run + [event])[..n] == run[..n];
    assert (run + [event])[..|run| + 1] == run + [event];
  }

  lemma OrderlySnoc(run: seq<Event>, event: Event)
    ensures OrderlyThroughout(run + [event]) <==> OrderlyThroughout(run) && OrderlyEvent(run, event)
  {
    assert forall n :: 0 <= n <= |run| ==> (run + [event])[..n] == run[..n];
    assert run[..|run|] == run && (run + [event])[|run|] == event;
  }

  lemma ExactNow(run: seq<Event>)
    requires ExactThroughout(run)
    ensures PoolsExact(Exec(run), run)
  {
    assert run[..|run|] == run;
  }

  /** For any run of ticks and resets, with any number of quotes of a code: the pools equal the
      quote history all along if and only if every event is orderly. */
  lemma {:induction false} PoolsExactThroughoutIff(run: seq<Event>)
    ensures ExactThroughout(run) <==> OrderlyThroughout(run)
  {
    if run == [] {
      assert run[..0] == [];
    } else {
      var prefix, event := run[..|run| - 1], run[|run| - 1];
      assert run == prefix + [event];
      ExactSnoc(prefix, event);
      OrderlySnoc(prefix, event);
      PoolsExactThroughoutIff(prefix);
      if ExactThroughout(prefix) {
        ExactNow(prefix);
        EventKeepsPoolsIff(prefix, event);
      }
    }
  }

  /** A mid-day reset breaks it: after a sealed tick and a reset, a strong quote below the
      limit puts the code in both pools, for every code. */
  lemma ResetStrandsASealedCode(code: string, stocks: StockMap, atLimit: Quote, strong: Quote)
    requires code in stocks && !stocks[code].isST
    requires atLimit.tsCode == strong.tsCode == code && AtLimit(atLimit) && Strong(strong)
    ensures var e := Exec([Tick([atLimit], stocks), Reset, Tick([strong], stocks)]);
            code in e.limitUp && code in e.above5
  {
    var run := [Tick([atLimit], stocks), Reset, Tick([strong], stocks)];
    assert run[..2][..1] == run[..1] && run[..1][..0] == [];
    assert Exec(run[..1]) == TickStep(Fresh, [atLimit], stocks);
    assert Exec(run[..2]) == Exec(run[..1]).(states := map[]);
    assert Exec(run) == TickStep(Exec(run[..2]), [strong], stocks);
    LoopVerdict(Fresh, [atLimit], stocks, atLimit);
    LoopVerdict(Exec(run[..2]), [strong], stocks, strong);
  }

  /** With two quotes of one code in a tick the additions, which come last, win: the code
      stays in the limit-up pool although its last quote had later. */
  lemma DuplicateQuotesKeepTheLimitUp(code: string, stocks: StockMap, first: Quote, later: Quote)
    requires code in stocks && !stocks[code].isST
    requires first.tsCode == later.tsCode == code && AtLimit(first) && !AtLimit(later)
    ensures var run := [Tick([first, later], stocks)];
            LastOf(run, code) == Some(later) && code in Exec(run).limitUp
  {
    var run := [Tick([first, later], stocks)];
    assert run[..0] == [] && [first, later][..1] == [first] && [first][..0] == [];
    LoopLists(Fresh, [first, later], stocks, code);
    assert SomeQuote([first, later], stocks, code, AtLimit) by { assert first in [first, later]; }
  }

  // ----- first limit-up times, over runs that may contain resets and duplicate quotes

  ghost predicate TimeExact(states: map<string, LimitState>, times: map<string, string>, code: string, first: Option<string>) {
    && (code in times <==> first.Some?)
    && (code in times ==> times[code] == first.value)
    && (StateOf(states, code) != Idle ==> code in times)
  }

  function Earlier(first: Option<string>, next: Option<string>): Option<string> {
    if first.Some? then first else next
  }

  /** Within a tick: a state other than Idle means the time is already recorded, so the
      set-if-absent write never loses the earliest time. */
  lemma {:induction false} LoopTimes(e: Engine, quotes: seq<Quote>, stocks: StockMap, code: string, first: Option<string>)
    requires TimeExact(e.states, e.firstLimit, code, first)
    ensures var b := QuoteLoop(e, quotes, stocks);
            TimeExact(b.states, b.firstLimit, code, Earlier(first, FirstLimitIn(quotes, stocks, code)))
  {
    if quotes != [] {
      LoopTimes(e, quotes[..|quotes| - 1], stocks, code, first);
    }
  }

  /** A code has a first-limit time exactly when one of its processed quotes was limit-up,
      and the time is that of the earliest one, whatever resets and duplicates the run has. */
  lemma {:induction false} FirstLimitTimeIsEarliest(run: seq<Event>, code: string)
    ensures var e, first := Exec(run), FirstLimitOf(run, code);
            && (code in e.firstLimit <==> first.Some?)
            && (code in e.firstLimit ==> e.firstLimit[code] == first.value)
            && (StateOf(e.states, code) != Idle ==> code in e.firstLimit)
  {
    if run != [] {
      var prefix, last := run[..|run| - 1], run[|run| - 1];
      FirstLimitTimeIsEarliest(prefix, code);
      if last.Tick? {
        LoopTimes(Exec(prefix), last.quotes, last.stocks, code, FirstLimitOf(prefix, code));
      }
    }
  }

  // ----- what the classifier is given

  lemma {:induction false} HeatInputMembers(quotes: seq<Quote>, stocks: StockMap, set_: set<string>)
    ensures forall h :: h in HeatInputs(quotes, stocks, set_) <==>
              exists q :: q in quotes && Live(q, stocks) && h == StockQuoteInput(q.tsCode, q.pctChg, q.tsCode in set_)
  {
    if quotes != [] {
      var prefix, q := quotes[..|quotes| - 1], quotes[|quotes| - 1];
      HeatInputMembers(prefix, stocks, set_);
      assert forall p :: p in quotes <==> p in prefix || p == q;
    }
  }

  /** The heat inputs are the live quotes, each flagged limit-up exactly when some live quote of
      its code is at the limit; with one quote per code, exactly when its own price is. */
  lemma HeatInputsFlagLimitUps(e: Engine, quotes: seq<Quote>, stocks: StockMap)
    ensures var inputs := HeatInputs(quotes, stocks, QuoteLoop(e, quotes, stocks).limitUpSet);
            forall h :: h in inputs <==>
              exists q :: q in quotes && Live(q, stocks)
                          && h == StockQuoteInput(q.tsCode, q.pctChg, SomeQuote(quotes, stocks, q.tsCode, AtLimit))
    ensures OneQuotePerCode(quotes) ==> forall q :: q in quotes && Live(q, stocks) ==>
              (SomeQuote(quotes, stocks, q.tsCode, AtLimit) <==> AtLimit(q))
  {
    var flags := QuoteLoop(e, quotes, stocks).limitUpSet;
    HeatInputMembers(quotes, stocks, flags);
    forall q | q in quotes && Live(q, stocks)
      ensures q.tsCode in flags <==> SomeQuote(quotes, stocks, q.tsCode, AtLimit)
    {
      LoopLists(e, quotes, stocks, q.tsCode);
    }
  }
}
