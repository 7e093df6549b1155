# A-share limit-up tracker: verified model

The program follows limit-up and strong stocks of the A-share market during the day, ties them to
topics, and keeps a daily snapshot. This project models its algorithms and states in Dafny and
proves what they guarantee over whole runs, for all inputs.

`dafny verify dfyconfig.toml` checks everything.

## How the model is built

Code that changes state in steps is modelled by methods and classes with the same branches
(`MonitorService`, `PoolCache`, `RunState`, `RelationTable`, `CrawlerService`,
`SnapshotRepository`, `StockMatcher`, the in-place sort and the greedy split). Each method is proved
equal to a specification function of its input or old state. The theorems are lemmas about those
functions and compare them with an independent reference that has no state: the quote history, plain
counts, the set of raw rows, the longest run of days, a direct scan of the profiles. Boards,
HeatRanking, HeatCounts, CrawlMapping, SnapshotColumns and SectorNames restate the results with the
program's constants and columns written out, without the functions that the code itself uses.

| file | subject |
|---|---|
| Limiter, PoolCache, Monitor, MonitorRuns, FilteredTicks, Boards | limit prices, the state machine of a stock, the two pools and the first limit-up times over whole days |
| ClassifyTypes, HeatPick, HeatStats, HeatClassify, HeatTheorems, HeatRanking, HeatCounts | the two-pass heat classifier |
| TopicRelations, Batches, RelationTable, Crawler, CrawlEquivalence, CrawlMapping | merging relations, upserts, daily crawls against a rebuild |
| Calendar, DateText, SnapshotRepo, Snapshot, SnapshotColumns | trading days, the cached snapshot table, consecutive strong days |
| SectorFetcher | the double-checked sector cache under every interleaving |
| Matcher, Cluster, SectorClusters, SectorNames | keyword recall of stocks, clustering of news |
| Attribution | the four-weight attribution score |

Conventions:

- Prices are integer cents and percentage changes integer hundredths of a percent, so 500 is 5.00%.
  Rates and scores are exact reals. (`Limiter.RoundedLimitIff` remarks on the float product behind
  the limit price: if it is off by less than a hundredth of a cent, the price is the exact one, or
  one cent lower when the true product is a whole cent and the error is negative.)
- The 5% bounds differ on purpose: the pools and the snapshot take 5.00% itself (`>=`), the
  classifier does not (`>`).
- Quotes, stored relations, topic totals, limit lists, the list of filtered topic names and the
  holiday table are inputs. The random choice between tied recent topics is a function of the stock
  and the tied list.
- A table is a map on its unique key. One `INSERT ... ON CONFLICT` statement takes 500 rows;
  PostgreSQL refuses a statement that would update a row twice, and the transaction then writes
  nothing. The aggregate query may answer in any order.
- Iteration over a Go map takes the keys in any order (`Wrappers.AnyOf`).
- Some inner loops are methods of their own (`CollectStockStats`, `DropMissing`, `GatherCluster`,
  `ExchangeInto`, `FieldRelations`, `ProcessQuote`, `DetectQuote`).

## What the proofs found

- A reset during the day forgets the states but not the pools. A sealed stock whose next quote is
  strong but below the limit is then in both pools (`MonitorRuns.ResetStrandsASealedCode`).
- States are kept across dates and times by date. A stock whose state was not reset over night gets
  no first limit-up time on the new date while it stays at its limit (`Boards.UnresetSealHasNoTime`).
- Additions come after removals, so a code with a limit-up quote and a later lower quote in the same
  tick stays in the limit-up pool (`MonitorRuns.DuplicateQuotesKeepTheLimitUp`).
- `MonitorRuns.TickKeepsPoolsIff` gives the exact condition for one tick from any engine state, with
  any number of quotes of a code, and `MonitorRuns.PoolsExactThroughoutIff` the exact condition for
  any run of ticks and resets, on the quotes alone.
- The prefilter drops quotes below 5% of stocks that were not strong yesterday, and such a quote is
  the one that should take the stock out of its pool. `FilteredTicks.PoolsFollowMarketIff` says
  exactly when the pools follow the market. On honestly priced quotes they do so exactly when in
  every tick a code's last quote is limit-up or strong whenever one of its quotes is, and no strong
  or limit-up stock falls with quotes that are all dropped
  (`FilteredTicks.HonestPoolsFollowMarketIff`). A stock that falls from its limit to below 5% stays
  in the limit-up pool (`FilteredTicks.FallenStockStays`).
- A price at the limit shows a change of at least 5% exactly when the previous close times the ratio
  is worth a cent (`Limiter.LimitUpShowsFivePercentIff`).
- A recent relation with a hit count below -1 is never picked (`HeatPick.PickRecentHasMostHits`).
- A crawl keeps the relations equal to the raw rows exactly when one of three things holds
  (`CrawlEquivalence.CrawlKeepsMatchIff`): its raw rows were refused; it failed later, on missing
  topics or refused relations, and every mapped raw row was there already; or it succeeded, every
  mapped row is new and not earlier than its relation's first date, and none is listed twice. So
  crawling a date twice, crawling backwards, saving raw rows of a day with an unknown topic, and
  repeating a raw row in a later statement of 500 rows each break it.
- A snapshot fails to replace its date's rows in exactly two cases (`Snapshot.ReplacesIff`). On a day
  without candidates it leaves the old rows in place. With a candidate code listed twice in one
  statement of 500 rows the insert is refused after the delete, and the date is lost
  (`Snapshot.RefusedInsertLosesTheDate`, `Snapshot.RepeatedQuoteLosesTheDate`).
- The recorded limit-up times have no date and parse into the year 0. For every quote from the year
  293 on all differences saturate, and the proximity score only tells whether a topic has a recorded
  time at all (`Attribution.TimesNeverMatterIff`, `Attribution.ProximityTellsPresence`).
- The comment at internal/service/classify/sector_fetcher.go:49 promises a 60-second cache; the
  constant at line 19 is 600 seconds. The model follows the constant.

## Model

| member | source | states |
|---|---|---|
| Limiter.LimitPriceWithinOneCent | internal/pkg/limiter/limit_calc.go:7-12 | the limit price is the largest whole cent not above preClose * (1 + ratio), hence less than one cent below it |
| Limiter.LimitPriceMonotone | internal/pkg/limiter/limit_calc.go:7-12 | a higher close or a higher ratio never gives a lower limit price, invalid closes included |
| Limiter.RoundedLimitIff | internal/pkg/limiter/limit_calc.go:11 | with a rounding error below a hundredth of a cent in the product, the truncated price is the exact limit price, except one cent lower exactly when the true product is a whole cent and the error is negative |
| Limiter.StateIsLastThreeQuotes | internal/pkg/limiter/limit_calc.go:27-73 | after any history of quotes the state is decided by the last three: sealed iff the last was limit-up, Opened iff limit-up then open, ReSealed iff limit-up, open, limit-up |
| Limiter.LimitUpShowsFivePercentIff | internal/service/monitor/monitor.go:121-128 | on each board, every price at or above the limit has a rounded change of at least 5% if and only if preClose * ratio is worth a cent |
| Limiter.CalPctAtLeast5 | external/tushare/client.go:640-644 | the change rounded to two decimals reaches 5.00% exactly from 4.995% on |
| Limiter.CalPctIsNearest | external/tushare/client.go:640-644 | the change is the exact one rounded to the nearest hundredth of a percent, for rises and falls, and has its sign |
| Limiter.FetchAllQuotes | internal/service/quote_fetcher/quote_fetcher.go:41-60 | the loop keeps, in order and stamped with the current time, the quotes at 5% or more and those of yesterday's strong stocks |
| Limiter.KeptQuotesMembers | internal/service/quote_fetcher/quote_fetcher.go:41-60 | no quote that passes the filter is lost |
| Limiter.PrefilterKeepsLimitUps | internal/service/quote_fetcher/quote_fetcher.go:41-46 | an honestly priced limit-up quote with at least a cent of gain always passes the prefilter |
| PoolCaches.PoolCache.AddLimitUpBatch | dal/cache/pool_cache.go:57-76 | adds all the codes to the date's limit-up pool, and nothing else changes; an empty batch does not create the pool |
| PoolCaches.PoolCache.RemoveLimitUpBatch | dal/cache/pool_cache.go:91-107 | takes the codes out of the date's limit-up pool if there is one |
| PoolCaches.PoolCache.AddAbove5Batch | dal/cache/pool_cache.go:154-173 | adds all the codes to the date's above-5% pool, and nothing else changes |
| PoolCaches.PoolCache.RemoveAbove5Batch | dal/cache/pool_cache.go:188-204 | takes the codes out of the date's above-5% pool if there is one |
| PoolCaches.PoolCache.SetFirstLimitTime | dal/cache/pool_cache.go:222-240 | records a time only for a code that has none; a recorded time is never overwritten |
| Monitor.MonitorService.ResetClassifiedToday | internal/service/monitor/monitor.go:103-107 | all states are forgotten; pools and times stay, on every date |
| Monitor.MonitorService.ProcessTick | internal/service/monitor/monitor.go:163-226 | one tick turns the states, pools and times of its date into TickStep of the old ones, returns the set of limit-up codes, and leaves every other date alone; Boards spells TickStep out in percentages and code prefixes |
| Monitor.MonitorService.ProcessQuote | internal/service/monitor/monitor.go:163-212 | the loop body changes state, first limit-up time and the lists of its code as QuoteStep says, and the times of no other date |
| Monitor.MonitorService.DetectQuote | internal/service/monitor/monitor.go:176-194 | runs one quote through the detector with the stored state and stores the new state |
| Monitor.MonitorService.BatchPoolOperations | internal/service/monitor/monitor.go:214-226 | the new pool is the old one minus the removals plus the additions, for each pool, on this date only |
| Monitor.MonitorService.BuildHeatInputs | internal/service/monitor/monitor.go:276-290 | one heat input for each quote of an active stock that is not ST, in order |
| MonitorRuns.LoopLists | internal/service/monitor/monitor.go:163-212 | which codes a tick adds to each pool and removes from the above-5% pool is decided by its quotes alone, whatever the states and however many quotes a code has |
| MonitorRuns.LoopVerdict | internal/service/monitor/monitor.go:163-212 | with one quote per code, a code's new state and its place in all four lists follow from its own quote and its own previous state |
| MonitorRuns.LoopRemovals | internal/service/monitor/monitor.go:204-212 | without a limit-up quote of a code in the tick, the code is removed from the limit-up pool iff it has a quote that is not strong, or was sealed before and has a strong one; however many quotes it has |
| MonitorRuns.TickPools | internal/service/monitor/monitor.go:196-226 | the pools after a tick at any code, for any engine and any quotes: unchanged without a live quote; else above 5% iff one is strong, limit-up iff one is at the limit or it was there unsealed and all are strong |
| MonitorRuns.TickKeepsPoolsIff | internal/service/monitor/monitor.go:196-226 | from any engine state and for any quotes, a tick keeps the pools equal to the quote history if and only if, for every code with a live quote: a limit-up quote implies the last is limit-up, a strong quote implies the last is strong, and a code in the limit-up pool that is not sealed has a quote that is not strong |
| MonitorRuns.SingleQuoteSettlesIff | internal/service/monitor/monitor.go:204-208 | with one quote per code that condition fails exactly for a strong quote of an unsealed code in the limit-up pool |
| MonitorRuns.PoolsExactThroughoutIff | internal/service/monitor/monitor.go:103-226 | for any run of ticks and resets with any number of quotes of a code, the pools equal the quote history all along if and only if every event is orderly, a condition on the quotes alone |
| MonitorRuns.TickKeepsStatesMatchPool | internal/service/monitor/monitor.go:205-226 | a tick keeps "in the limit-up pool iff the state is LimitUp or ReSealed" |
| MonitorRuns.PoolsRefineHistory | internal/service/monitor/monitor.go:163-226 | after any day of ticks the limit-up pool is exactly the codes whose last processed quote was limit-up, the above-5% pool exactly those whose last was strong and not limit-up, and the two are disjoint |
| MonitorRuns.ResetStrandsASealedCode | internal/service/monitor/monitor.go:103-107 | sealed quote, reset, strong quote below the limit: the code is in both pools |
| MonitorRuns.DuplicateQuotesKeepTheLimitUp | internal/service/monitor/monitor.go:196-226 | limit-up quote and a later lower quote in one tick: the code stays in the limit-up pool |
| MonitorRuns.LoopTimes | internal/service/monitor/monitor.go:196-203 | within a tick, a state other than None implies that the code's first limit-up time is recorded, and the recorded time stays the earliest |
| MonitorRuns.FirstLimitTimeIsEarliest | internal/pkg/limiter/limit_calc.go:50-70 | over any run, with resets and duplicate quotes, a code has a first-limit time iff one of its processed quotes was limit-up, and it is that of the earliest one |
| MonitorRuns.HeatInputsFlagLimitUps | internal/service/monitor/monitor.go:276-290 | the heat inputs are exactly the live quotes, flagged limit-up iff some live quote of the code is at the limit; with one quote per code, iff its own price is |
| Boards.AtLimitByBoard | internal/service/monitor/monitor.go:121-128 | a quote is at its limit iff the previous close is positive and 100 * (price + 1) exceeds preClose times 120 for codes starting 300, 301 or 688, 130 for codes starting 8, 4 or 9, and 110 for all others |
| Boards.FirstQuoteByBoard | internal/service/monitor/monitor.go:163-226 | the first quote of an active stock puts it in the limit-up pool with its time, in the above-5% pool from 5.00% on, or in neither, by these percentages |
| Boards.PoolsByBoard | internal/service/monitor/monitor.go:163-226 | after any day of ticks with one quote per code, both pools at any code by these percentages and its last quote |
| Boards.FirstTimeOnlyFromIdle | internal/pkg/limiter/limit_calc.go:50-70 | from any engine state, a quote records a first time iff it is at the limit, its stock has no state, and no time is recorded |
| Boards.UnresetSealHasNoTime | internal/service/monitor/monitor.go:188-203 | a stock with a state from another date and only limit-up quotes gets no first time on this one |
| Boards.InactiveStocksStayOut | internal/service/monitor/monitor.go:163-175 | over any run, a stock that is unknown or an ST stock in every tick never gets a state, a pool or a time |
| FilteredTicks.FetchAndProcess | internal/service/monitor/monitor.go:138-226 | a tick of the service is MarketStep: the market quotes filtered by the day's strong-yesterday set, then run through the engine |
| Boards.StrongYesterdayPasses | dal/cache/pool_cache.go:306-317 | a quote below 5% passes the prefilter iff its stock is recorded as strong for the day; one at 5.00% or more always passes |
| FilteredTicks.FilteredTickIff | internal/service/quote_fetcher/quote_fetcher.go:41-60 | after any run, prefilter and tick together keep the pools equal to the market if and only if every code is followed, a condition on its quotes, kept and dropped, in this tick and on its last quotes before |
| FilteredTicks.PoolsFollowMarketIff | internal/service/monitor/monitor.go:134-226 | for any day of market quotes, several of a code included, the pools follow the market after every tick if and only if every tick follows every code: a condition on the quotes and the strong-yesterday sets alone |
| FilteredTicks.SinglePoolsFollowMarketIff | internal/service/monitor/monitor.go:134-226 | with one quote per code that condition is that no live quote is dropped which follows a strong one, or differs from the last quote in being at the limit |
| FilteredTicks.HonestMissedIff | internal/service/quote_fetcher/quote_fetcher.go:41-46 | an honestly priced quote with a cent of gain is missed iff it is below 5%, its stock was not strong yesterday, and its last quote was strong or limit-up |
| FilteredTicks.HonestLastIsKept | internal/service/quote_fetcher/quote_fetcher.go:41-46 | on honest quotes, a code whose last quote is at the limit had that quote kept |
| FilteredTicks.HonestPoolsFollowMarketIff | internal/service/quote_fetcher/quote_fetcher.go:41-60 | on honestly priced quotes, any number of a code, the pools follow the market through a day if and only if in every tick the last quote of a code is limit-up or strong whenever one of its quotes is, and a code whose quotes are all dropped was neither strong nor limit-up before |
| FilteredTicks.SingleHonestPoolsFollowMarketIff | internal/service/quote_fetcher/quote_fetcher.go:41-60 | with one honest quote per code: if and only if no stock falls from a strong or limit-up quote to below 5% without having been strong yesterday |
| FilteredTicks.FallenStockStays | internal/service/quote_fetcher/quote_fetcher.go:41-46 | a stock at its limit in one tick whose next quote is dropped by the prefilter stays in the limit-up pool |
| HeatPick.PickLatestManualRelation | internal/service/classify/classify.go:128-149 | the loop returns PickManual of the relations |
| HeatPick.PickManualIsLatest | internal/service/classify/classify.go:128-149 | a manual relation is found iff there is one, and none is newer; an unreadable time counts as the zero time, the start of the year 1 |
| HeatPick.PickRecentTopic | internal/service/classify/heat_classify.go:457-484 | the loop with its two restarts returns PickRecent of the relations |
| HeatPick.PickRecentHasMostHits | internal/service/classify/heat_classify.go:457-484 | something is picked iff an unfiltered recent relation with at least -1 hits exists; whatever the draw, it is unfiltered, recent and has the most hits |
| HeatPick.BetterIsStrictOrder | internal/service/classify/heat_classify.go:239-258 | the ranking of topics is irreflexive and transitive, and so are its ties, in both modes |
| HeatPick.PickBestTopicBySimpleHeat | internal/service/classify/heat_classify.go:202-236 | the loop with its copied best values returns PickBest of the relations, which LimitUpModePicks and HeatModePicks of HeatRanking give key by key |
| HeatPick.PickBestIsFirstMaximum | internal/service/classify/heat_classify.go:202-236 | the pick is the earliest of the maximal eligible relations; none is picked only if none is eligible |
| HeatPick.PickBestTopicForLimitUp | internal/service/classify/heat_classify.go:166-174 | manual, else recent, else hottest in limit-up mode |
| HeatPick.PickBestTopicForStrong | internal/service/classify/heat_classify.go:178-195 | manual, else recent, else hottest among the topics of limit-up stocks, else hottest in heat mode |
| HeatPick.PicksCover | internal/service/classify/heat_classify.go:164-195 | both paths pick something in exactly the same case, and always one of the stock's own relations |
| HeatRanking.BetterIsGreaterKeys | internal/service/classify/heat_classify.go:239-258 | a topic replaces the picked one iff its keys are lexicographically greater: limit-ups, strong stocks, rate, heat score in the limit-up mode; heat score, strong stocks, limit-ups, rate in the heat mode |
| HeatRanking.LimitUpModePicks | internal/service/classify/heat_classify.go:202-236 | in the limit-up mode the pick is the first unfiltered allowed relation whose topic no other exceeds in these keys |
| HeatRanking.HeatModePicks | internal/service/classify/heat_classify.go:202-236 | the same for the heat mode |
| HeatRanking.ManualPickIsFirst | internal/service/classify/classify.go:128-149 | the manual pick is the first of the latest manual relations |
| HeatRanking.RecentIsSeenThisWeek | internal/service/classify/history_scorer.go:7-26 | recent means unfiltered and last seen at most seven days before today, or in the future |
| HeatRanking.RecentPickIsDrawn | internal/service/classify/heat_classify.go:457-484 | the recent pick is the drawn one of the relations tied for the most hits |
| HeatRanking.DrawnFrom | internal/service/classify/heat_classify.go:459-473 | the list drawn from holds the relations seen this week with the most hits, each as often as the stock has it |
| HeatStats.CollectTopicHeatStats | internal/service/classify/heat_classify.go:294-331 | the nested loops compute TallyAll |
| HeatStats.TallyCounts | internal/service/classify/heat_classify.go:294-341 | the accumulators hold the plain counts of stock-relation pairs, for exactly the mentioned topics whose total is missing or positive; the missing set is exact |
| HeatStats.CountPermutes | internal/service/classify/heat_classify.go:303-328 | the counts do not depend on the order of the stocks |
| HeatStats.CountChain | internal/service/classify/heat_classify.go:317-326 | limit-up count <= strong count <= rising count for every topic |
| HeatStats.BuildTopicHeatMap | internal/service/classify/heat_classify.go:344-376 | in any order of the map range, the heat map has an entry for exactly the topics with rising stocks and a positive total (or no totals at all), with their rate and score |
| HeatStats.DropMissing | internal/service/classify/heat_classify.go:278-282 | exactly the missing topics without a positive patched total are dropped |
| HeatStats.CalcTopicHeat | internal/service/classify/heat_classify.go:261-291 | fails when the totals, the totals of missing topics (asked for only if some are missing) or the heat cache fail; else loads, patches and drops missing totals and returns TopicHeat |
| HeatStats.TopicHeatEntry | internal/service/classify/heat_classify.go:261-291 | a topic is in the heat map iff a rising stock mentions it and its final total is positive (or no totals exist); its entry is computed from the plain counts |
| HeatStats.HeatCountChain | internal/service/classify/heat_classify.go:351-373 | every entry has LimitUpCount <= StockCount <= RisingCount and RisingCount >= 1 |
| HeatCounts.CountIsSize | internal/service/classify/heat_classify.go:294-331 | with distinct codes and topics the counts are the sizes of sets of stocks: above 3%, above 5%, above 5% and limit-up |
| HeatCounts.HeatEntry | internal/service/classify/heat_classify.go:344-386 | which topics the heat map of a run has, and each entry: counts, total, rate, and score 1000 for a limit-up, 100 for a strong stock, plus 100 times the rate, or the rising count without totals |
| HeatClassify.SplitStocks | internal/service/classify/heat_classify.go:87-110 | both universes in input order, and each code of the heat universe exactly once |
| HeatClassify.LoadStockTopicsBatch | internal/service/classify/heat_classify.go:404-454 | cached relations first, the table only for codes without any, failing only if it is asked; the result holds exactly the codes asked for, and the write-back changes no later answer |
| HeatClassify.RunState.ClassifyLimitUpStocks | internal/service/classify/heat_classify.go:122-141 | the first pass turns results, classified codes and taken topics into LimitUpPass of the old ones |
| HeatClassify.RunState.ClassifyStrongStocks | internal/service/classify/heat_classify.go:144-162 | the second pass turns the state into StrongPass of the old one |
| HeatClassify.ClassifyBySimpleHeat | internal/service/classify/heat_classify.go:52-85 | nothing to classify gives nothing; a failing load or heat cache fails the run; else the run returns Classification and saves the heat map |
| HeatCounts.RunFailsIff | internal/service/classify/heat_classify.go:261-291 | a run fails iff the relation table fails and a stock above 3% has no cached relation, the totals fail, single totals fail and such a stock tells of a topic without one, or the heat map is not saved |
| HeatCounts.CachedBeforeTable | internal/service/classify/heat_classify.go:404-454 | the relations of a code are the cached ones if there are any, else those of the table |
| HeatTheorems.ExactCoverage | internal/service/classify/heat_classify.go:52-195 | a code is in the result iff one of its stocks is above 5% and it has a manual relation, a recent unfiltered one, or an unfiltered one to a topic with a positive final total (any, without totals); the result is one of its own relations |
| HeatTheorems.ClassificationIsVerdict | internal/service/classify/heat_classify.go:122-195 | for any input the result for a code is decided by its own relations, the heat map and the set of topics taken by limit-up stocks: by the limit-up path if any of its classified stocks is limit-up, else by the strong path, and there is none without such stocks |
| HeatTheorems.LimitUpTopicIsConfirmed | internal/service/classify/heat_classify.go:164-174 | the code of any limit-up stock classified by heat gets a topic in the heat map with at least one limit-up stock |
| HeatTheorems.StrongStockAligns | internal/service/classify/heat_classify.go:176-195 | a code without a manual or recent relation that has an eligible topic among those taken by limit-up stocks always gets one of those |
| HeatRanking.ManualThenRecent | internal/service/classify/heat_classify.go:166-195 | in the result of a run a manual relation wins, none newer; without one a relation seen within seven days wins, none with more hits |
| HeatRanking.TakenIsGiven | internal/service/classify/heat_classify.go:122-141 | the topics that strong stocks are aligned with are exactly those given to limit-up stocks in the result |
| HeatRanking.LimitUpGetsMostLimitUps | internal/service/classify/heat_classify.go:166-174 | a limit-up stock decided by heat gets the first relation whose topic no other unfiltered one exceeds in limit-ups, then strong stocks, then rate |
| HeatRanking.StrongGetsGivenThenHottest | internal/service/classify/heat_classify.go:178-195 | a strong stock decided by heat gets the relation greatest in these keys among topics given to limit-up stocks if there is one, else the one with the greatest heat score, then strong stocks, then limit-ups |
| HeatTheorems.HeatPermutes | internal/service/classify/heat_classify.go:261-376 | permuting the input stocks leaves the heat map unchanged |
| HeatTheorems.OrderIndependence | internal/service/classify/heat_classify.go:52-162 | permuting any input leaves heat map and classification unchanged, also when a code comes with different changes or flags |
| HeatTheorems.HeatScoreNeverDecides | internal/service/classify/heat_classify.go:247-252 | on a heat map built with totals, the heat-score tie-break of the limit-up mode never decides |
| HeatTheorems.LastTieBreaksNeverDecide | internal/service/classify/heat_classify.go:254-257 | if no topic has more strong stocks than its total, the last two tie-breaks of the heat mode never decide |
| TopicRelations.MergeNormalizedRelations | internal/service/crawler/crawler.go:68-101 | map of pointers plus order slice computes Merged, the insertion of one row after another |
| TopicRelations.MergedRow | internal/service/crawler/crawler.go:85-93 | a key is in the merge iff it is in the input; its row has the sum of the hits, the least non-null first date and the greatest non-null last date |
| TopicRelations.MergedKeepsFirst | internal/service/crawler/crawler.go:73-83 | a merged row keeps the name, category and source of the first row of its key |
| TopicRelations.MergedDistinct | internal/service/crawler/crawler.go:73-83 | one row for each (code, topic) |
| TopicRelations.MergedOrder | internal/service/crawler/crawler.go:96-100 | rows come in the order in which their keys first appear |
| TopicRelations.MergeConservesHits | internal/service/crawler/crawler.go:68-101 | the total of all hits is unchanged |
| TopicRelations.MergeIdempotent | internal/service/crawler/crawler.go:68-101 | merging a merge changes nothing |
| Batches.BatchesAccepted | dal/dao/jiuyan_raw_data_dao.go:33-43 | a batched upsert goes through iff no key occurs twice within one statement of 500 rows |
| Batches.RepeatRefused | dal/dao/jiuyan_raw_data_dao.go:33-43 | two equal keys are refused if both places lie within the same five hundred, and a single repeat across five hundred is not |
| RelationTables.RelationTable.BulkUpsertAccumulate | dal/dao/stock_topic_relation_dao.go:102-122 | all rows are accumulated one after another, or none if a statement is refused |
| RelationTables.RelationTable.BulkUpsertReplace | dal/dao/stock_topic_relation_dao.go:124-146 | all rows replace what is there, or none if a statement is refused |
| RelationTables.AccumulateDistinct | dal/dao/stock_topic_relation_dao.go:112-121 | with distinct keys each row meets the table as it was before the batch, and other keys keep their row |
| RelationTables.ReplaceDistinct | dal/dao/stock_topic_relation_dao.go:134-145 | with distinct keys the table holds the given rows, and its old ones elsewhere |
| RelationTables.MergedRowsAccepted | internal/service/crawler/crawler.go:621-638 | merged rows are never refused, so a rebuild cannot fail there |
| Crawler.CrawlerService.CrawlWithParams | internal/service/crawler/crawler.go:277-325 | the outcome is CrawlOutcome of the day, and raw rows and relations become CrawlDay of the old ones: raw rows refused (nothing changes), topics missing or relations refused (raw rows stay), success; CrawlFiles says what is then filed |
| Crawler.CrawlerService.SaveRawData | internal/service/crawler/crawler.go:328-358 | the day's raw rows join the raw set, all or none |
| Crawler.CrawlerService.ProcessFieldData | internal/service/crawler/crawler.go:421-456 | the relations of known topics and non-empty codes are accumulated, all or none |
| Crawler.CrawlerService.RebuildTopicRelations | internal/service/crawler/crawler.go:463-649 | inverted range and missing topics change nothing; else the merged aggregates replace their rows, with the number reported |
| Crawler.BuildRebuildRelations | internal/service/crawler/crawler.go:595-621 | one relation for each aggregate of a known topic and non-empty code |
| CrawlEquivalence.SuccessKeepsIff | internal/service/crawler/crawler.go:421-456 | accumulating any accepted day keeps a relation equal to its raw rows iff every raw row it maps is new and not earlier than the first date, and none is listed twice |
| CrawlEquivalence.FailureKeepsIff | internal/service/crawler/crawler.go:293-318 | a crawl that saves raw rows and then fails keeps a relation right iff every raw row mapped to it was there already |
| CrawlEquivalence.CrawlKeepsMatchIff | internal/service/crawler/crawler.go:277-325 | for every outcome of a crawl, the exact condition under which it keeps the relations equal to the counts, first and last dates of the raw rows |
| CrawlEquivalence.AscendingCrawlsIff | internal/service/crawler/crawler.go:277-325 | crawls in ascending order, however each ends, keep relations and raw rows in agreement all along if and only if every day is harmless: refused at once, failed without mapped rows, or succeeded without listing a mapped row twice |
| CrawlEquivalence.CleanDaySucceeds | internal/service/crawler/crawler.go:277-325 | a day with known topics, no raw row twice in one statement and no two raw rows of one (code, topic) is crawled with success, and is harmless |
| CrawlEquivalence.CrawlRunMatches | internal/service/crawler/crawler.go:277-325 | after ascending crawls of harmless days every relation counts exactly its raw rows and spans their dates |
| CrawlEquivalence.RebuildHits | internal/service/crawler/crawler.go:595-621 | the hits of a key in the rebuild relations number the raw rows of its groups |
| CrawlEquivalence.RebuildMatches | internal/service/crawler/crawler.go:510-638 | over any table and any order of the answer, a rebuild gives the relations with raw rows in range exactly their counts and dates, and leaves the others alone |
| CrawlEquivalence.IncrementalEqualsRebuild | internal/service/crawler/crawler.go:421-456 | ascending crawls of harmless days that succeed or are refused at once give the same hit counts, first and last dates as one rebuild over the whole range, and that rebuild misses no topic |
| CrawlEquivalence.CleanCrawlsEqualRebuild | internal/service/crawler/crawler.go:595-636 | on clean days every crawl succeeds and the relations are those of the rebuild |
| CrawlEquivalence.RebuildIdempotent | internal/service/crawler/crawler.go:463-638 | a second rebuild changes no count and no date even if the query answers in another order, and nothing at all with the same answer |
| CrawlMapping.ListingIsConversion | internal/pkg/converter/code_converter.go:8-15 | a listed code of at least three characters becomes the rest, a point, and its first two characters in capitals |
| CrawlMapping.StandsForIff | internal/service/crawler/crawler.go:421-456 | a topic and a listed code count for a relation iff the code is not empty and converts to its code, and the dictionary name of the topic has its id, not 0 |
| CrawlMapping.CrawlFiles | internal/service/crawler/crawler.go:421-456 | after a successful crawl the table has exactly the relations it had and those some listed topic and code stand for; those carry the dictionary name and category of such a topic, and the source of an old row stays |
| CrawlMapping.ListedCodeIsFiled | internal/service/crawler/crawler.go:423-456 | for every field in the dictionary whose normalized name has an id, every listed code of three characters or more is filed under its converted code and that id |
| CrawlMapping.RebuildFiles | internal/service/crawler/crawler.go:595-636 | after a rebuild the table has exactly the relations it had and those some raw row in range stands for, with the dictionary name and category of such a row |
| Calendar.PreviousTradingDay | internal/pkg/utils/trading_calendar.go:66-72 | the loop returns PreviousDay for every finite holiday table |
| Calendar.PreviousDayUnique | internal/pkg/utils/trading_calendar.go:56-72 | PreviousDay is the only trading day before the argument with none between |
| Calendar.PreviousDayIff | internal/pkg/utils/trading_calendar.go:49-72 | it is the one earlier day from Monday to Friday outside the holiday table after which only weekend days and holidays come |
| Calendar.PreviousDayNoHolidays | internal/pkg/utils/trading_calendar.go:56-72 | without holidays it is one day back, three from Monday and two from Sunday |
| DateText.TextOrderIsDateOrder | dal/repo/snapshot_repo.go:109 | on well-formed dates comparing the text is comparing the dates, and equal dates have equal text |
| SnapshotRepo.KeysRoundTrip | dal/repo/snapshot_repo.go:117-127 | a cache key gives a date back iff it is one of that date's two keys, and the two differ |
| SnapshotRepo.InvalidationSuffices | dal/repo/snapshot_repo.go:95-100 | a write keeps the caches coherent if both keys of every date it may have changed are gone |
| SnapshotRepo.DeleteUpToCoherent | dal/repo/snapshot_repo.go:38-43 | deletion by date and invalidation by text cut at the same place |
| SnapshotRepo.InsertCoherent | dal/repo/snapshot_repo.go:45-56 | an insert over many dates invalidates enough |
| SnapshotRepo.SnapshotRepository.InvalidateDate | dal/repo/snapshot_repo.go:95-100 | exactly the two keys of the date leave the cache |
| SnapshotRepo.SnapshotRepository.InvalidateBeforeOrEqual | dal/repo/snapshot_repo.go:102-115 | exactly the snapshot keys of dates up to the cutoff leave the cache, whatever the order and whatever else it holds |
| SnapshotRepo.SnapshotRepository.DeleteByDate | dal/repo/snapshot_repo.go:31-36 | removes the date's rows and entries, or refuses a malformed date and changes nothing |
| SnapshotRepo.SnapshotRepository.DeleteBeforeOrEqualDate | dal/repo/snapshot_repo.go:38-43 | removes rows and entries up to the cutoff, or refuses |
| SnapshotRepo.SnapshotRepository.InsertBatch | dal/repo/snapshot_repo.go:45-56 | upserts all rows, keeping the topic of rows already there, and drops their dates' entries; or refuses and changes nothing |
| SnapshotRepo.SnapshotRepository.UpdateTopicIDByTsCodeAndDate | dal/repo/snapshot_repo.go:88-93 | sets the topic of one row and drops the date's entries |
| SnapshotRepo.SnapshotRepository.GetByDate | dal/repo/snapshot_repo.go:58-69 | cached or not, returns the table's rows of the date, and leaves them cached |
| SnapshotRepo.SnapshotRepository.GetLimitUpByDate | dal/repo/snapshot_repo.go:71-82 | the same for the limit-up rows |
| SnapshotRepo.RunStaysCoherent | dal/repo/snapshot_repo.go:31-115 | over any run of the operations the repository methods are proved to perform (inserts, deletes, cutoff deletes, topic updates, reads), every cached entry equals what the DAO would return |
| SnapshotColumns.ReadsReturnCells | dal/dao/snapshot_dao.go:58-76 | a read returns exactly the rows of the date, a limit-up read those of them that are limit-up |
| SnapshotColumns.DeleteEmptiesTheDate | dal/repo/snapshot_repo.go:31-36 | after a delete the reads of the date return nothing, all others what they did |
| SnapshotColumns.CutoffEmptiesUpTo | dal/repo/snapshot_repo.go:38-43 | after a cutoff delete exactly the dates up to the cutoff are empty |
| SnapshotColumns.InsertWritesTheRecord | dal/dao/snapshot_dao.go:45-56 | an insert with one record for a date and code writes it, keeping the topic of a row already there |
| SnapshotColumns.InsertLeavesOthers | dal/dao/snapshot_dao.go:45-56 | an insert changes no row it has no record for |
| SnapshotColumns.UpdateSetsTheTopic | dal/repo/snapshot_repo.go:88-93 | a topic update sets the topic of one existing row and changes nothing else |
| Snapshot.TakeSnapshot | internal/service/snapshot/snapshot.go:201-279 | the table becomes Snapshotted of the old one, spelled out by SnapshotRows and SnapshotColumns.StoredColumns; it fails iff the insert is refused, which happens after the delete |
| Snapshot.PickCandidates | internal/service/snapshot/snapshot.go:60-74 | candidate codes in order, and the last candidate quote of each |
| Snapshot.BuildRecords | internal/service/snapshot/snapshot.go:211-262 | one record for each candidate: change, limit flag, limit times, topic, and yesterday's strong days plus one, in 16 bits, as StoredColumns spells out |
| Snapshot.SnapshotRows | internal/service/snapshot/snapshot.go:59-74 | when the insert is accepted, also with codes quoted twice, the date's rows are exactly the strong stocks, each from its last strong quote and yesterday's row; no other date changes |
| SnapshotColumns.LimitUpByListOrPrice | internal/service/snapshot/snapshot.go:223-239 | a row is limit-up iff its code is on the limit list or the price reaches the limit of its board, in percentages and code prefixes |
| SnapshotColumns.StoredColumns | internal/service/snapshot/snapshot.go:211-262 | after an accepted day every column of a stock's row: the change of its last strong quote, limit-up by list or price, the listed limit times or 0, the given topic or none, and one strong day or one more than the previous trading day stored |
| SnapshotColumns.Int16Wraps | internal/service/snapshot/snapshot.go:241-244 | 16 bits keep the remainder between -32768 and 32767 |
| Snapshot.AcceptedIff | dal/dao/snapshot_dao.go:45-56 | the insert is accepted iff no candidate code comes twice within one statement of 500 rows |
| Snapshot.RefusedInsertLosesTheDate | internal/service/snapshot/snapshot.go:264-272 | a refused insert comes after the delete: the date is empty although some stock was strong |
| Snapshot.RepeatedQuoteLosesTheDate | internal/service/snapshot/snapshot.go:264-272 | one strong quote listed twice is such a day |
| Snapshot.ReplacesIff | internal/service/snapshot/snapshot.go:76-79 | for any quotes, the date ends up with exactly today's strong stocks if and only if, with candidates, the insert is accepted, or, without any, there was nothing to replace |
| Snapshot.RunLengthIsLongest | internal/service/snapshot/snapshot.go:240-244 | the reference count is the longest run of strong days ending with the last day |
| Snapshot.StoredDaysAreRunLength | internal/service/snapshot/snapshot.go:201-244 | taken every trading day in order from an empty table with every insert accepted, on every one of the dates a stock has a row iff its run of strong days ending there is not empty, and the row holds the length of that run in 16 bits |
| Snapshot.StoredDaysIff | internal/service/snapshot/snapshot.go:201-279 | over any such history the table holds every run on every day if and only if every day's insert was accepted |
| Snapshot.UniqueCodesAccepted | internal/service/snapshot/snapshot.go:63-74 | days on which no code is quoted twice are always accepted |
| Snapshot.ShortRunsDoNotWrap | internal/service/snapshot/snapshot.go:241-244 | up to 32767 days the stored number is the length itself |
| SectorFetcher.RunKeepsInv | internal/service/classify/sector_fetcher.go:51-77 | in every interleaving the lock, the half-written state, the last install and every pending check agree |
| SectorFetcher.InstallsAreSpaced | internal/service/classify/sector_fetcher.go:65-73 | two successive installs are at least the TTL apart |
| SectorFetcher.CachedMapsAreFresh | internal/service/classify/sector_fetcher.go:52-70 | a cached map given out was installed, together with its time, less than the TTL before the check that let it through; HitsReturnTheLastInstall says which one and whose |
| SectorFetcher.InstallsOwnFetch | internal/service/classify/sector_fetcher.go:65-73 | in every interleaving, a store that installs a map installs the one its caller fetched last, at the time of the store, and that map is then the cached one |
| SectorFetcher.LastFetchedFromTheList | internal/service/classify/sector_fetcher.go:60-63 | when fetches end only where they began, the map a caller fetched last is read from the list of actions alone |
| SectorFetcher.EveryInstallIsAnOwnFetch | internal/service/classify/sector_fetcher.go:65-73 | every install of a run was stored by some step of a caller that had fetched that map last |
| SectorFetcher.HitsReturnTheLastInstall | internal/service/classify/sector_fetcher.go:52-70 | a map handed out without a fetch is that of the last install, checked less than 600 seconds after it, and was fetched by the caller that installed it |
| SectorFetcher.ChecksAskTheLastInstall | internal/service/classify/sector_fetcher.go:53-70 | both checks find the cache fresh iff something was installed and the last install is younger than 600 seconds |
| SectorFetcher.LoneHit | internal/service/classify/sector_fetcher.go:52-57 | a caller alone returns the last installed map while it is young |
| SectorFetcher.LoneMiss | internal/service/classify/sector_fetcher.go:52-60 | otherwise it goes on to fetch with the lock free |
| SectorFetcher.LoneInstall | internal/service/classify/sector_fetcher.go:65-77 | and a caller alone with a fetched map then installs it |
| SectorFetcher.WriterIsAlone | internal/service/classify/sector_fetcher.go:65-73 | while one caller is in the write section no other reads or writes |
| SectorFetcher.InstallsAreBounded | internal/service/classify/sector_fetcher.go:65-73 | however many callers compete, at most one install for each elapsed TTL after the first |
| Matcher.AddProfile | internal/service/hot_spot/matcher.go:39-56 | adds a profile's code to the posting of each of its non-empty tags, once |
| Matcher.StockMatcher.constructor | internal/service/hot_spot/matcher.go:31-61 | every posting lists the codes of the profiles with that tag, in profile order |
| Matcher.GainIsExactPlusRelated | internal/service/hot_spot/matcher.go:86-99 | what the index gives a code for one keyword is the direct per-profile score: 3 for an exact tag, 1 for each related tag |
| Matcher.StockMatcher.AddKeyword | internal/service/hot_spot/matcher.go:86-99 | one keyword raises every code's score by its direct gain, in any order of the index range |
| Matcher.ExchangeSort | internal/service/hot_spot/matcher.go:110-116 | the in-place exchange sort leaves a permutation in non-increasing score order |
| Matcher.RankedIsRecall | internal/service/hot_spot/matcher.go:100-121 | sorting the candidates of at least 2 points yields exactly the codes whose direct scan scores at least 2, each once, best first |
| Matcher.StockMatcher.KeywordMatch | internal/service/hot_spot/matcher.go:84-122 | the index recalls exactly what the direct scan would |
| Matcher.ExactTagIsRecalled | internal/service/hot_spot/matcher.go:84-122 | with one profile per code, a stock with a topic keyword among its tags is always recalled, and scored by its own profile alone |
| Matcher.ContainedIsBetween | internal/service/hot_spot/matcher.go:93 | a text contains another iff it is a beginning, that text and an end (with ContainsBetween) |
| Matcher.ContainsBetween | internal/service/hot_spot/matcher.go:93 | the other direction |
| Matcher.ScoreCounts | internal/service/hot_spot/matcher.go:84-99 | the score of a profile is 3 for each keyword that is its name, industry, concept or historical tag, and 1 for each pair of a keyword and a tag of which one contains the other |
| Matcher.RecallIff | internal/service/hot_spot/matcher.go:84-122 | with one profile per code a stock is recalled iff a keyword is its name, industry, one of its concepts or historical tags, or there are at least two such pairs |
| Matcher.RecallNamesProfiles | internal/service/hot_spot/matcher.go:84-122 | only profiled stocks are recalled |
| Matcher.FallbackIsTop30 | internal/service/hot_spot/matcher.go:196-213 | the fallback has at most thirty stocks, thirty if anything was left out, and nothing outside it scores higher than anything in it |
| Cluster.KeywordOverlap | internal/service/hot_spot/extractor.go:165-184 | the two loops compute Overlap, and the union is never zero |
| Cluster.OverlapIsJaccard | internal/service/hot_spot/extractor.go:165-184 | on lists without repeats the overlap is the Jaccard index, and symmetric |
| Cluster.SharedCountsPositions | internal/service/hot_spot/extractor.go:173-178 | with repeats, every position of the second list whose word is in the first counts |
| Cluster.NearIff | internal/service/hot_spot/extractor.go:165-184 | items without repeated keywords are near iff both have keywords and those in common are at least three tenths of those in either |
| Cluster.GatherCluster | internal/service/hot_spot/extractor.go:147-158 | the inner loop collects, in order, exactly the items whose first near leader is this one, and marks them in place |
| Cluster.SplitByKeywordOverlap | internal/service/hot_spot/extractor.go:139-162 | the greedy loop over the flags array computes Clusters |
| Cluster.SplitIsPartition | internal/service/hot_spot/extractor.go:139-162 | every index is in exactly one cluster, that of the first leader near it |
| Cluster.LeadersAreApart | internal/service/hot_spot/extractor.go:143-160 | a later leader overlaps every earlier one by less than the threshold |
| SectorClusters.MergeKeywords | internal/service/hot_spot/extractor.go:186-194 | counts every keyword occurrence of the items |
| SectorNames.OccurrencesAre | internal/service/hot_spot/extractor.go:186-194 | a word counts as often as it is listed |
| SectorClusters.GroupBySector | internal/service/hot_spot/extractor.go:99-106 | every group holds the news of its sector that are not of low importance, in order |
| SectorClusters.ClusterBySector | internal/service/hot_spot/extractor.go:97-137 | every sector once in some order; clusters have ids 0, 1, 2, ..., their sector, their items and their keyword counts, and together hold exactly the kept news |
| SectorClusters.SplitConserves | internal/service/hot_spot/extractor.go:139-162 | the greedy split keeps every item as often as it occurs |
| SectorClusters.ClusteringConserves | internal/service/hot_spot/extractor.go:97-137 | whatever the sector order, the returned clusters hold exactly the news that are not of low importance, each as often as extracted |
| SectorNames.SectorName | internal/service/hot_spot/extractor.go:196-201 | white space around a sector is stripped, then one "概念" and then one "板块" at the end, and nothing else |
| SectorNames.SpacesAre | internal/service/hot_spot/extractor.go:197 | blank, tab, line ends, no-break and full-width spaces are stripped; printable ASCII and Chinese characters are not |
| SectorNames.GroupIff | internal/service/hot_spot/extractor.go:99-106 | the news of a sector are the extracted ones that are not of low importance and whose text names it |
| SectorNames.SectorIsWholeOrSplit | internal/service/hot_spot/extractor.go:108-135 | in the returned clusters, up to three news of a sector form one cluster in order, more than three one cluster for each leader, and none without news |
| SectorNames.KeptAsOften | internal/service/hot_spot/extractor.go:100-102 | what is not of low importance is kept as often as it was extracted |
| Attribution.ProximityBounds | internal/pkg/attribution/engine.go:27-47 | the proximity score lies in (0, 1] |
| Attribution.ClockRoundTrip | internal/pkg/attribution/engine.go:98 | every second of the day comes back from its text |
| Attribution.ShortClockRoundTrip | internal/pkg/attribution/engine.go:98 | before ten o'clock also without the leading zero |
| Attribution.GetTopicLimitTimes | internal/pkg/attribution/engine.go:86-105 | records that do not decode or parse are skipped; the others, fractions of a second included, become instants of the first day of the year 0 |
| Attribution.ClockedSaturateIff | internal/pkg/attribution/engine.go:38-43 | all recorded times are at least the greatest duration back exactly for quotes from one instant of the year 292 on |
| Attribution.TimesNeverMatterIff | internal/pkg/attribution/engine.go:27-47 | the proximity of topics with recorded times is independent of those times exactly for quotes up to the start of the year 0 and from that instant on |
| Attribution.ProximityTellsPresence | internal/pkg/attribution/normal_mode.go:47-48 | for every quote since 1970 the proximity is 0.5 without a recorded time that parses, and one constant with any |
| Attribution.ScoreBounds | internal/pkg/attribution/normal_mode.go:34-61 | with non-negative hits every total score lies in (0, 1] |
| Attribution.RecencyIs | internal/pkg/attribution/engine.go:52-64 | seen today or later scores 1, up to fifteen days ago 30 / (30 + days), longer ago 0 |
| Attribution.RecencyFades | internal/pkg/attribution/engine.go:52-64 | a topic seen more recently never scores less, and more within the fifteen days |
| Attribution.ScoresSpelledOut | internal/pkg/attribution/normal_mode.go:34-61 | every score a run returns belongs to a relation of a topic with limit-ups: its share of the greatest limit-up count, its share of all hits, 0.5 or one constant by the recorded times, the recency or 0.1 without a date, and 0.15, 0.40, 0.20 and 0.25 of them together |
| Attribution.TotalHitsAddUp | internal/pkg/attribution/normal_mode.go:27-30 | the total of hits is the sum over all relations, also those that are not scored |
| Attribution.RunAttribution | internal/pkg/attribution/normal_mode.go:13-77 | fails iff the activity cache does; else the loops find the greatest count and the total of hits, score exactly the relations of topics with limit-ups, and decide on those |
| Attribution.DecideAttribution | internal/pkg/attribution/types.go:95-127 | the output is decided on a ranking of the scores, for both settings of the dual flag |
| Attribution.DecisionIsBest | internal/pkg/attribution/types.go:95-127 | the output lists exactly the scores, its confidence is their maximum, it names one topic, or two exactly when the runner-up is less than 0.1 behind, and none only without scores |
| Attribution.AttributionBounds | internal/pkg/attribution/normal_mode.go:13-77 | every listed score and the confidence lie in (0, 1], and the named topics are candidates of the input |

## Left out

- Limiter.LimitPriceWithinOneCent: for the exact product; RoundedLimitIff says when the float product gives a cent less.
- Limiter.LimitPriceMonotone: for the exact product; near a whole cent the rounded prices need not be monotone.
- Floating-point rounding of changes, rates and scores: they are exact.
- HTTP, Redis, LLM calls, JSON, logging, configuration, handlers and the front end: I/O; what they deliver is an input.
- End-of-day eviction of cached values and the lock around the pool cache: the pools are one date's sets, changed by one caller at a time.
- Monitor start, stop and background loops, and the merge of LLM results into a tick.
- Monitor.MonitorService.ProcessTick: covers the quote loop and the batch pool operations; fetching and the classification cache are not part of it.
- HeatClassify.ClassifyBySimpleHeat: the in-memory relation cache does not fail, and a failed write-back is ignored as in the code.
- Classification of stock batches (classifyBatch, ClassifyStockBatch) and the rebuild of classifications.
- Columns that play no part in the claims: ids, names, update times, confidence, market value, volume, amount.
- Crawler.CrawlerService.CrawlWithParams: topic ids are an input, so the upsert of the topics table is not modelled; nor are date parsing errors, the API call and the reported numbers of topics and stocks.
- Crawler.CrawlerService.RebuildTopicRelations: the topic list, the date ranges of the report and the refresh of topic stock counts are not modelled; dates are numbers, so malformed text is not.
- The older CrawlDate path, mergeOverwriteRelations and the relation and topic-count caches with their warm-up.
- Code conversion works on ASCII letters and characters instead of bytes.
- DateText.TextOrderIsDateOrder: dates have the checked shape; the database's refusal of a thirteenth month is not modelled.
- SnapshotRepo.SnapshotRepository.GetByDate: rows are a map on the stock code: the query asks for no order, and that a cached slice repeats the order of the first read is not modelled, nor are the defensive copies; the repository has one caller at a time.
- SnapshotRepo.SnapshotRepository.GetLimitUpByDate: as GetByDate, without the order of rows.
- Snapshot.TakeSnapshot: market value, volume, amount and names are omitted; the choice of topics and the limit list are inputs; day rendering is a parameter that gives distinct well-formed dates.
- SectorFetcher.InstallsAreSpaced: the fetch itself is one step with any result; the clock does not go back.
- Matcher.StockMatcher.KeywordMatch: the LLM filter and the cut to a hundred candidates before it are not modelled.
- Attribution.RunAttribution: the recent-mode strategy and the filter list of topics; a failing read of one topic's times counts as no times, as in the code.
- News extraction, topic cards and other LLM steps of the hot-spot pipeline.
