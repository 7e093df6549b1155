/** The entities the heat classifier works on. */
module ClassifyTypes {
  import opened Wrappers

  // changePercent is in hundredths of a percent.
  datatype StockQuoteInput = StockQuoteInput(tsCode: string, changePercent: int, isLimitUp: bool)

  // A date or instant that is missing or does not parse is None. Dates are day numbers, instants
  // are counted from the zero time, the start of the year 1.
  datatype TopicRelation = TopicRelation(
    topicID: int,
    topicName: string,
    source: string,
    hitCount: int,
    lastSeenDate: Option<int>,
    updatedAt: Option<int>)

  datatype TopicHeatInfo = TopicHeatInfo(
    totalRelatedStocks: int,
    stockCount: nat,
    limitUpCount: nat,
    risingCount: nat,
    participationRate: real,
    heatScore: real)

  type HeatMap = map<int, TopicHeatInfo>

  /** What a run is given besides its stocks: the list of filtered topic names, today's date,
      and the random draws, one for each stock and list of tied relations. */
  datatype Setting = Setting(
    filtered: set<string>,
    today: Option<int>,
    draw: (string, seq<TopicRelation>) -> nat)
  {
    predicate Unfiltered(r: TopicRelation) {
      r.topicName !in filtered
    }

    /** Seen at most seven days ago; a date in the future counts as today. */
    predicate IsRecentTopic(lastSeenDate: Option<int>) {
      if lastSeenDate.None? || today.None? then false
      else
        var days := today.value - lastSeenDate.value;
        (if days < 0 then 0 else days) <= 7
    }

    predicate Recent(r: TopicRelation) {
      Unfiltered(r) && IsRecentTopic(r.lastSeenDate)
    }
  }
}
