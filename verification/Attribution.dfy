/** Four-weight attribution scores (internal/pkg/attribution), in exact arithmetic. Instants
    are nanoseconds since 1970-01-01 UTC and dates day numbers. */
module Attribution {
  import opened Wrappers
  import opened DateText

  datatype Relation = Relation(topicID: int, hitCount: int, lastSeen: Option<int>)

  datatype Input = Input(quoteTime: int, today: int, relations: seq<Relation>)

  /** Limit-up counts of today's topics, and the limit-up times recorded for each as text; a
      record that does not decode is None. */
  datatype Activity = Activity(counts: map<int, int>, limitTimes: map<int, seq<Option<string>>>)

  datatype TopicScore = TopicScore(topicID: int, activity: real, bind: real, proximity: real, recency: real, total: real)

  datatype Output = Output(finalTopicIDs: seq<int>, allScores: seq<TopicScore>, isDual: bool, confidence: real)

  const W_ACTIVITY := 0.15
  const W_BIND := 0.40
  const W_PROXIMITY := 0.20
  const W_RECENCY := 0.25
  const DUAL_MARGIN := 0.1
  const STALE_THRESHOLD_DAYS := 15
  const RECENCY_HALF_LIFE_DAYS := 30

  // ----- recorded times

  const SECOND := 1_000_000_000
  const DAY := 86400 * SECOND

  type SecondOfDay = n: int | 0 <= n < 86400
  type InstantOfDay = n: int | 0 <= n < DAY

  /** The first instant of the year 0, where a parsed time without a date lies: 1970 years, 478 of
      them leap years, before 1970. */
  const YEAR_ZERO := -(1970 * 365 + 478) * DAY

  predicate AllDigits(text: string) {
    forall i :: 0 <= i < |text| ==> IsDigit(text[i])
  }

  lemma DecimalBound(digit: nat, unit: nat, rest: nat)
    requires digit <= 9 && unit > 0 && rest < unit
    ensures digit * unit + rest < 10 * unit
  {
    assert digit * unit <= 9 * unit;
  }

  lemma TenthBound(unit: nat, rest: nat)
    requires unit > 0 && if unit / 10 == 0 then rest == 0 else rest < 10 * (unit / 10)
    ensures rest < unit
  {
  }

  /** The value of decimals, the first one worth unit; what is worth less than one is cut off. */
  function Decimals(digits: string, unit: nat): (n: nat)
    requires AllDigits(digits)
    ensures if unit == 0 then n == 0 else n < 10 * unit
  {
    if digits == "" || unit == 0 then 0
    else
      var digit, rest := Digit(digits[0]), Decimals(digits[1..], unit / 10);
      TenthBound(unit, rest);
      DecimalBound(digit, unit, rest);
      digit * unit + rest
  }

  /** A fraction of a second after a point or comma, in nanoseconds; none counts as zero. */
  function ParseFraction(text: string): Option<nat> {
    if text == "" then Some(0)
    else if |text| >= 2 && text[0] in {'.', ','} && AllDigits(text[1..]) then Some(Decimals(text[1..], SECOND / 10))
    else None
  }

  /** Hours in one or two digits, minutes and seconds in two, and perhaps a fraction. */
  function ParseClock(text: string): Option<InstantOfDay> {
    var n := if |text| >= 2 && IsDigit(text[1]) then 2 else 1;
    if |text| < n + 6 || !IsDigit(text[0]) || text[n] != ':' || text[n + 3] != ':'
       || !IsDigit(text[n + 1]) || !IsDigit(text[n + 2]) || !IsDigit(text[n + 4]) || !IsDigit(text[n + 5]) then None
    else
      var hour := if n == 1 then Digit(text[0]) else 10 * Digit(text[0]) + Digit(text[1]);
      var minute, second := 10 * Digit(text[n + 1]) + Digit(text[n + 2]), 10 * Digit(text[n + 4]) + Digit(text[n + 5]);
      var fraction := ParseFraction(text[n + 6..]);
      if hour >= 24 || minute >= 60 || second >= 60 || fraction.None? then None
      else Some((3600 * hour + 60 * minute + second) * SECOND + fraction.value)
  }

  function TwoDigits(n: nat): string
    requires n < 100
  {
    [('0' as int + n / 10) as char, ('0' as int + n % 10) as char]
  }

  function FormatClock(s: SecondOfDay): string {
    TwoDigits(s / 3600) + ":" + TwoDigits(s / 60 % 60) + ":" + TwoDigits(s % 60)
  }

  lemma ClockParts(s: SecondOfDay)
    ensures s / 3600 < 24 && s == 3600 * (s / 3600) + 60 * (s / 60 % 60) + s % 60
  {
  }

  /** Every second of the day comes back from its text. */
  lemma ClockRoundTrip(s: SecondOfDay)
    ensures ParseClock(FormatClock(s)) == Some(s * SECOND)
  {
    ClockParts(s);
  }

  /** Before ten o'clock also without the leading zero. */
  lemma ShortClockRoundTrip(s: SecondOfDay)
    requires s < 36000
    ensures ParseClock(FormatClock(s)[1..]) == Some(s * SECOND)
  {
    ClockParts(s);
  }

  function ParsedTimes(records: seq<Option<string>>): seq<int> {
    if records == [] then []
    else
      var earlier, last := ParsedTimes(records[..|records| - 1]), records[|records| - 1];
      if last.Some? && ParseClock(last.value).Some? then earlier + [YEAR_ZERO + ParseClock(last.value).value] else earlier
  }

  /** Records that do not decode or do not parse are skipped. */
  method GetTopicLimitTimes(records: seq<Option<string>>) returns (times: seq<int>)
    ensures times == ParsedTimes(records)
  {
    times := [];
    for i := 0 to |records|
      invariant times == ParsedTimes(records[..i])
    {
      assert records[..i + 1][..i] == records[..i];
      if records[i].None? { continue; }
      var t := ParseClock(records[i].value);
      if t.None? { continue; }
      times := times + [YEAR_ZERO + t.value];
    }
    assert records[..|records|] == records;
  }

  // ----- the four parts

  function CalcActivityScore(count: int, maxCount: int): real {
    if maxCount <= 0 then 0.0 else count as real / maxCount as real
  }

  function CalcBindStrengthScore(hits: int, totalHits: int): real {
    if totalHits <= 0 then 0.0 else hits as real / totalHits as real
  }

  function Before(times: seq<int>, at: int): seq<int> {
    if times == [] then []
    else Before(times[..|times| - 1], at) + if times[|times| - 1] < at then [times[|times| - 1]] else []
  }

  /** A Go duration saturates: the greatest is 2^63 - 1 nanoseconds. */
  const MAX_DURATION := 0x7fff_ffff_ffff_ffff
  const MAX_MINUTES := MAX_DURATION as real / 60_000_000_000.0

  function Minutes(duration: int): real {
    if duration > MAX_DURATION then MAX_MINUTES else duration as real / 60_000_000_000.0
  }

  /** Minutes from each time to an instant, added up. */
  function MinutesTo(times: seq<int>, at: int): real {
    if times == [] then 0.0
    else MinutesTo(times[..|times| - 1], at) + Minutes(at - times[|times| - 1])
  }

  lemma {:induction false} MinutesToNonNegative(times: seq<int>, at: int)
    requires forall t :: t in times ==> t <= at
    ensures MinutesTo(times, at) >= 0.0
  {
    if times != [] {
      var prefix, last := times[..|times| - 1], times[|times| - 1];
      assert last in times && forall t :: t in prefix ==> t in times;
      MinutesToNonNegative(times[..|times| - 1], at);
    }
  }

  lemma {:induction false} BeforeAll(times: seq<int>, at: int)
    ensures forall t :: t in Before(times, at) ==> t < at
  {
    if times != [] {
      BeforeAll(times[..|times| - 1], at);
    }
  }

  /** One over one plus a non-negative amount. */
  function Decay(x: real): real
    requires x >= 0.0
  {
    1.0 / (1.0 + x)
  }

  lemma DecayBounds(x: real)
    requires x >= 0.0
    ensures 0.0 < Decay(x) <= 1.0
  {
  }

  lemma QuotientNonNegative(x: real, n: nat)
    requires x >= 0.0 && n > 0
    ensures x / n as real >= 0.0
  {
  }

  function AverageMinutes(times: seq<int>, at: int): (average: real)
    requires times != [] && forall t :: t in times ==> t <= at
    ensures average >= 0.0
  {
    MinutesToNonNegative(times, at);
    QuotientNonNegative(MinutesTo(times, at), |times|);
    MinutesTo(times, at) / |times| as real
  }

  function CalcTimeProximityScore(at: int, times: seq<int>): real {
    var before := Before(times, at);
    if before == [] then 0.5
    else
      BeforeAll(times, at);
      Decay(AverageMinutes(before, at) / 15.0)
  }

  function CalcRecencyScore(lastSeen: Option<int>, today: int): real {
    if lastSeen.None? then 0.1
    else
      var days := if today < lastSeen.value then 0 else today - lastSeen.value;
      if days > STALE_THRESHOLD_DAYS then 0.0
      else Decay(days as real / RECENCY_HALF_LIFE_DAYS as real)
  }

  // ----- scoring

  function RecordsOf(activity: Activity, topicID: int): seq<Option<string>> {
    if topicID in activity.limitTimes then activity.limitTimes[topicID] else []
  }

  function TimesOf(activity: Activity, topicID: int): seq<int> {
    ParsedTimes(RecordsOf(activity, topicID))
  }

  /** A relation is scored when its topic has limit-ups today. */
  predicate IsCandidate(r: Relation, activity: Activity) {
    r.topicID in activity.counts && activity.counts[r.topicID] > 0
  }

  function ScoreWith(r: Relation, input: Input, count: int, maxCount: int, totalHits: int, times: seq<int>): TopicScore {
    var s1 := CalcActivityScore(count, maxCount);
    var s2 := CalcBindStrengthScore(r.hitCount, totalHits);
    var s3 := CalcTimeProximityScore(input.quoteTime, times);
    var s4 := CalcRecencyScore(r.lastSeen, input.today);
    TopicScore(r.topicID, s1, s2, s3, s4, W_ACTIVITY * s1 + W_BIND * s2 + W_PROXIMITY * s3 + W_RECENCY * s4)
  }

  function Score(r: Relation, input: Input, activity: Activity, maxCount: int, totalHits: int): TopicScore
    requires IsCandidate(r, activity)
  {
    ScoreWith(r, input, activity.counts[r.topicID], maxCount, totalHits, TimesOf(activity, r.topicID))
  }

  function Scores(relations: seq<Relation>, input: Input, activity: Activity, maxCount: int, totalHits: int): seq<TopicScore> {
    if relations == [] then []
    else
      var r := relations[|relations| - 1];
      Scores(relations[..|relations| - 1], input, activity, maxCount, totalHits)
      + if IsCandidate(r, activity) then [Score(r, input, activity, maxCount, totalHits)] else []
  }

  function TotalHits(relations: seq<Relation>): int {
    if relations == [] then 0 else TotalHits(relations[..|relations| - 1]) + relations[|relations| - 1].hitCount
  }

  ghost predicate IsMaxCount(counts: map<int, int>, max: int) {
    && max >= 0
    && (forall t :: t in counts ==> counts[t] <= max)
    && (max > 0 ==> exists t :: t in counts && counts[t] == max)
  }

  // ----- decision

  ghost predicate Descending(ranked: seq<TopicScore>) {
    forall i, j :: 0 <= i < j < |ranked| ==> ranked[i].total >= ranked[j].total
  }

  ghost predicate IsRanking(scores: seq<TopicScore>, ranked: seq<TopicScore>) {
    multiset(ranked) == multiset(scores) && Descending(ranked)
  }

  ghost predicate Decides(out: Output, scores: seq<TopicScore>, allowDual: bool) {
    if scores == [] then out == Output([], [], false, 0.0)
    else
      && IsRanking(scores, out.allScores)
      && var ranked := out.allScores;
         && |ranked| > 0
         && out.confidence == ranked[0].total
         && out.isDual == (|ranked| > 1 && allowDual && ranked[0].total - ranked[1].total < DUAL_MARGIN)
         && out.finalTopicIDs == if out.isDual then [ranked[0].topicID, ranked[1].topicID] else [ranked[0].topicID]
  }

  function Inserted(ranked: seq<TopicScore>, x: TopicScore): seq<TopicScore> {
    if ranked == [] || ranked[0].total < x.total then [x] + ranked
    else [ranked[0]] + Inserted(ranked[1..], x)
  }

  lemma {:induction false} InsertedBag(ranked: seq<TopicScore>, x: TopicScore)
    ensures multiset(Inserted(ranked, x)) == multiset(ranked) + multiset{x}
  {
    if ranked != [] {
      assert ranked == [ranked[0]] + ranked[1..];
      InsertedBag(ranked[1..], x);
    }
  }

  lemma {:induction false} InsertedAtMost(ranked: seq<TopicScore>, x: TopicScore, bound: real)
    requires x.total <= bound && forall i :: 0 <= i < |ranked| ==> ranked[i].total <= bound
    ensures forall i :: 0 <= i < |Inserted(ranked, x)| ==> Inserted(ranked, x)[i].total <= bound
  {
    if ranked != [] {
      InsertedAtMost(ranked[1..], x, bound);
    }
  }

  lemma {:induction false} InsertedDescends(ranked: seq<TopicScore>, x: TopicScore)
    requires Descending(ranked)
    ensures Descending(Inserted(ranked, x))
  {
    if ranked != [] && ranked[0].total >= x.total {
      InsertedDescends(ranked[1..], x);
      InsertedAtMost(ranked[1..], x, ranked[0].total);
    }
  }

  /** The library sort promises some ranking; nothing about equal scores. */
  method SortScores(scores: seq<TopicScore>) returns (ranked: seq<TopicScore>)
    ensures IsRanking(scores, ranked)
  {
    ranked := [];
    for k := 0 to |scores|
      invariant IsRanking(scores[..k], ranked)
    {
      InsertedBag(ranked, scores[k]);
      InsertedDescends(ranked, scores[k]);
      ranked := Inserted(ranked, scores[k]);
      assert scores[..k + 1] == scores[..k] + [scores[k]];
    }
    assert scores[..|scores|] == scores;
  }

  method DecideAttribution(scores: seq<TopicScore>, allowDual: bool) returns (out: Output)
    ensures Decides(out, scores, allowDual)
  {
    if |scores| == 0 { return Output([], [], false, 0.0); }
    var ranked := SortScores(scores);
    assert |multiset(ranked)| == |multiset(scores)|;
    var top1 := ranked[0];
    if |ranked| == 1 {
      return Output([top1.topicID], ranked, false, top1.total);
    }
    var top2 := ranked[1];
    if allowDual && top1.total - top2.total < DUAL_MARGIN {
      out := Output([top1.topicID, top2.topicID], ranked, true, top1.total);
    } else {
      out := Output([top1.topicID], ranked, false, top1.total);
    }
  }

  method MaxLimitCount(counts: map<int, int>) returns (max: int)
    ensures IsMaxCount(counts, max)
  {
    max := 0;
    var todo := counts.Keys;
    while todo != {}
      invariant todo <= counts.Keys
      invariant max >= 0
      invariant forall t :: t in counts && t !in todo ==> counts[t] <= max
      invariant max > 0 ==> exists t :: t in counts && counts[t] == max
      decreases |todo|
    {
      var t := AnyOf(todo);
      todo := todo - {t};
      if counts[t] > max {
        max := counts[t];
      }
    }
  }

  /** What a run on some activity returns. */
  ghost predicate Attributes(out: Output, input: Input, activity: Activity) {
    exists maxCount :: IsMaxCount(activity.counts, maxCount)
      && Decides(out, Scores(input.relations, input, activity, maxCount, TotalHits(input.relations)), true)
  }

  /** No activity stands for a cache that failed. */
  method RunAttribution(input: Input, loaded: Option<Activity>) returns (result: Option<Output>)
    ensures result.Some? <==> loaded.Some?
    ensures loaded.Some? ==> Attributes(result.value, input, loaded.value)
  {
    if loaded.None? { return None; }
    var activity := loaded.value;
    var maxLimitCount := MaxLimitCount(activity.counts);
    var totalHitCount := 0;
    for i := 0 to |input.relations|
      invariant totalHitCount == TotalHits(input.relations[..i])
    {
      assert input.relations[..i + 1][..i] == input.relations[..i];
      totalHitCount := totalHitCount + input.relations[i].hitCount;
    }
    assert input.relations[..|input.relations|] == input.relations;
    var scores: seq<TopicScore> := [];
    for i := 0 to |input.relations|
      invariant scores == Scores(input.relations[..i], input, activity, maxLimitCount, totalHitCount)
    {
      var m := input.relations[i];
      assert input.relations[..i + 1][..i] == input.relations[..i];
      if m.topicID !in activity.counts || activity.counts[m.topicID] <= 0 { continue; }
      var topicLimitTimes := GetTopicLimitTimes(RecordsOf(activity, m.topicID));
      scores := scores + [ScoreWith(m, input, activity.counts[m.topicID], maxLimitCount, totalHitCount, topicLimitTimes)];
    }
    var out := DecideAttribution(scores, true);
    return Some(out);
  }

  // ----- bounds

  lemma ShareBounds(part: int, whole: int)
    requires 0 <= part <= whole && whole > 0
    ensures 0.0 <= part as real / whole as real <= 1.0
    ensures part > 0 ==> part as real / whole as real > 0.0
  {
  }

  predicate NonNegativeHits(relations: seq<Relation>) {
    forall r :: r in relations ==> r.hitCount >= 0
  }

  lemma {:induction false} HitsWithinTotal(relations: seq<Relation>, r: Relation)
    requires NonNegativeHits(relations)
    ensures TotalHits(relations) >= 0
    ensures r in relations ==> r.hitCount <= TotalHits(relations)
  {
    if relations != [] {
      var prefix, last := relations[..|relations| - 1], relations[|relations| - 1];
      assert last in relations && forall x :: x in prefix ==> x in relations;
      HitsWithinTotal(prefix, r);
    }
  }

  lemma ProximityBounds(at: int, times: seq<int>)
    ensures 0.0 < CalcTimeProximityScore(at, times) <= 1.0
  {
    var before := Before(times, at);
    if before != [] {
      BeforeAll(times, at);
      DecayBounds(AverageMinutes(before, at) / 15.0);
    }
  }

  ghost predicate Saturated(times: seq<int>, at: int) {
    forall t :: t in times ==> at - t >= MAX_DURATION
  }

  lemma {:induction false} SaturatedBefore(times: seq<int>, at: int)
    requires Saturated(times, at)
    ensures Before(times, at) == times
  {
    if times != [] {
      var prefix, last := times[..|times| - 1], times[|times| - 1];
      assert last in times && forall t :: t in prefix ==> t in times;
      SaturatedBefore(prefix, at);
    }
  }

  lemma {:induction false} SaturatedMinutes(times: seq<int>, at: int)
    requires Saturated(times, at)
    ensures MinutesTo(times, at) == |times| as real * MAX_MINUTES
  {
    if times != [] {
      var prefix, last := times[..|times| - 1], times[|times| - 1];
      assert last in times && forall t :: t in prefix ==> t in times;
      SaturatedMinutes(prefix, at);
      assert |times| as real == |prefix| as real + 1.0;
    }
  }

  lemma AverageOfEqual(n: nat, sum: real, each: real)
    requires n > 0 && sum == n as real * each
    ensures sum / n as real == each
  {
  }

  lemma SaturatedAverage(times: seq<int>, at: int)
    requires times != [] && Saturated(times, at)
    ensures MinutesTo(times, at) / |times| as real == MAX_MINUTES
  {
    SaturatedMinutes(times, at);
    AverageOfEqual(|times|, MinutesTo(times, at), MAX_MINUTES);
  }

  /** Limit-up times without a date all lie at least the greatest duration back, and then the
      proximity is one and the same for every topic that has any: the times do not matter. */
  lemma UndatedTimesAreAllAlike(at: int, times: seq<int>)
    requires times != [] && Saturated(times, at)
    ensures CalcTimeProximityScore(at, times) == Decay(MAX_MINUTES / 15.0)
  {
    SaturatedBefore(times, at);
    SaturatedAverage(times, at);
  }

  // ----- recorded times have no date

  ghost predicate Clocked(times: seq<int>) {
    forall t :: t in times ==> YEAR_ZERO <= t < YEAR_ZERO + DAY
  }

  lemma {:induction false} ParsedTimesClocked(records: seq<Option<string>>)
    ensures Clocked(ParsedTimes(records))
  {
    if records != [] {
      ParsedTimesClocked(records[..|records| - 1]);
    }
  }

  /** From this instant on (in the year 292), every time of the first day of the year 0 is at
      least the greatest duration back. */
  const ALL_SATURATE := YEAR_ZERO + DAY - 1 + MAX_DURATION

  /** All recorded times saturate exactly for quotes from that instant on. */
  lemma ClockedSaturateIff(at: int)
    ensures (forall times :: Clocked(times) ==> Saturated(times, at)) <==> at >= ALL_SATURATE
  {
    if at < ALL_SATURATE {
      var late := [YEAR_ZERO + DAY - 1];
      assert Clocked(late) && late[0] in late;
      assert !Saturated(late, at);
    }
  }

  lemma {:induction false} NoneBefore(times: seq<int>, at: int)
    requires Clocked(times) && at <= YEAR_ZERO
    ensures Before(times, at) == []
  {
    if times != [] {
      var prefix, last := times[..|times| - 1], times[|times| - 1];
      assert last in times && forall t :: t in prefix ==> t in times;
      NoneBefore(prefix, at);
    }
  }

  lemma SingleProximity(at: int, t: int)
    ensures CalcTimeProximityScore(at, [t]) == if t < at then Decay(Minutes(at - t) / 15.0) else 0.5
  {
    assert [t][..0] == [];
    if t < at {
      assert Before([t], at) == [t];
      assert MinutesTo([t], at) == Minutes(at - t);
    }
  }

  lemma DecayInjective(x: real, y: real)
    requires x >= 0.0 && y >= 0.0 && Decay(x) == Decay(y)
    ensures x == y
  {
    assert Decay(x) * (1.0 + x) == 1.0 && Decay(y) * (1.0 + y) == 1.0;
  }

  /** Two times of the year 0 that give different proximities, for every quote in between. */
  lemma TimesThatMatter(at: int) returns (a: int, b: int)
    requires YEAR_ZERO < at < ALL_SATURATE
    ensures Clocked([a]) && Clocked([b])
    ensures CalcTimeProximityScore(at, [a]) != CalcTimeProximityScore(at, [b])
  {
    a, b := YEAR_ZERO, if at - YEAR_ZERO <= MAX_DURATION then YEAR_ZERO + 1 else YEAR_ZERO + DAY - 1;
    SingleProximity(at, a);
    SingleProximity(at, b);
    if at == YEAR_ZERO + 1 {
      assert Decay(1.0) == 0.5;
      if Decay(Minutes(1) / 15.0) == Decay(1.0) { DecayInjective(Minutes(1) / 15.0, 1.0); }
    } else if Decay(Minutes(at - a) / 15.0) == Decay(Minutes(at - b) / 15.0) {
      DecayInjective(Minutes(at - a) / 15.0, Minutes(at - b) / 15.0);
    }
  }

  ghost predicate TimesNeverMatter(at: int) {
    forall a, b :: Clocked(a) && Clocked(b) && a != [] && b != [] ==>
      CalcTimeProximityScore(at, a) == CalcTimeProximityScore(at, b)
  }

  /** The proximity of topics with recorded times does not depend on those times exactly for
      quotes up to the year 0 and for quotes from the instant on at which all times saturate. */
  lemma TimesNeverMatterIff(at: int)
    ensures TimesNeverMatter(at) <==> at <= YEAR_ZERO || at >= ALL_SATURATE
  {
    if at <= YEAR_ZERO {
      forall times | Clocked(times) ensures CalcTimeProximityScore(at, times) == 0.5 { NoneBefore(times, at); }
    } else if at >= ALL_SATURATE {
      ClockedSaturateIff(at);
      forall times | Clocked(times) && times != []
        ensures CalcTimeProximityScore(at, times) == Decay(MAX_MINUTES / 15.0)
      {
        UndatedTimesAreAllAlike(at, times);
      }
    } else {
      var a, b := TimesThatMatter(at);
    }
  }

  /** So for every quote since 1970, the proximity of a topic only tells whether it has a
      recorded time that parses: 0.5 if not, and one constant if so. */
  lemma ProximityTellsPresence(r: Relation, input: Input, activity: Activity, maxCount: int, totalHits: int)
    requires IsCandidate(r, activity) && input.quoteTime >= 0
    ensures Score(r, input, activity, maxCount, totalHits).proximity
            == if TimesOf(activity, r.topicID) == [] then 0.5 else Decay(MAX_MINUTES / 15.0)
  {
    ParsedTimesClocked(RecordsOf(activity, r.topicID));
    ClockedSaturateIff(input.quoteTime);
    if TimesOf(activity, r.topicID) != [] {
      UndatedTimesAreAllAlike(input.quoteTime, TimesOf(activity, r.topicID));
    }
  }

  lemma RecencyBounds(lastSeen: Option<int>, today: int)
    ensures 0.0 <= CalcRecencyScore(lastSeen, today) <= 1.0
  {
  }

  /** With non-negative hit counts every total score lies in (0, 1]. */
  lemma ScoreBounds(r: Relation, input: Input, activity: Activity, maxCount: int)
    requires NonNegativeHits(input.relations) && r in input.relations
    requires IsCandidate(r, activity) && IsMaxCount(activity.counts, maxCount)
    ensures 0.0 < Score(r, input, activity, maxCount, TotalHits(input.relations)).total <= 1.0
  {
    var totalHits := TotalHits(input.relations);
    HitsWithinTotal(input.relations, r);
    ShareBounds(activity.counts[r.topicID], maxCount);
    if totalHits > 0 {
      ShareBounds(r.hitCount, totalHits);
    }
    ProximityBounds(input.quoteTime, TimesOf(activity, r.topicID));
    RecencyBounds(r.lastSeen, input.today);
  }

  lemma {:induction false} ScoresAre(relations: seq<Relation>, input: Input, activity: Activity, maxCount: int,
                                     totalHits: int, x: TopicScore)
    ensures x in Scores(relations, input, activity, maxCount, totalHits)
            <==> exists r :: r in relations && IsCandidate(r, activity) && x == Score(r, input, activity, maxCount, totalHits)
  {
    if relations != [] {
      var prefix, last := relations[..|relations| - 1], relations[|relations| - 1];
      ScoresAre(prefix, input, activity, maxCount, totalHits, x);
      assert forall r :: r in relations <==> r in prefix || r == last;
    }
  }

  /** Every score comes from a candidate, and lies in (0, 1]. */
  lemma ScoreSource(input: Input, activity: Activity, maxCount: int, x: TopicScore) returns (r: Relation)
    requires NonNegativeHits(input.relations) && IsMaxCount(activity.counts, maxCount)
    requires x in Scores(input.relations, input, activity, maxCount, TotalHits(input.relations))
    ensures r in input.relations && IsCandidate(r, activity) && r.topicID == x.topicID
    ensures 0.0 < x.total <= 1.0
  {
    var totalHits := TotalHits(input.relations);
    ScoresAre(input.relations, input, activity, maxCount, totalHits, x);
    r :| r in input.relations && IsCandidate(r, activity) && x == Score(r, input, activity, maxCount, totalHits);
    ScoreBounds(r, input, activity, maxCount);
  }

  lemma RankingMembers(scores: seq<TopicScore>, ranked: seq<TopicScore>)
    requires IsRanking(scores, ranked)
    ensures |ranked| == |scores| && forall x :: x in ranked <==> x in scores
    ensures forall x :: x in ranked ==> x.total <= ranked[0].total
  {
    assert |multiset(ranked)| == |multiset(scores)|;
    assert forall x :: (x in ranked <==> x in multiset(ranked)) && (x in scores <==> x in multiset(scores));
  }

  /** Over any scores: the output lists exactly those, best first; the confidence is their
      maximum; it picks one topic, or two exactly when the runner-up is within the margin, and
      none only when there is nothing to pick from. */
  lemma DecisionIsBest(out: Output, scores: seq<TopicScore>)
    requires Decides(out, scores, true)
    ensures forall x :: x in out.allScores <==> x in scores
    ensures forall x :: x in scores ==> x.total <= out.confidence
    ensures scores != [] ==> exists x :: x in scores && x.total == out.confidence && out.finalTopicIDs[0] == x.topicID
    ensures forall id :: id in out.finalTopicIDs ==> exists x :: x in scores && x.topicID == id && out.confidence - x.total < 0.1
    ensures |out.finalTopicIDs| == if scores == [] then 0 else if out.isDual then 2 else 1
    ensures out.isDual <==> |out.allScores| > 1 && out.confidence - out.allScores[1].total < 0.1
  {
    if scores != [] {
      RankingMembers(scores, out.allScores);
      assert out.allScores[0] in scores && (out.isDual ==> out.allScores[1] in scores);
    }
  }

  /** The scores decided on are exactly the candidates', all in (0, 1], so the confidence is too. */
  lemma AttributionBounds(input: Input, activity: Activity, out: Output)
    requires NonNegativeHits(input.relations) && Attributes(out, input, activity)
    ensures forall x :: x in out.allScores ==> 0.0 < x.total <= 1.0
    ensures out.allScores != [] ==> 0.0 < out.confidence <= 1.0
    ensures forall id :: id in out.finalTopicIDs ==> exists r :: r in input.relations && IsCandidate(r, activity) && r.topicID == id
    ensures forall r :: r in input.relations && IsCandidate(r, activity) ==> exists x :: x in out.allScores && x.topicID == r.topicID
  {
    var totalHits := TotalHits(input.relations);
    var maxCount :| IsMaxCount(activity.counts, maxCount)
                    && Decides(out, Scores(input.relations, input, activity, maxCount, totalHits), true);
    var scores := Scores(input.relations, input, activity, maxCount, totalHits);
    DecisionIsBest(out, scores);
    forall x | x in scores
      ensures 0.0 < x.total <= 1.0 && exists r :: r in input.relations && IsCandidate(r, activity) && r.topicID == x.topicID
    {
      var r := ScoreSource(input, activity, maxCount, x);
    }
    forall r | r in input.relations && IsCandidate(r, activity) ensures exists x :: x in scores && x.topicID == r.topicID {
      var x := Score(r, input, activity, maxCount, totalHits);
      ScoresAre(input.relations, input, activity, maxCount, totalHits, x);
    }
  }

  // ----- the scores, spelled out

  lemma TotalHitsAddUp(a: seq<Relation>, r: Relation)
    ensures TotalHits([]) == 0 && TotalHits(a + [r]) == TotalHits(a) + r.hitCount
  {
  }

  /** A topic seen more recently never scores less, and scores more within the fifteen days. */
  lemma RecencyFades(earlier: int, later: int, today: int)
    requires earlier <= later
    ensures CalcRecencyScore(Some(earlier), today) <= CalcRecencyScore(Some(later), today)
    ensures earlier < later <= today <= earlier + 15 ==>
              CalcRecencyScore(Some(earlier), today) < CalcRecencyScore(Some(later), today)
  {
    RecencyIs(earlier, today);
    RecencyIs(later, today);
    var d, e := if today < later then 0 else today - later, if today < earlier then 0 else today - earlier;
    if e <= 15 {
      SmallerShare(30.0 + d as real, 30.0 + e as real);
    }
  }

  lemma SmallerShare(x: real, y: real)
    requires 0.0 < x <= y
    ensures 30.0 / x >= 30.0 / y && (x < y ==> 30.0 / x > 30.0 / y)
  {
    var a, b := 30.0 / x, 30.0 / y;
    assert a * x == 30.0 && b * y == 30.0;
  }

  /** Thirty days against thirty and the days since, and nothing after fifteen. */
  lemma RecencyIs(lastSeen: int, today: int)
    ensures CalcRecencyScore(Some(lastSeen), today)
         == if today <= lastSeen then 1.0 else if today > lastSeen + 15 then 0.0 else 30.0 / (30 + today - lastSeen) as real
  {
    if lastSeen < today <= lastSeen + 15 {
      DecayOfShare((today - lastSeen) as real, 30.0);
    }
  }

  lemma DecayOfShare(x: real, y: real)
    requires x >= 0.0 && y > 0.0
    ensures Decay(x / y) == y / (y + x)
  {
    assert (1.0 + x / y) * y == y + x;
  }

  /** A score's parts: the topic's share of the greatest count and of all hits, whether a
      limit-up time was recorded, and the days since it was seen. */
  ghost predicate SharesAre(x: TopicScore, r: Relation, count: int, max: int, hits: int) {
    && x.activity * max as real == count as real
    && if hits > 0 then x.bind * hits as real == r.hitCount as real else x.bind == 0.0
  }

  ghost predicate ProximityIs(x: TopicScore, records: seq<Option<string>>) {
    if exists text :: Some(text) in records && ParseClock(text).Some?
    then x.proximity == 900_000_000_000.0 / (900_000_000_000.0 + 0x7fff_ffff_ffff_ffff as real)
    else x.proximity == 0.5
  }

  predicate RecencyOf(x: TopicScore, lastSeen: Option<int>, today: int) {
    x.recency == match lastSeen
      case None => 0.1
      case Some(day) => if today <= day then 1.0 else if today > day + 15 then 0.0 else 30.0 / (30 + today - day) as real
  }

  lemma Shares(r: Relation, input: Input, activity: Activity, max: int, hits: int)
    requires IsCandidate(r, activity) && IsMaxCount(activity.counts, max)
    ensures SharesAre(Score(r, input, activity, max, hits), r, activity.counts[r.topicID], max, hits)
  {
    var count := activity.counts[r.topicID];
    assert count <= max;
    ShareOf(count, max);
    if hits > 0 {
      ShareOf(r.hitCount, hits);
    }
  }

  lemma ShareOf(part: int, whole: int)
    requires whole > 0
    ensures (part as real / whole as real) * whole as real == part as real
  {
  }

  lemma Proximity(r: Relation, input: Input, activity: Activity, max: int, hits: int)
    requires IsCandidate(r, activity) && input.quoteTime >= 0
    ensures ProximityIs(Score(r, input, activity, max, hits), RecordsOf(activity, r.topicID))
  {
    TimesArePresent(RecordsOf(activity, r.topicID));
    ProximityTellsPresence(r, input, activity, max, hits);
    SaturatedDecay();
  }

  /** Every score a run returns belongs to a relation of a topic with limit-ups and is made of
      these parts, each with its weight. */
  lemma ScoresSpelledOut(input: Input, activity: Activity, out: Output, x: TopicScore) returns (r: Relation, max: int)
    requires Attributes(out, input, activity) && x in out.allScores && input.quoteTime >= 0
    ensures r in input.relations && r.topicID == x.topicID
    ensures r.topicID in activity.counts && activity.counts[r.topicID] > 0
    ensures max in activity.counts.Values && forall t :: t in activity.counts ==> activity.counts[t] <= max
    ensures SharesAre(x, r, activity.counts[r.topicID], max, TotalHits(input.relations))
    ensures ProximityIs(x, RecordsOf(activity, r.topicID))
    ensures RecencyOf(x, r.lastSeen, input.today)
    ensures x.total == 0.15 * x.activity + 0.40 * x.bind + 0.20 * x.proximity + 0.25 * x.recency
  {
    var hits := TotalHits(input.relations);
    max :| IsMaxCount(activity.counts, max)
           && Decides(out, Scores(input.relations, input, activity, max, hits), true);
    DecisionIsBest(out, Scores(input.relations, input, activity, max, hits));
    ScoresAre(input.relations, input, activity, max, hits, x);
    r :| r in input.relations && IsCandidate(r, activity) && x == Score(r, input, activity, max, hits);
    assert activity.counts[r.topicID] <= max;
    Shares(r, input, activity, max, hits);
    Proximity(r, input, activity, max, hits);
    Recency(r, input, activity, max, hits);
  }

  lemma Recency(r: Relation, input: Input, activity: Activity, max: int, hits: int)
    requires IsCandidate(r, activity)
    ensures var x := Score(r, input, activity, max, hits);
            && RecencyOf(x, r.lastSeen, input.today)
            && x.total == 0.15 * x.activity + 0.40 * x.bind + 0.20 * x.proximity + 0.25 * x.recency
  {
    if r.lastSeen.Some? {
      RecencyIs(r.lastSeen.value, input.today);
    }
  }

  lemma SaturatedDecay()
    ensures Decay(MAX_MINUTES / 15.0) == 900_000_000_000.0 / (900_000_000_000.0 + 0x7fff_ffff_ffff_ffff as real)
  {
  }

  /** There are times exactly when some record decodes and parses. */
  lemma {:induction false} TimesArePresent(records: seq<Option<string>>)
    ensures ParsedTimes(records) != [] <==> exists text :: Some(text) in records && ParseClock(text).Some?
  {
    if records != [] {
      var prefix, last := records[..|records| - 1], records[|records| - 1];
      TimesArePresent(prefix);
      assert forall t :: t in records <==> t in prefix || t == last;
    }
  }
}
