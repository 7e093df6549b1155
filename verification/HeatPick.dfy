/** Choosing one topic among a stock's relations
    (internal/service/classify/heat_classify.go and classify.go). */
module HeatPick {
  import opened Wrappers
  import opened ClassifyTypes

  // ----- the latest manual relation

  function UpdatedAt(r: TopicRelation): int {
    match r.updatedAt
    case Some(at) => at
    case None => 0
  }

  function PickManual(relations: seq<TopicRelation>): Option<TopicRelation> {
    if relations == [] then None
    else
      var best := PickManual(relations[..|relations| - 1]);
      var r := relations[|relations| - 1];
      if r.source == "manual" && (best.None? || UpdatedAt(r) > UpdatedAt(best.value)) then Some(r) else best
  }

  method PickLatestManualRelation(relations: seq<TopicRelation>) returns (latest: Option<TopicRelation>)
    ensures latest == PickManual(relations)
  {
    latest := None;
    var bestAt := 0;
    for i := 0 to |relations|
      invariant latest == PickManual(relations[..i])
      invariant latest.Some? ==> bestAt == UpdatedAt(latest.value)
    {
      var relation := relations[i];
      assert relations[..i + 1][..i] == relations[..i];
      if relation.source != "manual" { continue; }
      var updatedAt := if relation.updatedAt.Some? then relation.updatedAt.value else 0;
      if latest.None? || updatedAt > bestAt {
        latest, bestAt := Some(relation), updatedAt;
      }
    }
    assert relations[..|relations|] == relations;
  }

  lemma {:induction false} PickManualIsLatest(relations: seq<TopicRelation>)
    ensures var best := PickManual(relations);
            && (best.Some? <==> exists r :: r in relations && r.source == "manual")
            && (best.Some? ==>
                  && best.value in relations && best.value.source == "manual"
                  && forall r :: r in relations && r.source == "manual" ==> UpdatedAt(r) <= UpdatedAt(best.value))
  {
    if relations != [] {
      var prefix, last := relations[..|relations| - 1], relations[|relations| - 1];
      PickManualIsLatest(prefix);
      assert forall r :: r in relations <==> r in prefix || r == last;
    }
  }

  // ----- a recent relation, drawn among those with the most hits

  function BestHit(relations: seq<TopicRelation>, s: Setting): int {
    if relations == [] then -1
    else
      var best := BestHit(relations[..|relations| - 1], s);
      var r := relations[|relations| - 1];
      if s.Recent(r) && r.hitCount > best then r.hitCount else best
  }

  function RecentWithHits(relations: seq<TopicRelation>, s: Setting, hits: int): seq<TopicRelation> {
    if relations == [] then []
    else
      var r := relations[|relations| - 1];
      RecentWithHits(relations[..|relations| - 1], s, hits)
      + if s.Recent(r) && r.hitCount == hits then [r] else []
  }

  function PickRecent(relations: seq<TopicRelation>, s: Setting, tsCode: string): Option<TopicRelation> {
    var tied := RecentWithHits(relations, s, BestHit(relations, s));
    if tied == [] then None else Some(tied[s.draw(tsCode, tied) % |tied|])
  }

  lemma {:induction false} RecentHits(relations: seq<TopicRelation>, s: Setting, hits: int)
    ensures BestHit(relations, s) >= -1
    ensures forall r :: r in RecentWithHits(relations, s, hits) <==>
              r in relations && s.Recent(r) && r.hitCount == hits
    ensures forall r :: r in relations && s.Recent(r) ==> r.hitCount <= BestHit(relations, s)
    ensures BestHit(relations, s) == -1 || exists r :: r in relations && s.Recent(r) && r.hitCount == BestHit(relations, s)
    ensures hits > BestHit(relations, s) ==> RecentWithHits(relations, s, hits) == []
  {
    if relations != [] {
      var prefix, last := relations[..|relations| - 1], relations[|relations| - 1];
      RecentHits(prefix, s, hits);
      assert forall r :: r in relations <==> r in prefix || r == last;
      if r :| r in prefix && s.Recent(r) && r.hitCount == BestHit(prefix, s) {
        assert r in relations;
      }
    }
  }

  method PickRecentTopic(relations: seq<TopicRelation>, s: Setting, tsCode: string) returns (picked: Option<TopicRelation>)
    ensures picked == PickRecent(relations, s, tsCode)
  {
    var recent := [];
    var bestHitCount := -1;
    for i := 0 to |relations|
      invariant bestHitCount == BestHit(relations[..i], s)
      invariant recent == RecentWithHits(relations[..i], s, bestHitCount)
    {
      var relation := relations[i];
      assert relations[..i + 1][..i] == relations[..i];
      if !s.Unfiltered(relation) || !s.IsRecentTopic(relation.lastSeenDate) { continue; }
      if relation.hitCount > bestHitCount {
        RecentHits(relations[..i], s, relation.hitCount);
        recent := [relation];
        bestHitCount := relation.hitCount;
        continue;
      }
      if relation.hitCount == bestHitCount {
        recent := recent + [relation];
      }
    }
    assert relations[..|relations|] == relations;
    if |recent| == 0 { return None; }
    if |recent| == 1 { return Some(recent[0]); }
    var idx := s.draw(tsCode, recent) % |recent|;
    return Some(recent[idx]);
  }

  /** A recent relation is found exactly when there is an eligible one whose hit count is not
      below -1, and whatever the draw it is one with the most hits. */
  lemma PickRecentHasMostHits(relations: seq<TopicRelation>, s: Setting, tsCode: string)
    ensures var picked := PickRecent(relations, s, tsCode);
            && (picked.Some? <==> exists r :: r in relations && s.Recent(r) && r.hitCount >= -1)
            && (picked.Some? ==>
                  && picked.value in relations && s.Recent(picked.value)
                  && forall r :: r in relations && s.Recent(r) ==> r.hitCount <= picked.value.hitCount)
  {
    var best := BestHit(relations, s);
    RecentHits(relations, s, best);
    var tied := RecentWithHits(relations, s, best);
    if tied != [] {
      assert tied[0] in tied;
      assert tied[s.draw(tsCode, tied) % |tied|] in tied;
    }
    if r :| r in relations && s.Recent(r) && r.hitCount >= -1 {
      if best == -1 {
        assert r in tied;
      } else {
        var top :| top in relations && s.Recent(top) && top.hitCount == best;
        assert top in tied;
      }
    }
  }

  // ----- the hottest topic

  predicate ShouldReplacePickedTopic(heatInfo: TopicHeatInfo, bestLimitUp: nat, bestStockCount: nat,
                                     bestParticipation: real, bestHeatScore: real, preferLimitUp: bool)
  {
    if preferLimitUp then
      || heatInfo.limitUpCount > bestLimitUp
      || (heatInfo.limitUpCount == bestLimitUp && heatInfo.stockCount > bestStockCount)
      || (heatInfo.limitUpCount == bestLimitUp && heatInfo.stockCount == bestStockCount
          && heatInfo.participationRate > bestParticipation)
      || (heatInfo.limitUpCount == bestLimitUp && heatInfo.stockCount == bestStockCount
          && heatInfo.participationRate == bestParticipation && heatInfo.heatScore > bestHeatScore)
    else
      || heatInfo.heatScore > bestHeatScore
      || (heatInfo.heatScore == bestHeatScore && heatInfo.stockCount > bestStockCount)
      || (heatInfo.heatScore == bestHeatScore && heatInfo.stockCount == bestStockCount
          && heatInfo.limitUpCount > bestLimitUp)
      || (heatInfo.heatScore == bestHeatScore && heatInfo.stockCount == bestStockCount
          && heatInfo.limitUpCount == bestLimitUp && heatInfo.participationRate > bestParticipation)
  }

  predicate Better(a: TopicHeatInfo, b: TopicHeatInfo, preferLimitUp: bool) {
    ShouldReplacePickedTopic(a, b.limitUpCount, b.stockCount, b.participationRate, b.heatScore, preferLimitUp)
  }

  /** The ranking is a strict weak order in both modes: irreflexive, transitive, and ties are
      transitive too. */
  lemma BetterIsStrictOrder(a: TopicHeatInfo, b: TopicHeatInfo, c: TopicHeatInfo, preferLimitUp: bool)
    ensures !Better(a, a, preferLimitUp)
    ensures Better(a, b, preferLimitUp) && Better(b, c, preferLimitUp) ==> Better(a, c, preferLimitUp)
    ensures !Better(a, b, preferLimitUp) && !Better(b, c, preferLimitUp) ==> !Better(a, c, preferLimitUp)
  {
  }

  predicate Eligible(r: TopicRelation, heat: HeatMap, allow: Option<set<int>>, s: Setting) {
    s.Unfiltered(r) && (allow.Some? ==> r.topicID in allow.value) && r.topicID in heat
  }

  function PickBest(relations: seq<TopicRelation>, heat: HeatMap, allow: Option<set<int>>,
                    preferLimitUp: bool, s: Setting): (best: Option<TopicRelation>)
    ensures best.Some? ==> best.value in relations && Eligible(best.value, heat, allow, s)
  {
    if relations == [] then None
    else
      var best := PickBest(relations[..|relations| - 1], heat, allow, preferLimitUp, s);
      var r := relations[|relations| - 1];
      if Eligible(r, heat, allow, s)
         && (best.None? || Better(heat[r.topicID], heat[best.value.topicID], preferLimitUp))
      then Some(r) else best
  }

  method PickBestTopicBySimpleHeat(relations: seq<TopicRelation>, heat: HeatMap, allow: Option<set<int>>,
                                   preferLimitUp: bool, s: Setting) returns (best: Option<TopicRelation>)
    ensures best == PickBest(relations, heat, allow, preferLimitUp, s)
  {
    best := None;
    var bestLimitUp, bestStockCount, bestParticipation, bestHeatScore := 0, 0, 0.0, 0.0;
    for i := 0 to |relations|
      invariant best == PickBest(relations[..i], heat, allow, preferLimitUp, s)
      invariant best.Some? ==>
                  var info := heat[best.value.topicID];
                  && bestLimitUp == info.limitUpCount && bestStockCount == info.stockCount
                  && bestParticipation == info.participationRate && bestHeatScore == info.heatScore
    {
      var relation := relations[i];
      assert relations[..i + 1][..i] == relations[..i];
      if !s.Unfiltered(relation) { continue; }
      if allow.Some? && relation.topicID !in allow.value { continue; }
      if relation.topicID !in heat { continue; }
      var heatInfo := heat[relation.topicID];
      if best.None? || ShouldReplacePickedTopic(heatInfo, bestLimitUp, bestStockCount, bestParticipation,
                                                bestHeatScore, preferLimitUp) {
        best := Some(relation);
        bestLimitUp, bestStockCount := heatInfo.limitUpCount, heatInfo.stockCount;
        bestParticipation, bestHeatScore := heatInfo.participationRate, heatInfo.heatScore;
      }
    }
    assert relations[..|relations|] == relations;
  }

  /** Index i is eligible, no eligible relation beats it, and it beats every eligible one before it. */
  ghost predicate IsFirstMaximum(relations: seq<TopicRelation>, heat: HeatMap, allow: Option<set<int>>,
                                 preferLimitUp: bool, s: Setting, i: nat)
  {
    && i < |relations| && Eligible(relations[i], heat, allow, s)
    && forall j :: 0 <= j < |relations| && Eligible(relations[j], heat, allow, s) ==>
         && !Better(heat[relations[j].topicID], heat[relations[i].topicID], preferLimitUp)
         && (j < i ==> Better(heat[relations[i].topicID], heat[relations[j].topicID], preferLimitUp))
  }

  /** Appending a relation: it takes over exactly when it is eligible and beats the maximum so far. */
  lemma FirstMaximumAppend(prefix: seq<TopicRelation>, r: TopicRelation, heat: HeatMap, allow: Option<set<int>>,
                           preferLimitUp: bool, s: Setting, i: nat)
    requires IsFirstMaximum(prefix, heat, allow, preferLimitUp, s, i)
    ensures var takesOver := Eligible(r, heat, allow, s)
                             && Better(heat[r.topicID], heat[prefix[i].topicID], preferLimitUp);
            IsFirstMaximum(prefix + [r], heat, allow, preferLimitUp, s, if takesOver then |prefix| else i)
  {
  }

  /** The pick is the earliest maximal eligible relation; there is none only if no relation is eligible. */
  lemma {:induction false} PickBestIsFirstMaximum(relations: seq<TopicRelation>, heat: HeatMap,
                                                  allow: Option<set<int>>, preferLimitUp: bool, s: Setting)
    ensures var best := PickBest(relations, heat, allow, preferLimitUp, s);
            && (best.None? <==> forall r :: r in relations ==> !Eligible(r, heat, allow, s))
            && (best.Some? ==> exists i: nat :: IsFirstMaximum(relations, heat, allow, preferLimitUp, s, i)
                                                && best.value == relations[i])
  {
    if relations != [] {
      var n := |relations| - 1;
      var prefix, r := relations[..n], relations[n];
      PickBestIsFirstMaximum(prefix, heat, allow, preferLimitUp, s);
      assert relations == prefix + [r];
      var earlier := PickBest(prefix, heat, allow, preferLimitUp, s);
      if earlier.Some? {
        var i: nat :| IsFirstMaximum(prefix, heat, allow, preferLimitUp, s, i) && earlier.value == prefix[i];
        FirstMaximumAppend(prefix, r, heat, allow, preferLimitUp, s, i);
      } else if Eligible(r, heat, allow, s) {
        BetterIsStrictOrder(heat[r.topicID], heat[r.topicID], heat[r.topicID], preferLimitUp);
        assert forall j :: 0 <= j < n ==> relations[j] in prefix;
        assert IsFirstMaximum(relations, heat, allow, preferLimitUp, s, n);
      }
    }
  }

  // ----- the selection paths of the two passes

  /** Limit-up stocks: manual, then recent, then heat ranking. */
  function PickForLimitUp(relations: seq<TopicRelation>, heat: HeatMap, s: Setting, tsCode: string)
    : (best: Option<TopicRelation>)
  {
    if PickManual(relations).Some? then PickManual(relations)
    else if PickRecent(relations, s, tsCode).Some? then PickRecent(relations, s, tsCode)
    else PickBest(relations, heat, None, true, s)
  }

  /** Strong stocks try the topics already assigned to limit-up stocks before all topics. */
  function PickForStrong(relations: seq<TopicRelation>, heat: HeatMap, taken: set<int>, s: Setting, tsCode: string)
    : (best: Option<TopicRelation>)
  {
    if PickManual(relations).Some? then PickManual(relations)
    else if PickRecent(relations, s, tsCode).Some? then PickRecent(relations, s, tsCode)
    else
      var fromAssigned := PickBest(relations, heat, Some(taken), true, s);
      if fromAssigned.Some? then fromAssigned else PickBest(relations, heat, None, false, s)
  }

  method PickBestTopicForLimitUp(relations: seq<TopicRelation>, heat: HeatMap, s: Setting, tsCode: string)
    returns (best: Option<TopicRelation>)
    ensures best == PickForLimitUp(relations, heat, s, tsCode)
  {
    best := PickLatestManualRelation(relations);
    if best.Some? { return; }
    best := PickRecentTopic(relations, s, tsCode);
    if best.Some? { return; }
    best := PickBestTopicBySimpleHeat(relations, heat, None, true, s);
  }

  method PickBestTopicForStrong(relations: seq<TopicRelation>, heat: HeatMap, taken: set<int>, s: Setting,
                                tsCode: string) returns (best: Option<TopicRelation>)
    ensures best == PickForStrong(relations, heat, taken, s, tsCode)
  {
    best := PickLatestManualRelation(relations);
    if best.Some? { return; }
    best := PickRecentTopic(relations, s, tsCode);
    if best.Some? { return; }
    best := PickBestTopicBySimpleHeat(relations, heat, Some(taken), true, s);
    if best.Some? { return; }
    best := PickBestTopicBySimpleHeat(relations, heat, None, false, s);
  }

  /** Both paths pick something in exactly the same case, and always one of the relations. */
  ghost predicate Pickable(relations: seq<TopicRelation>, heat: HeatMap, s: Setting) {
    exists r :: r in relations &&
      (r.source == "manual" || (s.Recent(r) && r.hitCount >= -1) || (s.Unfiltered(r) && r.topicID in heat))
  }

  lemma PicksCover(relations: seq<TopicRelation>, heat: HeatMap, taken: set<int>, s: Setting, tsCode: string)
    ensures PickForLimitUp(relations, heat, s, tsCode).Some? <==> Pickable(relations, heat, s)
    ensures PickForStrong(relations, heat, taken, s, tsCode).Some? <==> Pickable(relations, heat, s)
    ensures PickForLimitUp(relations, heat, s, tsCode).Some? ==>
              PickForLimitUp(relations, heat, s, tsCode).value in relations
    ensures PickForStrong(relations, heat, taken, s, tsCode).Some? ==>
              PickForStrong(relations, heat, taken, s, tsCode).value in relations
  {
    PickManualIsLatest(relations);
    PickRecentHasMostHits(relations, s, tsCode);
    PickBestIsFirstMaximum(relations, heat, None, true, s);
    PickBestIsFirstMaximum(relations, heat, None, false, s);
    PickBestIsFirstMaximum(relations, heat, Some(taken), true, s);
  }
}
