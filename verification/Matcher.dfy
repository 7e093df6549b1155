/** Keyword recall of stocks for a hot topic (internal/service/hot_spot/matcher.go): an
    inverted index from tags to stock codes, a score map, an in-place exchange sort. */
module Matcher {
  import opened Wrappers

  datatype StockProfile = StockProfile(tsCode: string, name: string, industry: string,
                                       concepts: seq<string>, histTags: seq<string>)
  {
    /** The non-empty tags a profile is indexed under. */
    function Tags(): set<string> {
      ({industry, name} + (set c | c in concepts) + (set t | t in histTags)) - {""}
    }
  }

  predicate OccursAt(s: string, sub: string, i: nat) {
    i + |sub| <= |s| && s[i..i + |sub|] == sub
  }

  predicate Contains(s: string, sub: string) {
    exists i :: 0 <= i <= |s| && OccursAt(s, sub, i)
  }

  predicate Related(tag: string, keyword: string) {
    Contains(tag, keyword) || Contains(keyword, tag)
  }

  // ----- the reference: a direct scan of the profiles

  function RelatedTags(p: StockProfile, keyword: string): set<string> {
    set t | t in p.Tags() && Related(t, keyword)
  }

  /** 3 for an exact tag, 1 for every tag related by containment (the exact one included). */
  function KeywordScore(p: StockProfile, keyword: string): nat {
    (if keyword in p.Tags() then 3 else 0) + |RelatedTags(p, keyword)|
  }

  function ProfileScore(p: StockProfile, keywords: seq<string>): nat {
    if keywords == [] then 0
    else ProfileScore(p, keywords[..|keywords| - 1]) + KeywordScore(p, keywords[|keywords| - 1])
  }

  /** The scores of all profiles of a code, added up. */
  function ScanScore(profiles: seq<StockProfile>, keywords: seq<string>, code: string): nat {
    if profiles == [] then 0
    else
      var p := profiles[|profiles| - 1];
      ScanScore(profiles[..|profiles| - 1], keywords, code)
      + if p.tsCode == code then ProfileScore(p, keywords) else 0
  }

  // ----- the inverted index

  type Index = map<string, seq<string>>

  /** The codes of the profiles with a tag, in profile order. */
  function Posting(profiles: seq<StockProfile>, tag: string): seq<string> {
    if profiles == [] then []
    else
      var p := profiles[|profiles| - 1];
      Posting(profiles[..|profiles| - 1], tag) + if tag in p.Tags() then [p.tsCode] else []
  }

  ghost predicate Indexes(index: Index, profiles: seq<StockProfile>) {
    forall tag ::
      && (tag in index <==> Posting(profiles, tag) != [])
      && (tag in index ==> index[tag] == Posting(profiles, tag))
  }

  method AddProfile(index: Index, profiles: seq<StockProfile>, p: StockProfile) returns (after: Index)
    requires Indexes(index, profiles)
    ensures Indexes(after, profiles + [p])
  {
    after := index;
    var tags := p.Tags();
    var todo := tags;
    while todo != {}
      invariant todo <= tags
      invariant forall tag :: tag in after <==> tag in index || (tag in tags && tag !in todo)
      invariant forall tag :: tag in after ==>
                  after[tag] == (if tag in index then index[tag] else []) + if tag in tags && tag !in todo then [p.tsCode] else []
      decreases |todo|
    {
      var kw := AnyOf(todo);
      todo := todo - {kw};
      after := after[kw := (if kw in after then after[kw] else []) + [p.tsCode]];
    }
    forall tag
      ensures (tag in after <==> Posting(profiles + [p], tag) != [])
              && (tag in after ==> after[tag] == Posting(profiles + [p], tag))
    {
      PostingSnoc(profiles, p, tag);
      assert tag in index <==> Posting(profiles, tag) != [];
    }
  }

  lemma PostingSnoc(profiles: seq<StockProfile>, p: StockProfile, tag: string)
    ensures Posting(profiles + [p], tag)
            == if tag in p.Tags() then Posting(profiles, tag) + [p.tsCode] else Posting(profiles, tag)
  {
  }

  // ----- scores

  /** gain for every occurrence of a code. */
  function Weight(codes: seq<string>, code: string, gain: nat): nat {
    if codes == [] then 0
    else Weight(codes[..|codes| - 1], code, gain) + if codes[|codes| - 1] == code then gain else 0
  }

  type Scores = map<string, nat>

  function ScoreOf(scores: Scores, code: string): nat {
    if code in scores then scores[code] else 0
  }

  /** after is before with gain added for every occurrence of a code. */
  ghost predicate Bumped(before: Scores, after: Scores, codes: seq<string>, gain: nat) {
    forall code ::
      && ScoreOf(after, code) == ScoreOf(before, code) + Weight(codes, code, gain)
      && (code in after <==> code in before || code in codes)
  }

  lemma BumpedNext(before: Scores, after: Scores, codes: seq<string>, gain: nat, c: string)
    requires Bumped(before, after, codes, gain)
    ensures Bumped(before, after[c := ScoreOf(after, c) + gain], codes + [c], gain)
  {
  }

  method Bump(before: Scores, codes: seq<string>, gain: nat) returns (after: Scores)
    ensures Bumped(before, after, codes, gain)
  {
    after := before;
    for i := 0 to |codes|
      invariant Bumped(before, after, codes[..i], gain)
    {
      assert codes[..i + 1] == codes[..i] + [codes[i]];
      BumpedNext(before, after, codes[..i], gain, codes[i]);
      after := after[codes[i] := ScoreOf(after, codes[i]) + gain];
    }
    assert codes[..|codes|] == codes;
  }

  /** What the index gives a code over a set of its keys: one for every profile of the code
      and every key among the profile's tags. */
  function KeyHits(profiles: seq<StockProfile>, code: string, keys: set<string>): nat {
    if profiles == [] then 0
    else
      var p := profiles[|profiles| - 1];
      KeyHits(profiles[..|profiles| - 1], code, keys) + if p.tsCode == code then |keys * p.Tags()| else 0
  }

  lemma WeightSnoc(codes: seq<string>, c: string, code: string, gain: nat)
    ensures Weight(codes + [c], code, gain) == Weight(codes, code, gain) + if c == code then gain else 0
  {
  }

  lemma AddKeyMeets(keys: set<string>, key: string, tags: set<string>)
    requires key !in keys
    ensures |(keys + {key}) * tags| == |keys * tags| + if key in tags then 1 else 0
  {
    if key in tags {
      assert (keys + {key}) * tags == keys * tags + {key};
    } else {
      assert (keys + {key}) * tags == keys * tags;
    }
  }

  lemma {:induction false} KeyHitsAdd(profiles: seq<StockProfile>, code: string, keys: set<string>, key: string)
    requires key !in keys
    ensures KeyHits(profiles, code, keys + {key}) == KeyHits(profiles, code, keys) + Weight(Posting(profiles, key), code, 1)
  {
    if profiles != [] {
      var prefix, p := profiles[..|profiles| - 1], profiles[|profiles| - 1];
      KeyHitsAdd(prefix, code, keys, key);
      AddKeyMeets(keys, key, p.Tags());
      assert prefix + [p] == profiles;
      PostingSnoc(prefix, p, key);
      WeightSnoc(Posting(prefix, key), p.tsCode, code, 1);
    }
  }

  lemma {:induction false} KeyHitsNone(profiles: seq<StockProfile>, code: string)
    ensures KeyHits(profiles, code, {}) == 0
  {
    if profiles != [] {
      KeyHitsNone(profiles[..|profiles| - 1], code);
      assert {} * profiles[|profiles| - 1].Tags() == {};
    }
  }

  /** What one keyword adds to a code's score. */
  function KeywordGain(profiles: seq<StockProfile>, keyword: string, code: string): nat {
    if profiles == [] then 0
    else
      var p := profiles[|profiles| - 1];
      KeywordGain(profiles[..|profiles| - 1], keyword, code) + if p.tsCode == code then KeywordScore(p, keyword) else 0
  }

  lemma {:induction false} GainIsExactPlusRelated(profiles: seq<StockProfile>, keyword: string, code: string, keys: set<string>)
    requires forall p, t :: p in profiles && t in p.Tags() ==> (t in keys <==> Related(t, keyword))
    ensures KeywordGain(profiles, keyword, code)
            == Weight(Posting(profiles, keyword), code, 3) + KeyHits(profiles, code, keys)
  {
    if profiles != [] {
      var prefix, p := profiles[..|profiles| - 1], profiles[|profiles| - 1];
      GainIsExactPlusRelated(prefix, keyword, code, keys);
      assert prefix + [p] == profiles;
      PostingSnoc(prefix, p, keyword);
      WeightSnoc(Posting(prefix, keyword), p.tsCode, code, 3);
      assert p in profiles;
      assert keys * p.Tags() == RelatedTags(p, keyword);
    }
  }

  /** Adding a keyword adds its gain to the scan score. */
  lemma {:induction false} ScanScoreSnoc(profiles: seq<StockProfile>, keywords: seq<string>, keyword: string, code: string)
    ensures ScanScore(profiles, keywords + [keyword], code)
            == ScanScore(profiles, keywords, code) + KeywordGain(profiles, keyword, code)
  {
    assert (keywords + [keyword])[..|keywords|] == keywords;
    if profiles != [] {
      ScanScoreSnoc(profiles[..|profiles| - 1], keywords, keyword, code);
    }
  }

  ghost predicate Scored(scores: Scores, profiles: seq<StockProfile>, keywords: seq<string>) {
    forall code ::
      && ScoreOf(scores, code) == ScanScore(profiles, keywords, code)
      && (code in scores <==> ScanScore(profiles, keywords, code) > 0)
  }

  // ----- the exchange sort

  datatype Candidate = Candidate(code: string, score: nat)

  predicate Ranked(a: seq<Candidate>) {
    forall i, j :: 0 <= i < j < |a| ==> a[i].score >= a[j].score
  }

  /** Everything before i is at least everything after it. */
  predicate RankedUpTo(a: seq<Candidate>, i: nat) {
    forall x, y :: 0 <= x < i && x < y < |a| ==> a[x].score >= a[y].score
  }

  method ExchangeSort(a: array<Candidate>)
    modifies a
    ensures Ranked(a[..])
    ensures multiset(a[..]) == multiset(old(a[..]))
  {
    for i := 0 to a.Length
      invariant multiset(a[..]) == multiset(old(a[..]))
      invariant RankedUpTo(a[..], i)
    {
      ExchangeInto(a, i);
    }
  }

  lemma SwapKeeps(s: seq<Candidate>, i: nat, j: nat)
    requires i < j < |s|
    ensures multiset(s[i := s[j]][j := s[i]]) == multiset(s)
    ensures RankedUpTo(s, i) ==> RankedUpTo(s[i := s[j]][j := s[i]], i)
  {
  }

  /** The inner loop: position i ends up with the best of what follows. */
  method ExchangeInto(a: array<Candidate>, i: nat)
    requires i < a.Length && RankedUpTo(a[..], i)
    modifies a
    ensures multiset(a[..]) == multiset(old(a[..]))
    ensures RankedUpTo(a[..], i + 1)
  {
    for j := i + 1 to a.Length
      invariant multiset(a[..]) == multiset(old(a[..]))
      invariant RankedUpTo(a[..], i)
      invariant forall y :: i < y < j ==> a[..][i].score >= a[..][y].score
    {
      SwapIfBetter(a, i, j);
    }
  }

  method SwapIfBetter(a: array<Candidate>, i: nat, j: nat)
    requires i < j < a.Length && RankedUpTo(a[..], i)
    modifies a
    ensures multiset(a[..]) == multiset(old(a[..])) && RankedUpTo(a[..], i)
    ensures a[..][i].score >= a[..][j].score && a[..][i].score >= old(a[..])[i].score
    ensures forall y :: 0 <= y < a.Length && y != i && y != j ==> a[..][y] == old(a[..])[y]
  {
    if a[j].score > a[i].score {
      SwapKeeps(a[..], i, j);
      ghost var before := a[..];
      a[i], a[j] := a[j], a[i];
      assert a[..] == before[i := before[j]][j := before[i]];
    }
  }

  class StockMatcher {
    ghost const profiles: seq<StockProfile>
    var stockProfiles: map<string, StockProfile>
    var invertedIndex: Index

    ghost predicate Valid()
      reads this
    {
      Indexes(invertedIndex, profiles)
    }

    constructor (profiles: seq<StockProfile>)
      ensures Valid() && this.profiles == profiles
      ensures forall code :: code in stockProfiles ==> stockProfiles[code] in profiles && stockProfiles[code].tsCode == code
    {
      this.profiles := profiles;
      var byCode: map<string, StockProfile> := map[];
      var index: Index := map[];
      for i := 0 to |profiles|
        invariant Indexes(index, profiles[..i])
        invariant forall code :: code in byCode ==> byCode[code] in profiles && byCode[code].tsCode == code
      {
        var p := profiles[i];
        byCode := byCode[p.tsCode := p];
        assert profiles[..i + 1] == profiles[..i] + [p];
        index := AddProfile(index, profiles[..i], p);
      }
      assert profiles[..|profiles|] == profiles;
      stockProfiles, invertedIndex := byCode, index;
    }

    /** Adds one keyword's hits: 3 for exact postings, 1 for each related key. */
    method AddKeyword(before: Scores, keyword: string) returns (after: Scores)
      requires Valid()
      requires forall code :: code in before <==> ScoreOf(before, code) > 0
      ensures forall code :: ScoreOf(after, code) == ScoreOf(before, code) + KeywordGain(profiles, keyword, code)
      ensures forall code :: code in after <==> ScoreOf(after, code) > 0
    {
      after := before;
      if keyword in invertedIndex {
        after := Bump(after, invertedIndex[keyword], 3);
      }
      ghost var exact := after;
      forall code
        ensures ScoreOf(exact, code) == ScoreOf(before, code) + Weight(Posting(profiles, keyword), code, 3)
        ensures code in exact <==> ScoreOf(exact, code) > 0
      {
        WeightPositive(Posting(profiles, keyword), code, 3);
      }
      var todo := invertedIndex.Keys;
      ghost var done: set<string> := {};
      forall code ensures KeyHits(profiles, code, {}) == 0 { KeyHitsNone(profiles, code); }
      while todo != {}
        invariant todo <= invertedIndex.Keys
        invariant forall key :: key in done <==> key in invertedIndex && key !in todo && Related(key, keyword)
        invariant forall code :: ScoreOf(after, code) == ScoreOf(exact, code) + KeyHits(profiles, code, done)
        invariant forall code :: code in after <==> ScoreOf(after, code) > 0
        decreases |todo|
      {
        var idxKey := AnyOf(todo);
        todo := todo - {idxKey};
        if Related(idxKey, keyword) {
          ghost var previous := after;
          after := Bump(after, invertedIndex[idxKey], 1);
          forall code
            ensures KeyHits(profiles, code, done + {idxKey}) == KeyHits(profiles, code, done) + Weight(Posting(profiles, idxKey), code, 1)
            ensures code in invertedIndex[idxKey] <==> Weight(invertedIndex[idxKey], code, 1) > 0
          {
            KeyHitsAdd(profiles, code, done, idxKey);
            WeightPositive(invertedIndex[idxKey], code, 1);
          }
          done := done + {idxKey};
        }
      }
      forall code
        ensures ScoreOf(after, code) == ScoreOf(before, code) + KeywordGain(profiles, keyword, code)
      {
        AllTagsIndexed(invertedIndex, profiles);
        GainIsExactPlusRelated(profiles, keyword, code, done);
      }
    }

    method KeywordMatch(keywords: seq<string>) returns (codes: seq<string>)
      requires Valid()
      ensures IsRecall(codes, profiles, keywords)
    {
      var scores: Scores := map[];
      forall code ensures ScanScore(profiles, [], code) == 0 { NoKeywordsNoScore(profiles, code); }
      for i := 0 to |keywords|
        invariant Scored(scores, profiles, keywords[..i])
      {
        assert keywords[..i + 1] == keywords[..i] + [keywords[i]];
        forall code
          ensures ScanScore(profiles, keywords[..i + 1], code)
                  == ScanScore(profiles, keywords[..i], code) + KeywordGain(profiles, keywords[i], code)
        {
          ScanScoreSnoc(profiles, keywords[..i], keywords[i], code);
        }
        scores := AddKeyword(scores, keywords[i]);
      }
      assert keywords[..|keywords|] == keywords;
      var candidates := CollectCandidates(scores);
      var a := new Candidate[|candidates|](i requires 0 <= i < |candidates| => candidates[i]);
      assert a[..] == candidates;
      ExchangeSort(a);
      codes := CodesInOrder(a);
      RankedIsRecall(candidates, a[..], codes, scores, profiles, keywords);
    }
  }

  lemma {:induction false} WeightPositive(codes: seq<string>, code: string, gain: nat)
    requires gain > 0
    ensures Weight(codes, code, gain) > 0 <==> code in codes
  {
    if codes != [] {
      WeightPositive(codes[..|codes| - 1], code, gain);
      assert codes == codes[..|codes| - 1] + [codes[|codes| - 1]];
    }
  }

  lemma {:induction false} NoKeywordsNoScore(profiles: seq<StockProfile>, code: string)
    ensures ScanScore(profiles, [], code) == 0
  {
    if profiles != [] {
      NoKeywordsNoScore(profiles[..|profiles| - 1], code);
    }
  }

  lemma {:induction false} PostingOfTag(profiles: seq<StockProfile>, p: StockProfile, tag: string)
    requires p in profiles && tag in p.Tags()
    ensures Posting(profiles, tag) != []
  {
    if p != profiles[|profiles| - 1] {
      assert p in profiles[..|profiles| - 1];
      PostingOfTag(profiles[..|profiles| - 1], p, tag);
    }
  }

  lemma AllTagsIndexed(index: Index, profiles: seq<StockProfile>)
    requires Indexes(index, profiles)
    ensures forall p, t :: p in profiles && t in p.Tags() ==> t in index
  {
    forall p, t | p in profiles && t in p.Tags() ensures t in index {
      PostingOfTag(profiles, p, t);
    }
  }

  // ----- the output

  /** Exactly the codes whose direct scan scores at least 2, each once, best first. */
  ghost predicate IsRecall(codes: seq<string>, profiles: seq<StockProfile>, keywords: seq<string>) {
    && (forall code :: code in codes <==> ScanScore(profiles, keywords, code) >= 2)
    && NoRepeats(codes)
    && (forall i, j :: 0 <= i < j < |codes| ==>
          ScanScore(profiles, keywords, codes[i]) >= ScanScore(profiles, keywords, codes[j]))
  }

  ghost predicate DistinctCandidates(a: seq<Candidate>) {
    forall i, j :: 0 <= i < j < |a| ==> a[i].code != a[j].code
  }

  method CollectCandidates(scores: Scores) returns (candidates: seq<Candidate>)
    ensures DistinctCandidates(candidates)
    ensures forall c :: c in candidates <==> c.code in scores && scores[c.code] == c.score && c.score >= 2
  {
    candidates := [];
    var todo := scores.Keys;
    while todo != {}
      invariant todo <= scores.Keys
      invariant DistinctCandidates(candidates)
      invariant forall c :: c in candidates <==> c.code in scores && c.code !in todo && scores[c.code] == c.score && c.score >= 2
      decreases |todo|
    {
      var code := AnyOf(todo);
      todo := todo - {code};
      if scores[code] >= 2 {
        assert forall i :: 0 <= i < |candidates| ==> candidates[i] in candidates;
        candidates := candidates + [Candidate(code, scores[code])];
      }
    }
  }

  method CodesInOrder(a: array<Candidate>) returns (codes: seq<string>)
    ensures |codes| == a.Length && forall i :: 0 <= i < a.Length ==> codes[i] == a[i].code
  {
    codes := [];
    for i := 0 to a.Length
      invariant |codes| == i && forall j :: 0 <= j < i ==> codes[j] == a[j].code
    {
      codes := codes + [a[i].code];
    }
  }

  lemma MultisetDistinct(before: seq<Candidate>, after: seq<Candidate>, i: nat, j: nat)
    requires multiset(before) == multiset(after) && DistinctCandidates(before) && i < j < |after|
    ensures after[i].code != after[j].code
  {
    assert after[i] in multiset(before) && after[j] in multiset(before);
    if after[i].code == after[j].code {
      var x :| 0 <= x < |before| && before[x] == after[i];
      var y :| 0 <= y < |before| && before[y] == after[j];
      assert x == y;
      assert after[i] == after[j];
      assert after == after[..i] + [after[i]] + after[i + 1..j] + [after[j]] + after[j + 1..];
      assert multiset(after)[after[i]] >= 2;
      DistinctOnce(before, x);
      assert false;
    }
  }

  lemma {:induction false} DistinctOnce(a: seq<Candidate>, x: nat)
    requires DistinctCandidates(a) && x < |a|
    ensures multiset(a)[a[x]] == 1
  {
    assert a == a[..x] + [a[x]] + a[x + 1..];
    assert a[x] !in a[..x] && a[x] !in a[x + 1..];
  }

  lemma RankedIsRecall(candidates: seq<Candidate>, sorted: seq<Candidate>, codes: seq<string>, scores: Scores,
                       profiles: seq<StockProfile>, keywords: seq<string>)
    requires Scored(scores, profiles, keywords) && DistinctCandidates(candidates)
    requires forall c :: c in candidates <==> c.code in scores && scores[c.code] == c.score && c.score >= 2
    requires multiset(sorted) == multiset(candidates) && Ranked(sorted)
    requires |codes| == |sorted| && forall i :: 0 <= i < |sorted| ==> codes[i] == sorted[i].code
    ensures IsRecall(codes, profiles, keywords)
  {
    forall i | 0 <= i < |sorted| ensures sorted[i] in candidates {
      assert sorted[i] in multiset(candidates);
    }
    forall code | ScanScore(profiles, keywords, code) >= 2 ensures code in codes {
      var c := Candidate(code, scores[code]);
      assert c in multiset(sorted);
      var i :| 0 <= i < |sorted| && sorted[i] == c;
      assert codes[i] == code;
    }
    forall i, j | 0 <= i < j < |codes| ensures codes[i] != codes[j] {
      MultisetDistinct(candidates, sorted, i, j);
    }
  }

  // ----- consequences

  lemma {:induction false} ScanOfUniqueProfile(profiles: seq<StockProfile>, keywords: seq<string>, p: StockProfile)
    requires p in profiles && forall q :: q in profiles && q.tsCode == p.tsCode ==> q == p
    requires forall i, j :: 0 <= i < j < |profiles| ==> profiles[i].tsCode != profiles[j].tsCode
    ensures ScanScore(profiles, keywords, p.tsCode) == ProfileScore(p, keywords)
  {
    var n := |profiles| - 1;
    var prefix, last := profiles[..n], profiles[n];
    if p == last {
      ScanOfAbsent(prefix, keywords, p.tsCode);
    } else {
      assert p in prefix;
      assert forall q :: q in prefix ==> q in profiles;
      ScanOfUniqueProfile(prefix, keywords, p);
    }
  }

  lemma {:induction false} ScanOfAbsent(profiles: seq<StockProfile>, keywords: seq<string>, code: string)
    requires forall q :: q in profiles ==> q.tsCode != code
    ensures ScanScore(profiles, keywords, code) == 0
  {
    if profiles != [] {
      ScanOfAbsent(profiles[..|profiles| - 1], keywords, code);
    }
  }

  lemma {:induction false} ExactTagScores(p: StockProfile, keywords: seq<string>, keyword: string)
    requires keyword in keywords && keyword in p.Tags()
    ensures ProfileScore(p, keywords) >= 4
  {
    var last := keywords[|keywords| - 1];
    if keyword == last {
      assert OccursAt(keyword, keyword, 0);
      assert keyword in RelatedTags(p, keyword);
      assert |RelatedTags(p, keyword)| >= |{keyword}| by { SubsetSize({keyword}, RelatedTags(p, keyword)); }
    } else {
      assert keyword in keywords[..|keywords| - 1];
      ExactTagScores(p, keywords[..|keywords| - 1], keyword);
    }
  }

  lemma SubsetSize<T>(a: set<T>, b: set<T>)
    requires a <= b
    ensures |a| <= |b|
  {
    assert b == a + (b - a);
  }

  /** With one profile for each code, a stock that has a topic keyword among its tags is
      always recalled, and its score is that of its own profile alone. */
  lemma ExactTagIsRecalled(codes: seq<string>, profiles: seq<StockProfile>, keywords: seq<string>, p: StockProfile, keyword: string)
    requires IsRecall(codes, profiles, keywords)
    requires forall i, j :: 0 <= i < j < |profiles| ==> profiles[i].tsCode != profiles[j].tsCode
    requires p in profiles && keyword in keywords && keyword in p.Tags()
    ensures p.tsCode in codes
    ensures ScanScore(profiles, keywords, p.tsCode) == ProfileScore(p, keywords) >= 4
  {
    ScanOfUniqueProfile(profiles, keywords, p);
    ExactTagScores(p, keywords, keyword);
  }

  /** The fallback returns the first thirty of the recall, and nothing outside it scores higher. */
  function Fallback(codes: seq<string>): seq<string> {
    if |codes| < 30 then codes else codes[..30]
  }

  lemma FallbackIsTop30(codes: seq<string>, profiles: seq<StockProfile>, keywords: seq<string>, inside: string, outside: string)
    requires IsRecall(codes, profiles, keywords)
    requires inside in Fallback(codes) && outside !in Fallback(codes)
    ensures |Fallback(codes)| <= 30 && (outside in codes ==> |Fallback(codes)| == 30)
    ensures ScanScore(profiles, keywords, inside) >= ScanScore(profiles, keywords, outside)
  {
  }

  // ----- the recall in terms of the profile's fields

  /** A text contains what stands between a beginning and an end of it, and nothing else. */
  lemma ContainsBetween(before: string, sub: string, after: string)
    ensures Contains(before + sub + after, sub)
  {
    var s := before + sub + after;
    assert s[|before|..|before| + |sub|] == sub;
    assert OccursAt(s, sub, |before|);
  }

  lemma ContainedIsBetween(s: string, sub: string) returns (before: string, after: string)
    requires Contains(s, sub)
    ensures s == before + sub + after
  {
    var i :| 0 <= i <= |s| && OccursAt(s, sub, i);
    before, after := s[..i], s[i + |sub|..];
  }

  ghost predicate IsTag(p: StockProfile, tag: string) {
    tag != "" && (tag == p.name || tag == p.industry || tag in p.concepts || tag in p.histTags)
  }

  /** The keywords, by position, that are tags of a profile. */
  ghost function ExactPositions(p: StockProfile, keywords: seq<string>): set<int> {
    set i | 0 <= i < |keywords| && IsTag(p, keywords[i])
  }

  /** The tags, with the position of a keyword, of which one contains the other. */
  ghost function RelatedPairs(p: StockProfile, keywords: seq<string>): set<(int, string)> {
    set i, t | 0 <= i < |keywords| && t in p.Tags() && (Contains(t, keywords[i]) || Contains(keywords[i], t)) :: (i, t)
  }

  lemma TagsAreTags(p: StockProfile, tag: string)
    ensures tag in p.Tags() <==> IsTag(p, tag)
  {
  }

  lemma {:induction false} PairsAt(i: int, tags: set<string>) returns (pairs: set<(int, string)>)
    ensures pairs == (set t | t in tags :: (i, t))
    ensures |pairs| == |tags|
  {
    pairs := set t | t in tags :: (i, t);
    if tags == {} {
      assert pairs == {};
    } else {
      var t := SomeOf(tags);
      var fewer := PairsAt(i, tags - {t});
      assert pairs == fewer + {(i, t)};
    }
  }

  lemma PairsNext(p: StockProfile, keywords: seq<string>, keyword: string)
    ensures |RelatedPairs(p, keywords + [keyword])| == |RelatedPairs(p, keywords)| + |RelatedTags(p, keyword)|
  {
    var before := RelatedPairs(p, keywords);
    var last := PairsAt(|keywords|, RelatedTags(p, keyword));
    forall pair: (int, string) ensures pair in RelatedPairs(p, keywords + [keyword]) <==> pair in before + last {
      PairNext(p, keywords, keyword, pair.0, pair.1);
    }
    SameSet(RelatedPairs(p, keywords + [keyword]), before + last);
    assert before !! last;
  }

  lemma PairNext(p: StockProfile, keywords: seq<string>, keyword: string, i: int, t: string)
    ensures (i, t) in RelatedPairs(p, keywords + [keyword])
            <==> (i, t) in RelatedPairs(p, keywords) || (i == |keywords| && t in RelatedTags(p, keyword))
  {
    var after := keywords + [keyword];
    assert after[|keywords|] == keyword;
    assert 0 <= i < |keywords| ==> after[i] == keywords[i];
  }

  lemma PositionsNext(p: StockProfile, keywords: seq<string>, keyword: string)
    ensures |ExactPositions(p, keywords + [keyword])|
         == |ExactPositions(p, keywords)| + if keyword in p.Tags() then 1 else 0
  {
    var n, after := |keywords|, keywords + [keyword];
    TagsAreTags(p, keyword);
    SameSet(ExactPositions(p, after), ExactPositions(p, keywords) + if keyword in p.Tags() then {n} else {});
  }

  /** Three points for a keyword that is a tag, one for a keyword and a tag related to it. */
  lemma {:induction false} ScoreCounts(p: StockProfile, keywords: seq<string>)
    ensures ProfileScore(p, keywords) == 3 * |ExactPositions(p, keywords)| + |RelatedPairs(p, keywords)|
  {
    if keywords == [] {
      assert ExactPositions(p, []) == {} && RelatedPairs(p, []) == {};
    } else {
      var prefix, last := keywords[..|keywords| - 1], keywords[|keywords| - 1];
      assert keywords == prefix + [last];
      ScoreCounts(p, prefix);
      PairsNext(p, prefix, last);
      PositionsNext(p, prefix, last);
    }
  }

  /** With one profile for each code, a stock is recalled exactly when a keyword is its name, its
      industry, one of its concepts or historical tags, or two of its tags are related to
      keywords (or one to two keywords). */
  lemma RecallIff(codes: seq<string>, profiles: seq<StockProfile>, keywords: seq<string>, p: StockProfile)
    requires IsRecall(codes, profiles, keywords)
    requires forall i, j :: 0 <= i < j < |profiles| ==> profiles[i].tsCode != profiles[j].tsCode
    requires p in profiles
    ensures p.tsCode in codes <==>
              || (exists keyword :: keyword in keywords && keyword != ""
                    && (keyword == p.name || keyword == p.industry || keyword in p.concepts || keyword in p.histTags))
              || |RelatedPairs(p, keywords)| >= 2
  {
    ScanOfUniqueProfile(profiles, keywords, p);
    ScoreCounts(p, keywords);
    var exact := ExactPositions(p, keywords);
    if keyword :| keyword in keywords && IsTag(p, keyword) {
      var i :| 0 <= i < |keywords| && keywords[i] == keyword;
      assert i in exact;
      SubsetSize({i}, exact);
    } else {
      forall i ensures i !in exact { }
      SameSet(exact, {});
    }
  }

  /** Only profiled stocks are recalled. */
  lemma RecallNamesProfiles(codes: seq<string>, profiles: seq<StockProfile>, keywords: seq<string>, code: string)
    requires IsRecall(codes, profiles, keywords) && code in codes
    ensures exists p :: p in profiles && p.tsCode == code
  {
    if forall p :: p in profiles ==> p.tsCode != code {
      ScanOfAbsent(profiles, keywords, code);
    }
  }
}
