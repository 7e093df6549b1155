/** Clustering of extracted news (internal/service/hot_spot/extractor.go): by sector first,
    large sectors then split greedily by keyword overlap with each cluster's first item. */
module Cluster {
  import opened Wrappers

  datatype News = News(newsID: string, keywords: seq<string>, sector: string, importance: string)

  const OVERLAP_THRESHOLD := 0.3

  // ----- keyword overlap

  function Shared(a: set<string>, b: seq<string>): nat {
    if b == [] then 0 else Shared(a, b[..|b| - 1]) + if b[|b| - 1] in a then 1 else 0
  }

  lemma {:induction false} SharedAtMost(a: set<string>, b: seq<string>)
    ensures Shared(a, b) <= |b|
  {
    if b != [] {
      SharedAtMost(a, b[..|b| - 1]);
    }
  }

  function Overlap(a: seq<string>, b: seq<string>): real {
    if a == [] || b == [] then 0.0
    else
      SharedAtMost(Elements(a), b);
      Shared(Elements(a), b) as real / (|a| + |b| - Shared(Elements(a), b)) as real
  }

  method KeywordOverlap(a: seq<string>, b: seq<string>) returns (overlap: real)
    ensures overlap == Overlap(a, b)
  {
    if |a| == 0 || |b| == 0 { return 0.0; }
    var setA: set<string> := {};
    for i := 0 to |a|
      invariant setA == Elements(a[..i])
    {
      assert a[..i + 1] == a[..i] + [a[i]];
      setA := setA + {a[i]};
    }
    assert a[..|a|] == a;
    var intersection := 0;
    for i := 0 to |b|
      invariant intersection == Shared(setA, b[..i])
    {
      assert b[..i + 1][..i] == b[..i];
      if b[i] in setA {
        intersection := intersection + 1;
      }
    }
    assert b[..|b|] == b;
    SharedAtMost(setA, b);
    var union_ := |a| + |b| - intersection;
    return intersection as real / union_ as real;
  }

  lemma LastIsNew(b: seq<string>)
    requires NoRepeats(b) && b != []
    ensures NoRepeats(b[..|b| - 1]) && b[|b| - 1] !in Elements(b[..|b| - 1])
    ensures Elements(b) == Elements(b[..|b| - 1]) + {b[|b| - 1]}
  {
  }

  lemma {:induction false} WordsSize(b: seq<string>)
    requires NoRepeats(b)
    ensures |Elements(b)| == |b|
  {
    if b == [] {
      assert Elements(b) == {};
    } else {
      LastIsNew(b);
      WordsSize(b[..|b| - 1]);
    }
  }

  lemma CommonNext(a: set<string>, w: set<string>, x: string)
    requires x !in w
    ensures |a * (w + {x})| == |a * w| + if x in a then 1 else 0
  {
    if x in a {
      assert a * (w + {x}) == a * w + {x};
    } else {
      assert a * (w + {x}) == a * w;
    }
  }

  lemma {:induction false} SharedIsCommon(a: set<string>, b: seq<string>)
    requires NoRepeats(b)
    ensures Shared(a, b) == |a * Elements(b)|
  {
    if b != [] {
      var prefix, last := b[..|b| - 1], b[|b| - 1];
      LastIsNew(b);
      SharedIsCommon(a, prefix);
      CommonNext(a, Elements(prefix), last);
    }
  }

  /** On lists without repeats the overlap is the Jaccard index, and so is symmetric. */
  lemma OverlapIsJaccard(a: seq<string>, b: seq<string>)
    requires NoRepeats(a) && NoRepeats(b) && a != [] && b != []
    ensures |Elements(a) + Elements(b)| > 0
    ensures Overlap(a, b) == |Elements(a) * Elements(b)| as real / |Elements(a) + Elements(b)| as real
    ensures Overlap(a, b) == Overlap(b, a)
  {
    WordsSize(a);
    WordsSize(b);
    SharedIsCommon(Elements(a), b);
    SharedIsCommon(Elements(b), a);
    UnionSize(Elements(a), Elements(b));
    SameSet(Elements(a) * Elements(b), Elements(b) * Elements(a));
    SharedAtMost(Elements(a), b);
  }

  /** With repeats, every position of the second list counts on its own. */
  lemma {:induction false} SharedCountsPositions(a: set<string>, b: seq<string>)
    ensures Shared(a, b) == |set i | 0 <= i < |b| && b[i] in a|
  {
    var at := set i | 0 <= i < |b| && b[i] in a;
    if b == [] {
      assert at == {};
    } else {
      var n := |b| - 1;
      SharedCountsPositions(a, b[..n]);
      var before := set i | 0 <= i < |b[..n]| && b[..n][i] in a;
      if b[n] in a {
        assert at == before + {n};
      } else {
        assert at == before;
      }
    }
  }

  // ----- greedy splitting

  predicate Near(items: seq<News>, i: nat, j: nat)
    requires i < |items| && j < |items|
  {
    Overlap(items[i].keywords, items[j].keywords) >= OVERLAP_THRESHOLD
  }

  /** Near means three tenths of the keywords of both are in common. */
  lemma NearIff(items: seq<News>, i: nat, j: nat)
    requires i < |items| && j < |items|
    requires NoRepeats(items[i].keywords) && NoRepeats(items[j].keywords)
    ensures var a, b := Elements(items[i].keywords), Elements(items[j].keywords);
            Near(items, i, j) <==> a != {} && b != {} && 10 * |a * b| >= 3 * |a + b|
  {
    var a, b := items[i].keywords, items[j].keywords;
    assert a != [] ==> a[0] in Elements(a);
    assert b != [] ==> b[0] in Elements(b);
    if a != [] && b != [] {
      OverlapIsJaccard(a, b);
      AtLeastThreeTenths(|Elements(a) * Elements(b)|, |Elements(a) + Elements(b)|);
    }
  }

  lemma AtLeastThreeTenths(part: nat, whole: nat)
    requires whole > 0
    ensures part as real / whole as real >= 0.3 <==> 10 * part >= 3 * whole
  {
    var share := part as real / whole as real;
    assert share * whole as real == part as real;
    if share >= 0.3 {
      assert share * whole as real >= 0.3 * whole as real;
    } else {
      assert share * whole as real < 0.3 * whole as real;
    }
  }

  /** The first leader before n that is near j, or n. */
  function FirstLeader(items: seq<News>, j: nat, n: nat): (leader: nat)
    requires j < |items| && n <= j
    ensures leader <= n
    decreases j, n
  {
    if n == 0 then 0
    else
      var earlier := FirstLeader(items, j, n - 1);
      if earlier < n - 1 then earlier
      else if IsLeader(items, n - 1) && Near(items, n - 1, j) then n - 1 else n
  }

  /** An item leads a cluster exactly when no leader before it is near it. */
  predicate IsLeader(items: seq<News>, j: nat)
    requires j < |items|
    decreases j, j + 1
  {
    FirstLeader(items, j, j) == j
  }

  lemma {:induction false} FirstLeaderIsFirst(items: seq<News>, j: nat, n: nat)
    requires j < |items| && n <= j
    ensures var leader := FirstLeader(items, j, n);
            && (leader < n ==> IsLeader(items, leader) && Near(items, leader, j))
            && (forall l :: 0 <= l < leader && IsLeader(items, l) ==> !Near(items, l, j))
  {
    if n > 0 {
      FirstLeaderIsFirst(items, j, n - 1);
    }
  }

  /** The leader of the cluster an item belongs to; a leader's own leader is itself. */
  function LeaderOf(items: seq<News>, j: nat): (leader: nat)
    requires j < |items|
    ensures leader <= j
  {
    FirstLeader(items, j, j)
  }

  /** Indices below n that lead clusters, in order. */
  function Leaders(items: seq<News>, n: nat): (leaders: seq<nat>)
    requires n <= |items|
    ensures forall k :: 0 <= k < |leaders| ==> leaders[k] < n
    ensures forall x, y :: 0 <= x < y < |leaders| ==> leaders[x] < leaders[y]
  {
    if n == 0 then []
    else
      var earlier := Leaders(items, n - 1);
      if IsLeader(items, n - 1) then earlier + [n - 1] else earlier
  }

  /** Indices below n that belong to a leader, in order. */
  function Members(items: seq<News>, leader: nat, n: nat): (members: seq<nat>)
    requires n <= |items|
    ensures forall k :: 0 <= k < |members| ==> members[k] < n
    ensures forall x, y :: 0 <= x < y < |members| ==> members[x] < members[y]
  {
    if n == 0 then []
    else
      var earlier := Members(items, leader, n - 1);
      if LeaderOf(items, n - 1) == leader then earlier + [n - 1] else earlier
  }

  lemma {:induction false} LeaderListed(items: seq<News>, n: nat, j: nat)
    requires j < n <= |items| && IsLeader(items, j)
    ensures j in Leaders(items, n)
  {
    if j < n - 1 {
      LeaderListed(items, n - 1, j);
    }
  }

  lemma {:induction false} LeadersLead(items: seq<News>, n: nat, l: nat)
    requires n <= |items| && l in Leaders(items, n)
    ensures l < n && IsLeader(items, l)
  {
    if l != n - 1 {
      LeadersLead(items, n - 1, l);
    }
  }

  lemma {:induction false} MemberIff(items: seq<News>, leader: nat, n: nat, j: nat)
    requires j < n <= |items|
    ensures j in Members(items, leader, n) <==> LeaderOf(items, j) == leader
  {
    if j < n - 1 {
      MemberIff(items, leader, n - 1, j);
    } else {
      assert j !in Members(items, leader, n - 1);
    }
  }

  function Select(items: seq<News>, indices: seq<nat>): seq<News>
    requires forall k :: 0 <= k < |indices| ==> indices[k] < |items|
  {
    seq(|indices|, k requires 0 <= k < |indices| => items[indices[k]])
  }

  /** The clusters led by leaders below n, in order. */
  function Clusters(items: seq<News>, n: nat): seq<seq<News>>
    requires n <= |items|
  {
    var leaders := Leaders(items, n);
    seq(|leaders|, k requires 0 <= k < |leaders| => Select(items, Members(items, leaders[k], |items|)))
  }

  lemma {:induction false} FirstLeaderStable(items: seq<News>, j: nat, n: nat, m: nat)
    requires j < |items| && n <= m <= j
    ensures if FirstLeader(items, j, n) < n then FirstLeader(items, j, m) == FirstLeader(items, j, n)
            else FirstLeader(items, j, m) >= n
  {
    if n < m {
      FirstLeaderStable(items, j, n, m - 1);
    }
  }

  /** Some leader before i is near j. */
  predicate Claimed(items: seq<News>, j: nat, i: nat)
    requires j < |items|
  {
    j < i || FirstLeader(items, j, i) < i
  }

  lemma ClaimedNext(items: seq<News>, j: nat, i: nat)
    requires i < j < |items|
    ensures Claimed(items, j, i + 1) <==> Claimed(items, j, i) || (IsLeader(items, i) && Near(items, i, j))
    ensures LeaderOf(items, j) == i <==> !Claimed(items, j, i) && IsLeader(items, i) && Near(items, i, j)
  {
    FirstLeaderStable(items, j, i, j);
    FirstLeaderStable(items, j, i + 1, j);
  }

  /** The flags while leader i gathers: below j they count i already, from j on not yet. */
  ghost predicate Flags(items: seq<News>, done: seq<bool>, i: nat, j: nat) {
    |done| == |items| && forall k :: 0 <= k < |items| ==> (done[k] <==> Claimed(items, k, if k < j then i + 1 else i))
  }

  ghost predicate Gathering(items: seq<News>, done: seq<bool>, cluster: seq<News>, i: nat, j: nat) {
    && i < j <= |items| && IsLeader(items, i) && Flags(items, done, i, j)
    && cluster == Select(items, Members(items, i, j))
  }

  predicate Joins(items: seq<News>, done: seq<bool>, i: nat, j: nat)
    requires i < j < |items| == |done|
  {
    !done[j] && Near(items, i, j)
  }

  lemma MembersNext(items: seq<News>, leader: nat, j: nat)
    requires j < |items|
    ensures Members(items, leader, j + 1)
            == if LeaderOf(items, j) == leader then Members(items, leader, j) + [j] else Members(items, leader, j)
  {
  }

  lemma SelectNext(items: seq<News>, indices: seq<nat>, j: nat)
    requires j < |items| && forall k :: 0 <= k < |indices| ==> indices[k] < |items|
    ensures Select(items, indices + [j]) == Select(items, indices) + [items[j]]
  {
  }

  lemma GatheringNext(items: seq<News>, done: seq<bool>, cluster: seq<News>, i: nat, j: nat)
    requires j < |items| && Gathering(items, done, cluster, i, j)
    ensures if Joins(items, done, i, j) then Gathering(items, done[j := true], cluster + [items[j]], i, j + 1)
            else Gathering(items, done, cluster, i, j + 1)
  {
    ClaimedNext(items, j, i);
    MembersNext(items, i, j);
    SelectNext(items, Members(items, i, j), j);
  }

  lemma GatheringStart(items: seq<News>, done: seq<bool>, i: nat)
    requires i < |items| && IsLeader(items, i) && Flags(items, done, i, 0)
    ensures Gathering(items, done[i := true], [items[i]], i, i + 1)
  {
    NoEarlierMembers(items, i, i);
    assert Members(items, i, i + 1) == [i];
  }

  lemma FlagsSkip(items: seq<News>, done: seq<bool>, i: nat)
    requires i < |items| && Flags(items, done, i, 0) && done[i]
    ensures !IsLeader(items, i) && Flags(items, done, i + 1, 0)
  {
  }

  method TestJoins(items: seq<News>, done: array<bool>, i: nat, j: nat) returns (joins: bool)
    requires i < j < |items| == done.Length
    ensures joins == Joins(items, done[..], i, j)
  {
    if done[j] { return false; }
    var overlap := KeywordOverlap(items[i].keywords, items[j].keywords);
    return overlap >= OVERLAP_THRESHOLD;
  }

  method Mark(done: array<bool>, j: nat)
    requires j < done.Length
    modifies done
    ensures done[..] == old(done[..])[j := true]
  {
    done[j] := true;
  }

  /** Item j joins the cluster of leader i or is left for later. */
  method GatherItem(items: seq<News>, i: nat, j: nat, done: array<bool>, before: seq<News>) returns (cluster: seq<News>)
    requires j < |items| == done.Length && Gathering(items, done[..], before, i, j)
    modifies done
    ensures Gathering(items, done[..], cluster, i, j + 1)
  {
    GatheringNext(items, done[..], before, i, j);
    var joins := TestJoins(items, done, i, j);
    if joins {
      Mark(done, j);
      cluster := before + [items[j]];
    } else {
      cluster := before;
    }
  }

  /** The inner loop: collects what is left near leader i, in order. */
  method GatherCluster(items: seq<News>, i: nat, done: array<bool>) returns (cluster: seq<News>)
    requires i < |items| == done.Length && IsLeader(items, i) && Flags(items, done[..], i, 0)
    modifies done
    ensures Gathering(items, done[..], cluster, i, |items|)
  {
    GatheringStart(items, done[..], i);
    cluster := [items[i]];
    Mark(done, i);
    for j := i + 1 to |items|
      invariant Gathering(items, done[..], cluster, i, j)
    {
      cluster := GatherItem(items, i, j, done, cluster);
    }
  }

  lemma {:induction false} NoEarlierMembers(items: seq<News>, leader: nat, n: nat)
    requires n <= leader && n <= |items|
    ensures Members(items, leader, n) == []
  {
    if n > 0 {
      NoEarlierMembers(items, leader, n - 1);
    }
  }

  method SplitByKeywordOverlap(items: seq<News>) returns (clusters: seq<seq<News>>)
    ensures clusters == Clusters(items, |items|)
  {
    var done := new bool[|items|](_ => false);
    clusters := [];
    for i := 0 to |items|
      invariant clusters == Clusters(items, i)
      invariant Flags(items, done[..], i, 0)
    {
      ClustersNext(items, i);
      if done[i] {
        FlagsSkip(items, done[..], i);
        continue;
      }
      var cluster := GatherCluster(items, i, done);
      clusters := clusters + [cluster];
    }
  }

  lemma ClustersNext(items: seq<News>, i: nat)
    requires i < |items|
    ensures Clusters(items, i + 1) == if IsLeader(items, i)
                                      then Clusters(items, i) + [Select(items, Members(items, i, |items|))]
                                      else Clusters(items, i)
  {
  }

  // ----- what the split guarantees

  /** Every item is in exactly one cluster, that of its leader: the first leader near it. */
  lemma SplitIsPartition(items: seq<News>, j: nat)
    requires j < |items|
    ensures var leaders := Leaders(items, |items|);
            var l := LeaderOf(items, j);
            && l in leaders
            && (forall k :: 0 <= k < |leaders| ==> (j in Members(items, leaders[k], |items|) <==> leaders[k] == l))
            && (l != j ==> Near(items, l, j))
            && (forall e :: 0 <= e < l && IsLeader(items, e) ==> !Near(items, e, j))
  {
    var leaders := Leaders(items, |items|);
    FirstLeaderIsFirst(items, j, j);
    LeaderListed(items, |items|, LeaderOf(items, j));
    forall k | 0 <= k < |leaders|
      ensures j in Members(items, leaders[k], |items|) <==> leaders[k] == LeaderOf(items, j)
    {
      MemberIff(items, leaders[k], |items|, j);
    }
  }

  /** Leaders are never near an earlier leader. */
  lemma LeadersAreApart(items: seq<News>, e: nat, l: nat)
    requires e < l < |items| && IsLeader(items, e) && IsLeader(items, l)
    ensures Overlap(items[e].keywords, items[l].keywords) < OVERLAP_THRESHOLD
  {
    FirstLeaderIsFirst(items, l, l);
  }
}
