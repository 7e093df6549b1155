/** Grouping news by sector (ClusterBySector in internal/service/hot_spot/extractor.go), and
    conservation of the items through grouping and splitting. */
module SectorClusters {
  import opened Wrappers
  import opened Cluster

  // ----- sector names

  /** White space as strings.TrimSpace sees it. */
  predicate IsSpace(c: char) {
    var n := c as int;
    9 <= n <= 13 || n in {0x20, 0x85, 0xA0, 0x1680, 0x2028, 0x2029, 0x202F, 0x205F, 0x3000} || 0x2000 <= n <= 0x200A
  }

  function TrimLeft(s: string): string {
    if s != "" && IsSpace(s[0]) then TrimLeft(s[1..]) else s
  }

  function TrimRight(s: string): string {
    if s != "" && IsSpace(s[|s| - 1]) then TrimRight(s[..|s| - 1]) else s
  }

  function TrimSuffix(s: string, suffix: string): string {
    if |suffix| <= |s| && s[|s| - |suffix|..] == suffix then s[..|s| - |suffix|] else s
  }

  function NormalizeSector(sector: string): string {
    TrimSuffix(TrimSuffix(TrimRight(TrimLeft(sector)), "概念"), "板块")
  }

  // ----- keyword counts

  function Occurrences(words: seq<string>, k: string): nat {
    if words == [] then 0 else Occurrences(words[..|words| - 1], k) + if words[|words| - 1] == k then 1 else 0
  }

  function KeywordCount(items: seq<News>, k: string): nat {
    if items == [] then 0
    else KeywordCount(items[..|items| - 1], k) + Occurrences(items[|items| - 1].keywords, k)
  }

  ghost predicate CountsKeywords(kw: map<string, nat>, items: seq<News>) {
    forall k :: (k in kw <==> KeywordCount(items, k) > 0) && (k in kw ==> kw[k] == KeywordCount(items, k))
  }

  function CountOf(kw: map<string, nat>, k: string): nat {
    if k in kw then kw[k] else 0
  }

  method CountWords(before: map<string, nat>, words: seq<string>) returns (kw: map<string, nat>)
    ensures forall k :: CountOf(kw, k) == CountOf(before, k) + Occurrences(words, k)
    ensures forall k :: k in kw <==> k in before || Occurrences(words, k) > 0
  {
    kw := before;
    for i := 0 to |words|
      invariant forall k :: CountOf(kw, k) == CountOf(before, k) + Occurrences(words[..i], k)
      invariant forall k :: k in kw <==> k in before || Occurrences(words[..i], k) > 0
    {
      assert words[..i + 1][..i] == words[..i];
      kw := kw[words[i] := CountOf(kw, words[i]) + 1];
    }
    assert words[..|words|] == words;
  }

  method MergeKeywords(items: seq<News>) returns (kw: map<string, nat>)
    ensures CountsKeywords(kw, items)
  {
    kw := map[];
    for i := 0 to |items|
      invariant CountsKeywords(kw, items[..i])
    {
      assert items[..i + 1][..i] == items[..i];
      kw := CountWords(kw, items[i].keywords);
    }
    assert items[..|items|] == items;
  }

  // ----- grouping

  function Kept(extracted: seq<News>): seq<News> {
    if extracted == [] then []
    else
      var n := extracted[|extracted| - 1];
      Kept(extracted[..|extracted| - 1]) + if n.importance == "low" then [] else [n]
  }

  function Group(extracted: seq<News>, sector: string): seq<News> {
    if extracted == [] then []
    else
      var n := extracted[|extracted| - 1];
      Group(extracted[..|extracted| - 1], sector)
      + if n.importance != "low" && NormalizeSector(n.sector) == sector then [n] else []
  }

  ghost predicate Groups(groups: map<string, seq<News>>, extracted: seq<News>) {
    forall sector ::
      && (sector in groups <==> Group(extracted, sector) != [])
      && (sector in groups ==> groups[sector] == Group(extracted, sector))
  }

  method GroupBySector(extracted: seq<News>) returns (groups: map<string, seq<News>>)
    ensures Groups(groups, extracted)
  {
    groups := map[];
    for i := 0 to |extracted|
      invariant Groups(groups, extracted[..i])
    {
      assert extracted[..i + 1][..i] == extracted[..i];
      var n := extracted[i];
      if n.importance == "low" { continue; }
      var sector := NormalizeSector(n.sector);
      groups := groups[sector := (if sector in groups then groups[sector] else []) + [n]];
    }
    assert extracted[..|extracted|] == extracted;
  }

  /** Groups of at most three form one cluster as they are; larger ones are split. */
  function SplitGroup(group: seq<News>): seq<seq<News>> {
    if |group| <= 3 then [group] else Clusters(group, |group|)
  }

  datatype NewsCluster = NewsCluster(id: nat, primarySector: string, newsItems: seq<News>, keywords: map<string, nat>)

  /** A piece of news lists with the sector they belong to, before ids and counts. */
  datatype Part = Part(sector: string, items: seq<News>)

  function PartsOf(sector: string, splits: seq<seq<News>>): seq<Part> {
    seq(|splits|, k requires 0 <= k < |splits| => Part(sector, splits[k]))
  }

  /** The parts of the sectors, in a given order of sectors. */
  function Parts(extracted: seq<News>, order: seq<string>): seq<Part> {
    if order == [] then []
    else
      var sector := order[|order| - 1];
      Parts(extracted, order[..|order| - 1]) + PartsOf(sector, SplitGroup(Group(extracted, sector)))
  }

  ghost predicate Presents(clusters: seq<NewsCluster>, parts: seq<Part>) {
    && |clusters| == |parts|
    && forall k :: 0 <= k < |clusters| ==>
         && clusters[k].id == k
         && clusters[k].primarySector == parts[k].sector
         && clusters[k].newsItems == parts[k].items
         && CountsKeywords(clusters[k].keywords, parts[k].items)
  }

  /** Every sector with news once, in the order in which the map of groups was ranged over. */
  ghost predicate IsSectorOrder(extracted: seq<News>, order: seq<string>) {
    NoRepeats(order) && forall sector :: sector in order <==> Group(extracted, sector) != []
  }

  /** The sectors done so far: every sector of the groups is either done, once, or still to do. */
  ghost predicate Progress(order: seq<string>, todo: set<string>, groups: map<string, seq<News>>) {
    && todo <= groups.Keys
    && NoRepeats(order)
    && forall sector :: sector in order <==> sector in groups && sector !in todo
  }

  lemma ProgressNext(order: seq<string>, todo: set<string>, groups: map<string, seq<News>>, sector: string)
    requires Progress(order, todo, groups) && sector in todo
    ensures Progress(order + [sector], todo - {sector}, groups)
  {
  }

  lemma PartsNext(extracted: seq<News>, order: seq<string>, sector: string)
    ensures Parts(extracted, order + [sector])
            == Parts(extracted, order) + PartsOf(sector, SplitGroup(Group(extracted, sector)))
  {
  }

  method SplitIfLarge(group: seq<News>) returns (subs: seq<seq<News>>)
    ensures subs == SplitGroup(group)
  {
    if |group| <= 3 {
      subs := [group];
    } else {
      subs := SplitByKeywordOverlap(group);
    }
  }

  method ClusterBySector(extracted: seq<News>) returns (clusters: seq<NewsCluster>)
    ensures exists order :: IsSectorOrder(extracted, order) && Presents(clusters, Parts(extracted, order))
    ensures ClusterBag(clusters) == multiset(Kept(extracted))
    ensures forall k :: 0 <= k < |clusters| ==> clusters[k].id == k
  {
    var groups := GroupBySector(extracted);
    clusters := [];
    ghost var order: seq<string> := [];
    var todo := groups.Keys;
    while todo != {}
      invariant Progress(order, todo, groups)
      invariant Presents(clusters, Parts(extracted, order))
      decreases |todo|
    {
      var sector := AnyOf(todo);
      ProgressNext(order, todo, groups, sector);
      PartsNext(extracted, order, sector);
      var subs := SplitIfLarge(groups[sector]);
      clusters := AppendClusters(clusters, sector, subs, Parts(extracted, order));
      order := order + [sector];
      todo := todo - {sector};
    }
    assert IsSectorOrder(extracted, order);
    ClusteringConserves(extracted, order, clusters);
  }

  method AppendClusters(before: seq<NewsCluster>, sector: string, subs: seq<seq<News>>, ghost parts: seq<Part>)
    returns (clusters: seq<NewsCluster>)
    requires Presents(before, parts)
    ensures Presents(clusters, parts + PartsOf(sector, subs))
  {
    clusters := before;
    for i := 0 to |subs|
      invariant Presents(clusters, parts + PartsOf(sector, subs[..i]))
    {
      var kw := MergeKeywords(subs[i]);
      clusters := clusters + [NewsCluster(|clusters|, sector, subs[i], kw)];
      assert parts + PartsOf(sector, subs[..i + 1]) == parts + PartsOf(sector, subs[..i]) + [Part(sector, subs[i])];
    }
    assert subs[..|subs|] == subs;
  }

  // ----- conservation through the greedy split

  function SumBags<T>(bags: seq<multiset<T>>): multiset<T> {
    if bags == [] then multiset{} else SumBags(bags[..|bags| - 1]) + bags[|bags| - 1]
  }

  lemma {:induction false} SumBagsGrows<T>(before: seq<multiset<T>>, after: seq<multiset<T>>, k: nat, x: T)
    requires |before| == |after| && k < |before| && after[k] == before[k] + multiset{x}
    requires forall i :: 0 <= i < |before| && i != k ==> after[i] == before[i]
    ensures SumBags(after) == SumBags(before) + multiset{x}
  {
    var n := |before| - 1;
    if k < n {
      SumBagsGrows(before[..n], after[..n], k, x);
    } else {
      assert before[..n] == after[..n];
    }
  }

  lemma {:induction false} SumOfEmpty<T>(bags: seq<multiset<T>>)
    requires forall i :: 0 <= i < |bags| ==> bags[i] == multiset{}
    ensures SumBags(bags) == multiset{}
  {
    if bags != [] {
      SumOfEmpty(bags[..|bags| - 1]);
    }
  }

  /** The items of index below n that belong to a leader. */
  function Bunch(items: seq<News>, leader: nat, n: nat): multiset<News>
    requires n <= |items|
  {
    multiset(Select(items, Members(items, leader, n)))
  }

  function Bunches(items: seq<News>, leaders: seq<nat>, n: nat): (bags: seq<multiset<News>>)
    requires n <= |items|
    ensures |bags| == |leaders| && forall k :: 0 <= k < |leaders| ==> bags[k] == Bunch(items, leaders[k], n)
  {
    seq(|leaders|, k requires 0 <= k < |leaders| => Bunch(items, leaders[k], n))
  }

  lemma BunchNext(items: seq<News>, leader: nat, n: nat)
    requires n < |items|
    ensures Bunch(items, leader, n + 1)
            == if LeaderOf(items, n) == leader then Bunch(items, leader, n) + multiset{items[n]} else Bunch(items, leader, n)
  {
    var before := Members(items, leader, n);
    if LeaderOf(items, n) == leader {
      assert Select(items, before + [n]) == Select(items, before) + [items[n]];
    } else {
      assert Members(items, leader, n + 1) == before;
    }
  }

  /** The items of index below n, gathered over some leaders. */
  function Total(items: seq<News>, leaders: seq<nat>, n: nat): multiset<News>
    requires n <= |items|
  {
    SumBags(Bunches(items, leaders, n))
  }

  /** Every item below n has its leader in the list, once. */
  ghost predicate Led(items: seq<News>, leaders: seq<nat>, n: nat)
    requires n <= |items|
  {
    forall j :: 0 <= j < n ==> Once(leaders, LeaderOf(items, j))
  }

  ghost predicate Once(leaders: seq<nat>, l: nat) {
    exists k: nat :: IsOnlyPosition(leaders, l, k)
  }

  predicate IsOnlyPosition(leaders: seq<nat>, l: nat, k: nat) {
    && k < |leaders| && leaders[k] == l
    && forall i :: 0 <= i < |leaders| && i != k ==> leaders[i] != l
  }

  lemma LeadersLedBy(items: seq<News>)
    ensures Led(items, Leaders(items, |items|), |items|)
  {
    var leaders := Leaders(items, |items|);
    forall j | 0 <= j < |items| ensures Once(leaders, LeaderOf(items, j)) {
      FirstLeaderIsFirst(items, j, j);
      LeaderListed(items, |items|, LeaderOf(items, j));
      var k :| 0 <= k < |leaders| && leaders[k] == LeaderOf(items, j);
      assert IsOnlyPosition(leaders, LeaderOf(items, j), k);
    }
  }

  lemma TotalZero(items: seq<News>, leaders: seq<nat>)
    ensures Total(items, leaders, 0) == multiset{}
  {
    SumOfEmpty(Bunches(items, leaders, 0));
  }

  lemma TotalNext(items: seq<News>, leaders: seq<nat>, n: nat)
    requires n < |items| && Led(items, leaders, n + 1)
    ensures Total(items, leaders, n + 1) == Total(items, leaders, n) + multiset{items[n]}
  {
    var k: nat :| IsOnlyPosition(leaders, LeaderOf(items, n), k);
    var before, after := Bunches(items, leaders, n), Bunches(items, leaders, n + 1);
    forall i | 0 <= i < |leaders|
      ensures after[i] == if i == k then before[i] + multiset{items[n]} else before[i]
    {
      BunchNext(items, leaders[i], n);
    }
    SumBagsGrows(before, after, k, items[n]);
  }

  lemma PrefixNext<T>(items: seq<T>, n: nat)
    requires n < |items|
    ensures multiset(items[..n + 1]) == multiset(items[..n]) + multiset{items[n]}
  {
    assert items[..n + 1] == items[..n] + [items[n]];
  }

  lemma {:induction false} TotalIsPrefix(items: seq<News>, leaders: seq<nat>, n: nat)
    requires n <= |items| && Led(items, leaders, n)
    ensures Total(items, leaders, n) == multiset(items[..n])
  {
    if n == 0 {
      TotalZero(items, leaders);
    } else {
      TotalIsPrefix(items, leaders, n - 1);
      TotalNext(items, leaders, n - 1);
      PrefixNext(items, n - 1);
    }
  }

  function Bag(lists: seq<seq<News>>): multiset<News> {
    if lists == [] then multiset{} else Bag(lists[..|lists| - 1]) + multiset(lists[|lists| - 1])
  }

  lemma {:induction false} BagIsSum(lists: seq<seq<News>>, bags: seq<multiset<News>>)
    requires |lists| == |bags| && forall k :: 0 <= k < |lists| ==> bags[k] == multiset(lists[k])
    ensures Bag(lists) == SumBags(bags)
  {
    if lists != [] {
      BagIsSum(lists[..|lists| - 1], bags[..|bags| - 1]);
    }
  }

  /** The greedy split keeps every item, as often as it occurs. */
  lemma SplitConserves(items: seq<News>)
    ensures Bag(Clusters(items, |items|)) == multiset(items)
  {
    BagIsSum(Clusters(items, |items|), Bunches(items, Leaders(items, |items|), |items|));
    LeadersLedBy(items);
    TotalIsPrefix(items, Leaders(items, |items|), |items|);
    assert items[..|items|] == items;
  }

  lemma SplitGroupConserves(group: seq<News>)
    ensures Bag(SplitGroup(group)) == multiset(group)
  {
    if |group| <= 3 {
      assert [group][..0] == [];
    } else {
      SplitConserves(group);
    }
  }

  // ----- conservation through the whole clustering

  function PartBag(parts: seq<Part>): multiset<News> {
    if parts == [] then multiset{} else PartBag(parts[..|parts| - 1]) + multiset(parts[|parts| - 1].items)
  }

  lemma PartBagSnoc(parts: seq<Part>, p: Part)
    ensures PartBag(parts + [p]) == PartBag(parts) + multiset(p.items)
  {
  }

  lemma PartsOfSnoc(parts: seq<Part>, sector: string, splits: seq<seq<News>>)
    requires splits != []
    ensures parts + PartsOf(sector, splits)
            == parts + PartsOf(sector, splits[..|splits| - 1]) + [Part(sector, splits[|splits| - 1])]
  {
  }

  lemma {:induction false} PartBagOf(parts: seq<Part>, sector: string, splits: seq<seq<News>>)
    ensures PartBag(parts + PartsOf(sector, splits)) == PartBag(parts) + Bag(splits)
  {
    if splits == [] {
      assert parts + PartsOf(sector, splits) == parts;
    } else {
      var prefix, last := splits[..|splits| - 1], splits[|splits| - 1];
      PartBagOf(parts, sector, prefix);
      PartsOfSnoc(parts, sector, splits);
      PartBagSnoc(parts + PartsOf(sector, prefix), Part(sector, last));
    }
  }

  /** The news kept in each of some sectors. */
  function SectorBags(extracted: seq<News>, sectors: seq<string>): (bags: seq<multiset<News>>)
    ensures |bags| == |sectors| && forall k :: 0 <= k < |sectors| ==> bags[k] == multiset(Group(extracted, sectors[k]))
  {
    seq(|sectors|, k requires 0 <= k < |sectors| => multiset(Group(extracted, sectors[k])))
  }

  lemma SumBagsSnoc<T>(bags: seq<multiset<T>>, bag: multiset<T>)
    ensures SumBags(bags + [bag]) == SumBags(bags) + bag
  {
    assert (bags + [bag])[..|bags|] == bags;
  }

  lemma SectorBagsSnoc(extracted: seq<News>, sectors: seq<string>, sector: string)
    ensures SumBags(SectorBags(extracted, sectors + [sector]))
            == SumBags(SectorBags(extracted, sectors)) + multiset(Group(extracted, sector))
  {
    var before, bag := SectorBags(extracted, sectors), multiset(Group(extracted, sector));
    assert SectorBags(extracted, sectors + [sector]) == before + [bag];
    SumBagsSnoc(before, bag);
  }

  lemma {:induction false} PartsAreSectors(extracted: seq<News>, order: seq<string>)
    ensures PartBag(Parts(extracted, order)) == SumBags(SectorBags(extracted, order))
  {
    if order != [] {
      var prefix, sector := order[..|order| - 1], order[|order| - 1];
      assert order == prefix + [sector];
      PartsAreSectors(extracted, prefix);
      PartBagOf(Parts(extracted, prefix), sector, SplitGroup(Group(extracted, sector)));
      SplitGroupConserves(Group(extracted, sector));
      SectorBagsSnoc(extracted, prefix, sector);
    }
  }

  /** The sector a piece of news is kept in. */
  predicate KeptIn(n: News, sector: string) {
    n.importance != "low" && NormalizeSector(n.sector) == sector
  }

  lemma GroupSnoc(extracted: seq<News>, n: News, sector: string)
    ensures multiset(Group(extracted + [n], sector))
            == if KeptIn(n, sector) then multiset(Group(extracted, sector)) + multiset{n} else multiset(Group(extracted, sector))
  {
    assert (extracted + [n])[..|extracted|] == extracted;
  }

  lemma KeptOnce(extracted: seq<News>, n: News, sectors: seq<string>, k: nat)
    requires k < |sectors| && KeptIn(n, sectors[k])
    requires forall i :: 0 <= i < |sectors| && i != k ==> !KeptIn(n, sectors[i])
    ensures SumBags(SectorBags(extracted + [n], sectors)) == SumBags(SectorBags(extracted, sectors)) + multiset{n}
  {
    var before, after := SectorBags(extracted, sectors), SectorBags(extracted + [n], sectors);
    forall i | 0 <= i < |sectors| ensures after[i] == if i == k then before[i] + multiset{n} else before[i] {
      GroupSnoc(extracted, n, sectors[i]);
    }
    SumBagsGrows(before, after, k, n);
  }

  lemma KeptNowhere(extracted: seq<News>, n: News, sectors: seq<string>)
    requires n.importance == "low"
    ensures SumBags(SectorBags(extracted + [n], sectors)) == SumBags(SectorBags(extracted, sectors))
  {
    var before, after := SectorBags(extracted, sectors), SectorBags(extracted + [n], sectors);
    forall i | 0 <= i < |sectors| ensures after[i] == before[i] {
      GroupSnoc(extracted, n, sectors[i]);
    }
    assert before == after;
  }

  /** No piece of news is without its sector in the list. */
  ghost predicate Housed(extracted: seq<News>, sectors: seq<string>) {
    forall n :: n in extracted && n.importance != "low" ==> NormalizeSector(n.sector) in sectors
  }

  lemma {:induction false} SectorsHoldAll(extracted: seq<News>, sectors: seq<string>)
    requires NoRepeats(sectors) && Housed(extracted, sectors)
    ensures SumBags(SectorBags(extracted, sectors)) == multiset(Kept(extracted))
  {
    if extracted == [] {
      SumOfEmpty(SectorBags([], sectors));
    } else {
      var prefix, n := extracted[..|extracted| - 1], extracted[|extracted| - 1];
      assert extracted == prefix + [n] && n in extracted;
      assert forall x :: x in prefix ==> x in extracted;
      SectorsHoldAll(prefix, sectors);
      if n.importance == "low" {
        KeptNowhere(prefix, n, sectors);
      } else {
        var k :| 0 <= k < |sectors| && sectors[k] == NormalizeSector(n.sector);
        KeptOnce(prefix, n, sectors, k);
      }
    }
  }

  lemma {:induction false} GroupHas(extracted: seq<News>, n: News)
    requires n in extracted && n.importance != "low"
    ensures Group(extracted, NormalizeSector(n.sector)) != []
  {
    if n != extracted[|extracted| - 1] {
      assert n in extracted[..|extracted| - 1];
      GroupHas(extracted[..|extracted| - 1], n);
    }
  }

  lemma PartsConserve(extracted: seq<News>, order: seq<string>)
    requires IsSectorOrder(extracted, order)
    ensures PartBag(Parts(extracted, order)) == multiset(Kept(extracted))
  {
    PartsAreSectors(extracted, order);
    forall n | n in extracted && n.importance != "low" ensures NormalizeSector(n.sector) in order {
      GroupHas(extracted, n);
    }
    SectorsHoldAll(extracted, order);
  }

  function ClusterBag(clusters: seq<NewsCluster>): multiset<News> {
    if clusters == [] then multiset{}
    else ClusterBag(clusters[..|clusters| - 1]) + multiset(clusters[|clusters| - 1].newsItems)
  }

  lemma {:induction false} ClusterBagIsPartBag(clusters: seq<NewsCluster>, parts: seq<Part>)
    requires Presents(clusters, parts)
    ensures ClusterBag(clusters) == PartBag(parts)
  {
    if clusters != [] {
      ClusterBagIsPartBag(clusters[..|clusters| - 1], parts[..|parts| - 1]);
    }
  }

  /** Whatever order the sectors come in, the clusters hold exactly the news that is not of low
      importance, each piece as often as it was extracted. */
  lemma ClusteringConserves(extracted: seq<News>, order: seq<string>, clusters: seq<NewsCluster>)
    requires IsSectorOrder(extracted, order) && Presents(clusters, Parts(extracted, order))
    ensures ClusterBag(clusters) == multiset(Kept(extracted))
  {
    PartsConserve(extracted, order);
    ClusterBagIsPartBag(clusters, Parts(extracted, order));
  }
}
