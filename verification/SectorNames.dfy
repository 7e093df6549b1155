/** What clustering by sector returns, in terms of the sector texts and the news themselves. */
module SectorNames {
  import opened Wrappers
  import opened Cluster
  import opened SectorClusters

  // ----- sector names

  predicate Blank(s: string) {
    forall i :: 0 <= i < |s| ==> IsSpace(s[i])
  }

  predicate EndsWith(s: string, suffix: string) {
    |suffix| <= |s| && s[|s| - |suffix|..] == suffix
  }

  /** Neither the first nor the last character is white space. */
  predicate Tight(s: string) {
    s != "" ==> !IsSpace(s[0]) && !IsSpace(s[|s| - 1])
  }

  /** Blank, tab, line ends, no-break and full-width space count; letters, digits, signs and
      Chinese characters do not. */
  lemma SpacesAre(c: char)
    ensures c in " \t\n\r\U{00A0}\U{3000}" ==> IsSpace(c)
    ensures '!' <= c <= '~' || '\U{4E00}' <= c <= '\U{9FFF}' ==> !IsSpace(c)
  {
  }

  lemma {:induction false} TrimsLeft(left: string, s: string)
    requires Blank(left) && (s != "" ==> !IsSpace(s[0]))
    ensures TrimLeft(left + s) == s
  {
    if left == "" {
      assert left + s == s;
    } else {
      assert (left + s)[1..] == left[1..] + s;
      TrimsLeft(left[1..], s);
    }
  }

  lemma {:induction false} TrimsRight(s: string, right: string)
    requires Blank(right) && (s != "" ==> !IsSpace(s[|s| - 1]))
    ensures TrimRight(s + right) == s
  {
    if right == "" {
      assert s + right == s;
    } else {
      assert (s + right)[..|s + right| - 1] == s + right[..|right| - 1];
      TrimsRight(s, right[..|right| - 1]);
    }
  }

  lemma TrimsSpace(left: string, s: string, right: string)
    requires Blank(left) && Blank(right) && Tight(s)
    ensures TrimRight(TrimLeft(left + s + right)) == s
  {
    if s == "" {
      assert left + s + right == left + right + "" && Blank(left + right);
      TrimsLeft(left + right, "");
      assert TrimRight("") == "";
    } else {
      assert left + s + right == left + (s + right);
      TrimsLeft(left, s + right);
      TrimsRight(s, right);
    }
  }

  lemma TrimsSuffix(s: string, suffix: string)
    ensures TrimSuffix(s + suffix, suffix) == s
    ensures !EndsWith(s, suffix) ==> TrimSuffix(s, suffix) == s
  {
    assert (s + suffix)[|s|..] == suffix && (s + suffix)[..|s|] == s;
  }

  /** The name of a sector: the text without outer white space, without one "概念" at the end
      and then without one "板块". */
  lemma SectorName(left: string, core: string, suffix: string, right: string)
    requires Blank(left) && Blank(right) && Tight(core + suffix)
    requires suffix in {"", "概念", "板块", "板块概念"}
    requires suffix in {"", "概念"} ==> !EndsWith(core, "板块")
    requires suffix == "" ==> !EndsWith(core, "概念")
    ensures NormalizeSector(left + core + suffix + right) == core
  {
    assert left + core + suffix + right == left + (core + suffix) + right;
    TrimsSpace(left, core + suffix, right);
    if suffix == "板块概念" {
      assert core + suffix == core + "板块" + "概念";
      TrimsSuffix(core + "板块", "概念");
    } else if suffix == "板块" {
      assert (core + suffix)[|core|..] == "板块";
      TrimsSuffix(core + suffix, "概念");
    } else if suffix == "概念" {
      TrimsSuffix(core, "概念");
    } else {
      assert core + suffix == core;
      TrimsSuffix(core, "概念");
    }
    TrimsSuffix(core, "板块");
  }

  // ----- the clusters of a sector

  /** The news lists of the clusters of a sector, in order. */
  function OfSector(clusters: seq<NewsCluster>, sector: string): seq<seq<News>> {
    if clusters == [] then []
    else
      var c := clusters[|clusters| - 1];
      OfSector(clusters[..|clusters| - 1], sector) + if c.primarySector == sector then [c.newsItems] else []
  }

  function ListsOf(parts: seq<Part>, sector: string): seq<seq<News>> {
    if parts == [] then []
    else
      var p := parts[|parts| - 1];
      ListsOf(parts[..|parts| - 1], sector) + if p.sector == sector then [p.items] else []
  }

  lemma {:induction false} PresentedLists(clusters: seq<NewsCluster>, parts: seq<Part>, sector: string)
    requires Presents(clusters, parts)
    ensures OfSector(clusters, sector) == ListsOf(parts, sector)
  {
    if clusters != [] {
      PresentedLists(clusters[..|clusters| - 1], parts[..|parts| - 1], sector);
    }
  }

  lemma ListsSnoc(parts: seq<Part>, p: Part, sector: string)
    ensures ListsOf(parts + [p], sector) == ListsOf(parts, sector) + if p.sector == sector then [p.items] else []
  {
  }

  lemma {:induction false} ListsWith(parts: seq<Part>, of: string, splits: seq<seq<News>>, sector: string)
    ensures ListsOf(parts + PartsOf(of, splits), sector) == ListsOf(parts, sector) + if of == sector then splits else []
  {
    if splits == [] {
      assert parts + PartsOf(of, splits) == parts;
    } else {
      var prefix, last := splits[..|splits| - 1], splits[|splits| - 1];
      ListsWith(parts, of, prefix, sector);
      PartsOfSnoc(parts, of, splits);
      ListsSnoc(parts + PartsOf(of, prefix), Part(of, last), sector);
      assert prefix + [last] == splits;
    }
  }

  lemma LastSector(order: seq<string>, sector: string)
    requires order != [] && NoRepeats(order)
    ensures var prefix, last := order[..|order| - 1], order[|order| - 1];
            NoRepeats(prefix) && last !in prefix && (sector in order <==> sector in prefix || sector == last)
  {
    assert order == order[..|order| - 1] + [order[|order| - 1]];
  }

  lemma {:induction false} ListsOfParts(extracted: seq<News>, order: seq<string>, sector: string)
    requires NoRepeats(order)
    ensures ListsOf(Parts(extracted, order), sector)
            == if sector in order then SplitGroup(Group(extracted, sector)) else []
  {
    if order != [] {
      var prefix, last := order[..|order| - 1], order[|order| - 1];
      LastSector(order, sector);
      ListsOfParts(extracted, prefix, sector);
      ListsWith(Parts(extracted, prefix), last, SplitGroup(Group(extracted, last)), sector);
    }
  }

  /** Up to three kept news of a sector stay together in one cluster; more than three are split
      by keywords; a sector without kept news has no cluster. */
  lemma SectorIsWholeOrSplit(extracted: seq<News>, order: seq<string>, clusters: seq<NewsCluster>, sector: string)
    requires IsSectorOrder(extracted, order) && Presents(clusters, Parts(extracted, order))
    ensures var group, lists := Group(extracted, sector), OfSector(clusters, sector);
            && (group == [] ==> lists == [])
            && (1 <= |group| <= 3 ==> lists == [group])
            && (|group| > 3 ==>
                  && |lists| == |Leaders(group, |group|)|
                  && forall k :: 0 <= k < |lists| ==> lists[k] == Select(group, Members(group, Leaders(group, |group|)[k], |group|)))
  {
    PresentedLists(clusters, Parts(extracted, order), sector);
    ListsOfParts(extracted, order, sector);
  }

  /** The kept news of a sector: what is not of low importance and whose text names the sector. */
  lemma {:induction false} GroupIff(extracted: seq<News>, sector: string, n: News)
    ensures n in Group(extracted, sector) <==> n in extracted && n.importance != "low" && NormalizeSector(n.sector) == sector
    ensures n in Kept(extracted) <==> n in extracted && n.importance != "low"
  {
    if extracted != [] {
      GroupIff(extracted[..|extracted| - 1], sector, n);
      assert extracted == extracted[..|extracted| - 1] + [extracted[|extracted| - 1]];
    }
  }

  /** What is kept is kept as often as it was extracted, and a word counts as often as it is listed. */
  lemma {:induction false} KeptAsOften(extracted: seq<News>, n: News)
    ensures multiset(Kept(extracted))[n] == if n.importance == "low" then 0 else multiset(extracted)[n]
  {
    if extracted != [] {
      KeptAsOften(extracted[..|extracted| - 1], n);
      assert extracted == extracted[..|extracted| - 1] + [extracted[|extracted| - 1]];
    }
  }

  lemma {:induction false} OccurrencesAre(words: seq<string>, k: string)
    ensures Occurrences(words, k) == multiset(words)[k]
  {
    if words != [] {
      OccurrencesAre(words[..|words| - 1], k);
      assert words == words[..|words| - 1] + [words[|words| - 1]];
    }
  }
}
