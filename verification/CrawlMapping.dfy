/** Which relation a raw row counts for, spelled out: the topic's normalized name from the
    dictionary, the id of that name, and the stock code with its market behind. */
module CrawlMapping {
  import opened Wrappers
  import opened TopicRelations
  import opened RelationTables
  import opened Batches
  import opened Crawler
  import opened CrawlEquivalence

  /** The letters a to z are the characters 97 to 122, their capitals 32 before. */
  function Capital(c: char): char {
    if 97 <= c as int <= 122 then (c as int - 32) as char else c
  }

  /** sz002466 is 002466.SZ; codes of fewer than three characters stay as they are. */
  function Listing(code: string): string {
    if |code| < 3 then code else code[2..] + "." + [Capital(code[0]), Capital(code[1])]
  }

  /** The name a topic is filed under. */
  function FiledName(lookup: Lookup, topic: string): string {
    if topic in lookup.dict then lookup.dict[topic].normalizedName else topic
  }

  function FiledCategory(lookup: Lookup, topic: string): string {
    if topic in lookup.dict then lookup.dict[topic].category else ""
  }

  /** A topic and a listed code stand for a relation: the filed name has an id that is not 0, and
      the code is not empty. */
  predicate StandsFor(lookup: Lookup, topic: string, code: string, key: RelationKey) {
    && code != "" && key.tsCode == Listing(code)
    && FiledName(lookup, topic) in lookup.topicIDs
    && lookup.topicIDs[FiledName(lookup, topic)] == key.topicID && key.topicID != 0
  }

  lemma ListingIsConversion(code: string)
    ensures JiuyanToTushare(code) == Listing(code)
  {
    if |code| >= 3 {
      assert Upper(code[..2]) == [Capital(code[0]), Capital(code[1])];
    }
  }

  lemma StandsForIff(lookup: Lookup, topic: string, code: string, key: RelationKey)
    ensures StandsFor(lookup, topic, code, key) <==> lookup.Target(topic, code) == Some(key)
  {
    ListingIsConversion(code);
  }

  // ----- a successful crawl

  /** A day lists a topic with a code. */
  predicate Lists(data: seq<FieldData>, topic: string, code: string) {
    exists field :: field in data && field.name == topic && code in field.codes
  }

  lemma {:induction false} FieldRowsAre(date: int, name: string, codes: seq<string>, x: RawRow)
    ensures x in FieldRows(date, name, codes) <==> x.date == date && x.topicName == name && x.stockCode in codes
  {
    if codes != [] {
      FieldRowsAre(date, name, codes[..|codes| - 1], x);
      assert codes == codes[..|codes| - 1] + [codes[|codes| - 1]];
    }
  }

  lemma {:induction false} DayRowsAre(date: int, data: seq<FieldData>, x: RawRow)
    ensures x in DayRows(date, data) <==> x.date == date && Lists(data, x.topicName, x.stockCode)
  {
    if data != [] {
      var prefix, last := data[..|data| - 1], data[|data| - 1];
      DayRowsAre(date, prefix, x);
      FieldRowsAre(date, last.name, last.codes, x);
      assert forall field :: field in data <==> field in prefix || field == last;
    }
  }

  /** The names a relation row carries come from a raw row that maps to it; its source stays. */
  ghost predicate NamedBy(row: Relation, before: Table, day: seq<RawRow>, lookup: Lookup, key: RelationKey) {
    && row.Key() == key
    && row.source == (if key in before then before[key].source else "jiuyan")
    && exists x :: x in day && MapsTo(x, lookup, key)
                   && row.topicName == FiledName(lookup, x.topicName) && row.category == FiledCategory(lookup, x.topicName)
  }

  lemma NamedByMore(row: Relation, before: Table, day: seq<RawRow>, x: RawRow, lookup: Lookup, key: RelationKey)
    requires NamedBy(row, before, day, lookup, key)
    ensures NamedBy(row, before, day + [x], lookup, key)
  {
    var y :| y in day && MapsTo(y, lookup, key)
             && row.topicName == FiledName(lookup, y.topicName) && row.category == FiledCategory(lookup, y.topicName);
    assert y in day + [x];
  }

  ghost predicate SomeMapped(day: seq<RawRow>, lookup: Lookup, key: RelationKey) {
    exists x :: x in day && MapsTo(x, lookup, key)
  }

  ghost predicate SameAt(a: Table, b: Table, key: RelationKey) {
    (key in a <==> key in b) && (key in a ==> a[key] == b[key])
  }

  ghost predicate NamesHold(table: Table, after: Table, day: seq<RawRow>, lookup: Lookup, key: RelationKey) {
    if SomeMapped(day, lookup, key) then key in after && NamedBy(after[key], table, day, lookup, key)
    else SameAt(after, table, key)
  }

  lemma SomeMappedSnoc(day: seq<RawRow>, x: RawRow, lookup: Lookup, key: RelationKey)
    ensures SomeMapped(day + [x], lookup, key) <==> SomeMapped(day, lookup, key) || MapsTo(x, lookup, key)
  {
    assert forall y :: y in day + [x] <==> y in day || y == x;
  }

  lemma NamesPass(table: Table, mid: Table, after: Table, day: seq<RawRow>, x: RawRow, lookup: Lookup, key: RelationKey)
    requires NamesHold(table, mid, day, lookup, key) && SameAt(after, mid, key) && !MapsTo(x, lookup, key)
    ensures NamesHold(table, after, day + [x], lookup, key)
  {
    SomeMappedSnoc(day, x, lookup, key);
    if SomeMapped(day, lookup, key) {
      NamedByMore(mid[key], table, day, x, lookup, key);
    }
  }

  lemma NamesTake(table: Table, mid: Table, day: seq<RawRow>, x: RawRow, lookup: Lookup, key: RelationKey)
    requires NamesHold(table, mid, day, lookup, key) && MapsTo(x, lookup, key)
    requires key in table ==> table[key].Key() == key
    ensures NamesHold(table, UpsertAccumulate(mid, lookup.Row(x.topicName, key, 1, x.date, x.date)), day + [x], lookup, key)
  {
    SomeMappedSnoc(day, x, lookup, key);
    assert x in day + [x];
  }

  lemma {:induction false} DayNames(table: Table, day: seq<RawRow>, lookup: Lookup, key: RelationKey)
    requires key in table ==> table[key].Key() == key
    ensures NamesHold(table, AccumulateAll(table, DayRelations(day, lookup)), day, lookup, key)
  {
    if day != [] {
      var prefix, last := day[..|day| - 1], day[|day| - 1];
      assert day == prefix + [last];
      DayNames(table, prefix, lookup, key);
      DayRelationsSnoc(prefix, last, lookup);
      var rels := DayRelations(prefix, lookup);
      var mid := AccumulateAll(table, rels);
      match lookup.Target(last.topicName, last.stockCode)
      case None =>
        NamesPass(table, mid, mid, prefix, last, lookup, key);
      case Some(k) =>
        var r := lookup.Row(last.topicName, k, 1, last.date, last.date);
        assert (rels + [r])[..|rels|] == rels;
        if k == key {
          NamesTake(table, mid, prefix, last, lookup, key);
        } else {
          NamesPass(table, mid, UpsertAccumulate(mid, r), prefix, last, lookup, key);
        }
    }
  }

  /** A raw row of a day maps to a relation iff the day lists what stands for it. */
  ghost predicate Listed(data: seq<FieldData>, lookup: Lookup, key: RelationKey) {
    exists topic, code :: Lists(data, topic, code) && StandsFor(lookup, topic, code, key)
  }

  lemma ListedIff(day: Day, lookup: Lookup, key: RelationKey)
    ensures Listed(day.data, lookup, key) <==> SomeMapped(day.Rows(), lookup, key)
  {
    if topic, code :| Lists(day.data, topic, code) && StandsFor(lookup, topic, code, key) {
      DayRowsAre(day.date, day.data, RawRow(day.date, topic, code));
      StandsForIff(lookup, topic, code, key);
      assert MapsTo(RawRow(day.date, topic, code), lookup, key);
    }
    if x :| x in day.Rows() && MapsTo(x, lookup, key) {
      DayRowsAre(day.date, day.data, x);
      StandsForIff(lookup, x.topicName, x.stockCode, key);
    }
  }

  /** After a successful crawl the table has a row for exactly the relations it had and those the
      day lists; a listed one carries the filed name and category of a listed topic that stands
      for it, all others are as before. */
  lemma CrawlFiles(st: Store, day: Day, lookup: Lookup, key: RelationKey)
    requires CrawlOutcome(day, lookup).Success? && (key in st.table ==> st.table[key].Key() == key)
    ensures var after := CrawlDay(st, day, lookup).table;
            && (key in after <==> key in st.table || Listed(day.data, lookup, key))
            && (Listed(day.data, lookup, key) ==>
                  && after[key].Key() == key
                  && after[key].source == (if key in st.table then st.table[key].source else "jiuyan")
                  && exists topic, code :: Lists(day.data, topic, code) && StandsFor(lookup, topic, code, key)
                       && after[key].topicName == FiledName(lookup, topic) && after[key].category == FiledCategory(lookup, topic))
            && (!Listed(day.data, lookup, key) && key in st.table ==> after[key] == st.table[key])
  {
    ListedIff(day, lookup, key);
    DayNames(st.table, day.Rows(), lookup, key);
    var after := CrawlDay(st, day, lookup).table;
    if Listed(day.data, lookup, key) {
      var x :| x in day.Rows() && MapsTo(x, lookup, key)
               && after[key].topicName == FiledName(lookup, x.topicName) && after[key].category == FiledCategory(lookup, x.topicName);
      DayRowsAre(day.date, day.data, x);
      StandsForIff(lookup, x.topicName, x.stockCode, key);
      assert Lists(day.data, x.topicName, x.stockCode) && StandsFor(lookup, x.topicName, x.stockCode, key);
    }
  }

  /** Each listed code of a known topic with an id, spelled out to the letter. */
  lemma ListedCodeIsFiled(st: Store, day: Day, lookup: Lookup, field: FieldData, code: string)
    requires CrawlOutcome(day, lookup).Success? && field in day.data && code in field.codes && |code| >= 3
    requires field.name in lookup.dict && lookup.dict[field.name].normalizedName in lookup.topicIDs
    requires lookup.topicIDs[lookup.dict[field.name].normalizedName] != 0
    requires forall k :: k in st.table ==> st.table[k].Key() == k
    ensures RelationKey(code[2..] + "." + [Capital(code[0]), Capital(code[1])],
                        lookup.topicIDs[lookup.dict[field.name].normalizedName]) in CrawlDay(st, day, lookup).table
  {
    var key := RelationKey(Listing(code), lookup.topicIDs[lookup.dict[field.name].normalizedName]);
    assert Lists(day.data, field.name, code) && StandsFor(lookup, field.name, code, key);
    CrawlFiles(st, day, lookup, key);
  }

  // ----- a rebuild

  ghost predicate SavedFor(raw: set<RawRow>, lookup: Lookup, key: RelationKey) {
    exists x :: x in raw && StandsFor(lookup, x.topicName, x.stockCode, key)
  }

  /** After a rebuild the table has a row for exactly the relations it had and those some raw row
      of the range stands for; these carry the filed name and category of such a row. */
  lemma RebuildFiles(table: Table, raw: set<RawRow>, answer: seq<Aggregate>, lookup: Lookup, key: RelationKey)
    requires IsAggregation(raw, answer)
    ensures var after := Rebuilt(table, answer, lookup);
            && (key in after <==> key in table || SavedFor(raw, lookup, key))
            && (SavedFor(raw, lookup, key) ==>
                  && after[key].Key() == key && after[key].source == "jiuyan"
                  && exists x :: x in raw && StandsFor(lookup, x.topicName, x.stockCode, key)
                       && after[key].topicName == FiledName(lookup, x.topicName)
                       && after[key].category == FiledCategory(lookup, x.topicName))
            && (!SavedFor(raw, lookup, key) && key in table ==> after[key] == table[key])
  {
    var rels := RebuildRelations(answer, lookup);
    assert SavedFor(raw, lookup, key) <==> Of(raw, lookup, key) != {} by {
      if x :| x in raw && StandsFor(lookup, x.topicName, x.stockCode, key) {
        StandsForIff(lookup, x.topicName, x.stockCode, key);
        assert x in Of(raw, lookup, key);
      }
      if x :| x in Of(raw, lookup, key) {
        StandsForIff(lookup, x.topicName, x.stockCode, key);
      }
    }
    RebuildMatches(table, raw, answer, lookup, key);
    if SavedFor(raw, lookup, key) {
      RebuildNames(table, raw, answer, lookup, key);
    }
  }

  lemma RebuildNames(table: Table, raw: set<RawRow>, answer: seq<Aggregate>, lookup: Lookup, key: RelationKey)
    requires IsAggregation(raw, answer) && Of(raw, lookup, key) != {}
    ensures var after := Rebuilt(table, answer, lookup);
            && key in after && after[key].Key() == key && after[key].source == "jiuyan"
            && exists x :: x in raw && StandsFor(lookup, x.topicName, x.stockCode, key)
                 && after[key].topicName == FiledName(lookup, x.topicName)
                 && after[key].category == FiledCategory(lookup, x.topicName)
  {
    var rels := RebuildRelations(answer, lookup);
    MergedDistinct(rels);
    MergedKeys(rels, key);
    RebuildHasKey(raw, answer, lookup, key);
    ReplaceDistinct(table, Merged(rels), key);
    MergedKeepsFirst(rels, key);
    var r := rels[IndexOf(rels, key)];
    RebuildMembers(answer, lookup, r);
    var a :| a in answer && IsSource(a, r, lookup);
    var group := Group(raw, a.topicName, a.stockCode);
    assert AggregatesGroup(a, group);
    var x :| x in group && x.date == a.firstSeen;
    StandsForIff(lookup, x.topicName, x.stockCode, key);
  }
}
