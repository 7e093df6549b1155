/** Crawling day by day and rebuilding from the raw table give the same relations. Both are
    compared with one reference: for each (code, topic), the set of raw rows that map to it. */
module CrawlEquivalence {
  import opened Wrappers
  import opened TopicRelations
  import opened RelationTables
  import opened Crawler
  import opened Batches

  function Of(raw: set<RawRow>, lookup: Lookup, key: RelationKey): set<RawRow> {
    set x | x in raw && lookup.Target(x.topicName, x.stockCode) == Some(key)
  }

  /** The row counts the raw rows and spans their dates. */
  ghost predicate Counts(r: Relation, rows: set<RawRow>) {
    && r.hitCount == |rows| && r.firstSeen.Some? && r.lastSeen.Some?
    && (forall x :: x in rows ==> r.firstSeen.value <= x.date <= r.lastSeen.value)
    && (exists x :: x in rows && x.date == r.firstSeen.value)
    && (exists x :: x in rows && x.date == r.lastSeen.value)
  }

  ghost predicate MatchesAt(table: Table, raw: set<RawRow>, lookup: Lookup, key: RelationKey) {
    if key in table then Counts(table[key], Of(raw, lookup, key)) else Of(raw, lookup, key) == {}
  }

  ghost predicate Matches(table: Table, raw: set<RawRow>, lookup: Lookup) {
    forall key :: MatchesAt(table, raw, lookup, key)
  }

  /** Same keys, hit counts and seen dates. */
  ghost predicate SameStats(a: Table, b: Table) {
    forall key :: (key in a <==> key in b)
      && (key in a ==> a[key].hitCount == b[key].hitCount
                       && a[key].firstSeen == b[key].firstSeen && a[key].lastSeen == b[key].lastSeen)
  }

  lemma CountsUnique(a: Relation, b: Relation, rows: set<RawRow>)
    requires Counts(a, rows) && Counts(b, rows)
    ensures a.hitCount == b.hitCount && a.firstSeen == b.firstSeen && a.lastSeen == b.lastSeen
  {
  }

  lemma MatchesUnique(a: Table, b: Table, raw: set<RawRow>, lookup: Lookup)
    requires Matches(a, raw, lookup) && Matches(b, raw, lookup)
    ensures SameStats(a, b)
  {
    forall key
      ensures (key in a <==> key in b)
              && (key in a ==> a[key].hitCount == b[key].hitCount
                               && a[key].firstSeen == b[key].firstSeen && a[key].lastSeen == b[key].lastSeen)
    {
      assert MatchesAt(a, raw, lookup, key) && MatchesAt(b, raw, lookup, key);
      if key in a && key in b {
        CountsUnique(a[key], b[key], Of(raw, lookup, key));
      }
    }
  }

  // ----- one crawl

  predicate MapsTo(x: RawRow, lookup: Lookup, key: RelationKey) {
    lookup.Target(x.topicName, x.stockCode) == Some(key)
  }

  lemma DayRelationsSnoc(day: seq<RawRow>, x: RawRow, lookup: Lookup)
    ensures DayRelations(day + [x], lookup) ==
              match lookup.Target(x.topicName, x.stockCode)
              case None => DayRelations(day, lookup)
              case Some(key) => DayRelations(day, lookup) + [lookup.Row(x.topicName, key, 1, x.date, x.date)]
  {
  }

  /** How many raw rows of a list, repeated ones included, map to a key. */
  function Mapped(day: seq<RawRow>, lookup: Lookup, key: RelationKey): nat {
    if day == [] then 0
    else Mapped(day[..|day| - 1], lookup, key) + if MapsTo(day[|day| - 1], lookup, key) then 1 else 0
  }

  /** The row of a key after n more hits on one date. */
  ghost predicate GainedHits(before: Table, after: Table, key: RelationKey, n: nat, date: int) {
    if n == 0 then (key in after <==> key in before) && (key in before ==> after[key] == before[key])
    else
      && key in after
      && after[key].hitCount == n + (if key in before then before[key].hitCount else 0)
      && after[key].firstSeen == (if key in before then before[key].firstSeen else Some(date))
      && after[key].lastSeen == (if key in before then Later(before[key].lastSeen, Some(date)) else Some(date))
  }

  lemma GainOne(before: Table, mid: Table, key: RelationKey, n: nat, r: Relation, date: int)
    requires GainedHits(before, mid, key, n, date)
    requires r.hitCount == 1 && r.firstSeen == r.lastSeen == Some(date)
    ensures GainedHits(before, UpsertAccumulate(mid, r), key, if r.Key() == key then n + 1 else n, date)
  {
  }

  /** Accumulating the relations of one date adds the number of rows that map to the key. */
  lemma {:induction false} DayGains(table: Table, day: seq<RawRow>, lookup: Lookup, key: RelationKey, date: int)
    requires forall x :: x in day ==> x.date == date
    ensures GainedHits(table, AccumulateAll(table, DayRelations(day, lookup)), key, Mapped(day, lookup, key), date)
  {
    if day != [] {
      var prefix, last := day[..|day| - 1], day[|day| - 1];
      assert day == prefix + [last];
      DayGains(table, prefix, lookup, key, date);
      DayRelationsSnoc(prefix, last, lookup);
      var rels := DayRelations(prefix, lookup);
      match lookup.Target(last.topicName, last.stockCode)
      case None =>
      case Some(k) =>
        var r := lookup.Row(last.topicName, k, 1, last.date, last.date);
        assert (rels + [r])[..|rels|] == rels;
        GainOne(table, AccumulateAll(table, rels), key, Mapped(prefix, lookup, key), r, date);
    }
  }

  // ----- counting rows as a list and as a set

  /** No raw row that maps to the key is listed twice. */
  ghost predicate ListedOnce(day: seq<RawRow>, lookup: Lookup, key: RelationKey) {
    forall i, j :: 0 <= i < j < |day| && MapsTo(day[i], lookup, key) ==> day[i] != day[j]
  }

  lemma ListedOnceSnoc(day: seq<RawRow>, x: RawRow, lookup: Lookup, key: RelationKey)
    ensures ListedOnce(day + [x], lookup, key) <==> ListedOnce(day, lookup, key) && (MapsTo(x, lookup, key) ==> x !in day)
  {
    var all := day + [x];
    assert all[|day|] == x && forall i :: 0 <= i < |day| ==> all[i] == day[i];
  }

  lemma AddRow(rows: set<RawRow>, x: RawRow)
    ensures |rows + {x}| == |rows| + if x in rows then 0 else 1
  {
    if x in rows {
      assert rows + {x} == rows;
    }
  }

  lemma OfSnoc(day: seq<RawRow>, x: RawRow, lookup: Lookup, key: RelationKey)
    ensures Of(Elements(day + [x]), lookup, key)
            == if MapsTo(x, lookup, key) then Of(Elements(day), lookup, key) + {x} else Of(Elements(day), lookup, key)
  {
    SameSet(Of(Elements(day + [x]), lookup, key),
            if MapsTo(x, lookup, key) then Of(Elements(day), lookup, key) + {x} else Of(Elements(day), lookup, key));
  }

  /** The list counts as many rows as the set holds, or more; as many exactly when none that
      maps to the key is listed twice. */
  lemma {:induction false} MappedSize(day: seq<RawRow>, lookup: Lookup, key: RelationKey)
    ensures |Of(Elements(day), lookup, key)| <= Mapped(day, lookup, key)
    ensures |Of(Elements(day), lookup, key)| == Mapped(day, lookup, key) <==> ListedOnce(day, lookup, key)
    ensures Mapped(day, lookup, key) == 0 <==> Of(Elements(day), lookup, key) == {}
  {
    if day == [] {
      assert Of(Elements(day), lookup, key) == {};
    } else {
      var prefix, last := day[..|day| - 1], day[|day| - 1];
      assert day == prefix + [last];
      MappedSize(prefix, lookup, key);
      OfSnoc(prefix, last, lookup, key);
      AddRow(Of(Elements(prefix), lookup, key), last);
      ListedOnceSnoc(prefix, last, lookup, key);
    }
  }

  lemma OfUnion(raw: set<RawRow>, more: set<RawRow>, lookup: Lookup, key: RelationKey)
    ensures Of(raw + more, lookup, key) == Of(raw, lookup, key) + Of(more, lookup, key)
  {
    SameSet(Of(raw + more, lookup, key), Of(raw, lookup, key) + Of(more, lookup, key));
  }

  // ----- when a crawl keeps the table right

  /** What a crawl needs of one raw row it maps to a key: the row is new, and not earlier than
      the first date the table already has for the key. */
  ghost predicate Welcome(x: RawRow, st: Store, key: RelationKey) {
    && x !in st.raw
    && (key in st.table && st.table[key].firstSeen.Some? ==> st.table[key].firstSeen.value <= x.date)
  }

  ghost predicate AllWelcome(day: seq<RawRow>, st: Store, lookup: Lookup, key: RelationKey) {
    forall x :: x in day && MapsTo(x, lookup, key) ==> Welcome(x, st, key)
  }

  ghost predicate AllKnownRows(day: seq<RawRow>, st: Store, lookup: Lookup, key: RelationKey) {
    forall x :: x in day && MapsTo(x, lookup, key) ==> x in st.raw
  }

  /** A day of one date, accumulated into a table that matches its raw rows at a key. */
  lemma SuccessKeepsIff(st: Store, day: seq<RawRow>, lookup: Lookup, key: RelationKey, date: int)
    requires MatchesAt(st.table, st.raw, lookup, key) && forall x :: x in day ==> x.date == date
    ensures MatchesAt(AccumulateAll(st.table, DayRelations(day, lookup)), st.raw + Elements(day), lookup, key)
            <==> AllWelcome(day, st, lookup, key) && ListedOnce(day, lookup, key)
  {
    var before, more := Of(st.raw, lookup, key), Of(Elements(day), lookup, key);
    OfUnion(st.raw, Elements(day), lookup, key);
    UnionSize(before, more);
    assert before !! more <==> |before * more| == 0;
    MappedSize(day, lookup, key);
    DayGains(st.table, day, lookup, key, date);
    assert forall x :: x in more <==> x in day && MapsTo(x, lookup, key);
    var after := AccumulateAll(st.table, DayRelations(day, lookup));
    if Mapped(day, lookup, key) == 0 {
      assert before + more == before;
      assert AllWelcome(day, st, lookup, key);
    } else {
      var x := SomeOf(more);
      assert before !! more <==> forall y :: y in more ==> y !in st.raw;
      GainCounts(st.table, after, before, more, key, Mapped(day, lookup, key), date);
    }
  }

  /** Hits gained on one date count a set of rows of that date on top of the old ones exactly
      when the numbers add up and the date is not before the first. */
  lemma GainCounts(table: Table, after: Table, before: set<RawRow>, more: set<RawRow>, key: RelationKey, n: nat, date: int)
    requires n > 0 && more != {} && forall x :: x in more ==> x.date == date
    requires GainedHits(table, after, key, n, date)
    requires if key in table then Counts(table[key], before) else before == {}
    ensures Counts(after[key], before + more)
            <==> |before| + n == |before + more| && (key in table ==> table[key].firstSeen.value <= date)
  {
    var x := SomeOf(more);
    assert x in before + more && x.date == date;
    if key in table {
      var first :| first in before && first.date == table[key].firstSeen.value;
      var last :| last in before && last.date == table[key].lastSeen.value;
      assert first in before + more && last in before + more;
    }
  }

  lemma UnionGrows<T>(a: set<T>, b: set<T>, x: T)
    requires x in b && x !in a
    ensures |a + b| > |a|
  {
    assert a + b == a + (b - a) && x in b - a;
  }

  lemma CountsFixSize(r: Relation, a: set<RawRow>, b: set<RawRow>)
    requires Counts(r, a) && |b| > |a|
    ensures !Counts(r, b)
  {
  }

  /** A crawl that saves raw rows but no relations keeps a key right iff it saves none for it. */
  lemma FailureKeepsIff(st: Store, day: seq<RawRow>, lookup: Lookup, key: RelationKey)
    requires MatchesAt(st.table, st.raw, lookup, key)
    ensures MatchesAt(st.table, st.raw + Elements(day), lookup, key) <==> AllKnownRows(day, st, lookup, key)
  {
    var before, more := Of(st.raw, lookup, key), Of(Elements(day), lookup, key);
    OfUnion(st.raw, Elements(day), lookup, key);
    if AllKnownRows(day, st, lookup, key) {
      SameSet(before + more, before);
    } else {
      var x :| x in day && MapsTo(x, lookup, key) && x !in st.raw;
      UnionGrows(before, more, x);
      if key in st.table {
        CountsFixSize(st.table[key], before, before + more);
      }
    }
  }

  /** What a crawl must meet at a key, by the way it ends. */
  ghost predicate KeepsKey(st: Store, day: Day, lookup: Lookup, key: RelationKey) {
    match CrawlOutcome(day, lookup)
    case Failure(RawRefused) => true
    case Failure(_) => AllKnownRows(day.Rows(), st, lookup, key)
    case Success(_) => AllWelcome(day.Rows(), st, lookup, key) && ListedOnce(day.Rows(), lookup, key)
  }

  /** A crawl, however it ends, keeps the table equal to what the raw table says if and only if
      - its raw rows were refused,
      - it failed later and every mapped row was already there, or
      - it succeeded, every mapped row is new and not earlier than its relation's first date,
        and no mapped row is listed twice. */
  lemma CrawlKeepsMatchIff(st: Store, day: Day, lookup: Lookup)
    requires Matches(st.table, st.raw, lookup)
    ensures Matches(CrawlDay(st, day, lookup).table, CrawlDay(st, day, lookup).raw, lookup)
            <==> forall key :: KeepsKey(st, day, lookup, key)
  {
    var after := CrawlDay(st, day, lookup);
    DayRowsDate(day.date, day.data);
    forall key ensures MatchesAt(after.table, after.raw, lookup, key) <==> KeepsKey(st, day, lookup, key) {
      assert MatchesAt(st.table, st.raw, lookup, key);
      SuccessKeepsIff(st, day.Rows(), lookup, key, day.date);
      FailureKeepsIff(st, day.Rows(), lookup, key);
    }
  }

  // ----- a run of crawls

  ghost function CrawlRun(days: seq<Day>, lookup: Lookup): Store {
    if days == [] then Store({}, map[]) else CrawlDay(CrawlRun(days[..|days| - 1], lookup), days[|days| - 1], lookup)
  }

  ghost predicate Ascending(days: seq<Day>) {
    forall i, j :: 0 <= i < j < |days| ==> days[i].date < days[j].date
  }

  /** A day on which every topic is known, no raw row is listed twice in one statement, and no
      two raw rows map to the same (code, topic). */
  ghost predicate CleanDay(day: Day, lookup: Lookup) {
    && TopicsKnown(day.data, lookup) && NoRepeatInBatch(day.Rows())
    && DistinctKeys(DayRelations(day.Rows(), lookup))
  }

  /** A day whose crawl does no harm when it comes after all days before it. */
  ghost predicate Harmless(day: Day, lookup: Lookup) {
    match CrawlOutcome(day, lookup)
    case Failure(RawRefused) => true
    case Failure(_) => DayRelations(day.Rows(), lookup) == []
    case Success(_) => forall key :: ListedOnce(day.Rows(), lookup, key)
  }

  lemma {:induction false} FieldRowsDate(date: int, name: string, codes: seq<string>)
    ensures forall x :: x in FieldRows(date, name, codes) ==> x.date == date
  {
    if codes != [] {
      FieldRowsDate(date, name, codes[..|codes| - 1]);
    }
  }

  lemma {:induction false} DayRowsDate(date: int, data: seq<FieldData>)
    ensures forall x :: x in DayRows(date, data) ==> x.date == date
  {
    if data != [] {
      DayRowsDate(date, data[..|data| - 1]);
      FieldRowsDate(date, data[|data| - 1].name, data[|data| - 1].codes);
    }
  }

  lemma {:induction false} DayRowsTopic(date: int, data: seq<FieldData>, x: RawRow)
    requires x in DayRows(date, data)
    ensures exists field :: field in data && field.name == x.topicName
  {
    var prefix, last := data[..|data| - 1], data[|data| - 1];
    if x in DayRows(date, prefix) {
      DayRowsTopic(date, prefix, x);
      var field :| field in prefix && field.name == x.topicName;
      assert field in data;
    } else {
      FieldRowsTopic(date, last.name, last.codes);
    }
  }

  lemma {:induction false} FieldRowsTopic(date: int, name: string, codes: seq<string>)
    ensures forall x :: x in FieldRows(date, name, codes) ==> x.topicName == name
  {
    if codes != [] {
      FieldRowsTopic(date, name, codes[..|codes| - 1]);
    }
  }

  /** Every raw row was on the list of some day of the run, one that was not refused. */
  lemma {:induction false} RunSource(days: seq<Day>, lookup: Lookup, x: RawRow) returns (i: nat)
    requires x in CrawlRun(days, lookup).raw
    ensures i < |days| && x in days[i].Rows() && x.date == days[i].date
    ensures CrawlOutcome(days[i], lookup) != Failure(RawRefused)
  {
    var prefix, last := days[..|days| - 1], days[|days| - 1];
    if x in CrawlRun(prefix, lookup).raw {
      i := RunSource(prefix, lookup, x);
    } else {
      i := |days| - 1;
      DayRowsDate(last.date, last.data);
    }
  }

  lemma {:induction false} NoRelationsIff(day: seq<RawRow>, lookup: Lookup)
    ensures DayRelations(day, lookup) == [] <==> forall x, key :: x in day ==> !MapsTo(x, lookup, key)
  {
    if day != [] {
      var prefix, last := day[..|day| - 1], day[|day| - 1];
      assert day == prefix + [last];
      NoRelationsIff(prefix, lookup);
      DayRelationsSnoc(prefix, last, lookup);
      match lookup.Target(last.topicName, last.stockCode)
      case None =>
      case Some(k) =>
        assert MapsTo(last, lookup, k);
    }
  }

  ghost predicate AllBefore(raw: set<RawRow>, date: int) {
    forall x :: x in raw ==> x.date < date
  }

  lemma RunIsEarlier(days: seq<Day>, day: Day, lookup: Lookup)
    requires Ascending(days + [day])
    ensures AllBefore(CrawlRun(days, lookup).raw, day.date)
  {
    var all := days + [day];
    forall x | x in CrawlRun(days, lookup).raw ensures x.date < day.date {
      var i := RunSource(days, lookup, x);
      assert all[i] == days[i] && all[|days|] == day;
    }
  }

  lemma LaterRowsWelcome(st: Store, day: Day, lookup: Lookup, key: RelationKey)
    requires MatchesAt(st.table, st.raw, lookup, key) && AllBefore(st.raw, day.date)
    ensures AllWelcome(day.Rows(), st, lookup, key)
  {
    DayRowsDate(day.date, day.data);
  }

  lemma LaterRowsUnknown(st: Store, day: Day, lookup: Lookup)
    requires AllBefore(st.raw, day.date)
    ensures (forall key :: AllKnownRows(day.Rows(), st, lookup, key)) <==> DayRelations(day.Rows(), lookup) == []
  {
    DayRowsDate(day.date, day.data);
    NoRelationsIff(day.Rows(), lookup);
    if x, key :| x in day.Rows() && MapsTo(x, lookup, key) {
      assert !AllKnownRows(day.Rows(), st, lookup, key);
    }
  }

  lemma LaterKeepsAllIff(st: Store, day: Day, lookup: Lookup)
    requires Matches(st.table, st.raw, lookup) && AllBefore(st.raw, day.date)
    ensures (forall key :: KeepsKey(st, day, lookup, key)) <==> Harmless(day, lookup)
  {
    var outcome := CrawlOutcome(day, lookup);
    if outcome.Success? {
      forall key ensures KeepsKey(st, day, lookup, key) <==> ListedOnce(day.Rows(), lookup, key) {
        assert MatchesAt(st.table, st.raw, lookup, key);
        LaterRowsWelcome(st, day, lookup, key);
      }
    } else if outcome.error == RawRefused {
      assert forall key :: KeepsKey(st, day, lookup, key);
    } else {
      LaterRowsUnknown(st, day, lookup);
      forall key ensures KeepsKey(st, day, lookup, key) <==> AllKnownRows(day.Rows(), st, lookup, key) {
      }
    }
  }

  /** Coming after all earlier days, a crawl keeps the table right exactly when it is harmless. */
  lemma LaterDayKeepsIff(st: Store, day: Day, lookup: Lookup)
    requires Matches(st.table, st.raw, lookup) && AllBefore(st.raw, day.date)
    ensures Matches(CrawlDay(st, day, lookup).table, CrawlDay(st, day, lookup).raw, lookup) <==> Harmless(day, lookup)
  {
    CrawlKeepsMatchIff(st, day, lookup);
    LaterKeepsAllIff(st, day, lookup);
  }

  lemma EmptyMatches(lookup: Lookup)
    ensures Matches(map[], {}, lookup)
  {
    forall key ensures MatchesAt(map[], {}, lookup, key) {
      assert Of({}, lookup, key) == {};
    }
  }

  ghost predicate RunMatches(days: seq<Day>, lookup: Lookup) {
    Matches(CrawlRun(days, lookup).table, CrawlRun(days, lookup).raw, lookup)
  }

  lemma RunMatchesNext(days: seq<Day>, day: Day, lookup: Lookup)
    requires Ascending(days + [day]) && RunMatches(days, lookup)
    ensures RunMatches(days + [day], lookup) <==> Harmless(day, lookup)
  {
    assert (days + [day])[..|days|] == days;
    RunIsEarlier(days, day, lookup);
    LaterDayKeepsIff(CrawlRun(days, lookup), day, lookup);
  }

  ghost predicate MatchesThroughout(days: seq<Day>, lookup: Lookup) {
    forall n :: 0 <= n <= |days| ==> RunMatches(days[..n], lookup)
  }

  lemma ThroughoutSnoc(days: seq<Day>, day: Day, lookup: Lookup)
    ensures MatchesThroughout(days + [day], lookup) <==> MatchesThroughout(days, lookup) && RunMatches(days + [day], lookup)
  {
    assert forall n :: 0 <= n <= |days| ==> (days + [day])[..n] == days[..n];
    assert (days + [day])[..|days| + 1] == days + [day];
  }

  ghost predicate AllHarmless(days: seq<Day>, lookup: Lookup) {
    forall i :: 0 <= i < |days| ==> Harmless(days[i], lookup)
  }

  lemma AllHarmlessSnoc(days: seq<Day>, day: Day, lookup: Lookup)
    ensures AllHarmless(days + [day], lookup) <==> AllHarmless(days, lookup) && Harmless(day, lookup)
  {
    assert (days + [day])[|days|] == day && forall i :: 0 <= i < |days| ==> (days + [day])[i] == days[i];
  }

  /** Crawls in ascending order, however each ends, keep the table equal to what the raw table
      says all along if and only if every day is harmless. */
  lemma {:induction false} AscendingCrawlsIff(days: seq<Day>, lookup: Lookup)
    requires Ascending(days)
    ensures MatchesThroughout(days, lookup) <==> AllHarmless(days, lookup)
  {
    if days == [] {
      EmptyMatches(lookup);
      assert RunMatches([], lookup);
    } else {
      var prefix, last := days[..|days| - 1], days[|days| - 1];
      assert days == prefix + [last];
      assert prefix[..|prefix|] == prefix;
      AscendingCrawlsIff(prefix, lookup);
      ThroughoutSnoc(prefix, last, lookup);
      AllHarmlessSnoc(prefix, last, lookup);
      if RunMatches(prefix, lookup) {
        RunMatchesNext(prefix, last, lookup);
      }
    }
  }

  lemma CrawlRunMatches(days: seq<Day>, lookup: Lookup)
    requires Ascending(days) && AllHarmless(days, lookup)
    ensures Matches(CrawlRun(days, lookup).table, CrawlRun(days, lookup).raw, lookup)
  {
    AscendingCrawlsIff(days, lookup);
    assert days[..|days|] == days;
    assert RunMatches(days, lookup);
  }

  // ----- clean days

  lemma DistinctPrefix(rows: seq<Relation>, r: Relation)
    requires DistinctKeys(rows + [r])
    ensures DistinctKeys(rows) && !HasKey(rows, r.Key())
  {
    var all := rows + [r];
    assert forall i :: 0 <= i < |rows| ==> all[i] == rows[i];
    assert all[|rows|] == r;
  }

  lemma {:induction false} MappedHasKey(day: seq<RawRow>, lookup: Lookup, key: RelationKey, x: RawRow)
    requires x in day && MapsTo(x, lookup, key)
    ensures HasKey(DayRelations(day, lookup), key)
  {
    var prefix, last := day[..|day| - 1], day[|day| - 1];
    assert day == prefix + [last];
    DayRelationsSnoc(prefix, last, lookup);
    if x in prefix {
      MappedHasKey(prefix, lookup, key, x);
    }
    match lookup.Target(last.topicName, last.stockCode)
    case None =>
    case Some(k) =>
      HasKeySnoc(DayRelations(prefix, lookup), lookup.Row(last.topicName, k, 1, last.date, last.date), key);
  }

  lemma {:induction false} DistinctListedOnce(day: seq<RawRow>, lookup: Lookup, key: RelationKey)
    requires DistinctKeys(DayRelations(day, lookup))
    ensures ListedOnce(day, lookup, key)
  {
    if day != [] {
      var prefix, last := day[..|day| - 1], day[|day| - 1];
      assert day == prefix + [last];
      DayRelationsSnoc(prefix, last, lookup);
      ListedOnceSnoc(prefix, last, lookup, key);
      match lookup.Target(last.topicName, last.stockCode)
      case None =>
        DistinctListedOnce(prefix, lookup, key);
      case Some(k) =>
        DistinctPrefix(DayRelations(prefix, lookup), lookup.Row(last.topicName, k, 1, last.date, last.date));
        DistinctListedOnce(prefix, lookup, key);
        if MapsTo(last, lookup, key) && last in prefix {
          MappedHasKey(prefix, lookup, key, last);
        }
    }
  }

  /** The crawl of a clean day always succeeds, and does no harm. */
  lemma CleanDaySucceeds(day: Day, lookup: Lookup)
    requires CleanDay(day, lookup)
    ensures CrawlOutcome(day, lookup) == Success(()) && Harmless(day, lookup)
  {
    forall key ensures ListedOnce(day.Rows(), lookup, key) {
      DistinctListedOnce(day.Rows(), lookup, key);
    }
  }

  // ----- a rebuild

  function Covered(raw: set<RawRow>, answer: seq<Aggregate>, lookup: Lookup, key: RelationKey): set<RawRow> {
    if answer == [] then {}
    else
      var a := answer[|answer| - 1];
      Covered(raw, answer[..|answer| - 1], lookup, key)
      + if lookup.Target(a.topicName, a.stockCode) == Some(key) then Group(raw, a.topicName, a.stockCode) else {}
  }

  lemma {:induction false} CoveredMembers(raw: set<RawRow>, answer: seq<Aggregate>, lookup: Lookup, key: RelationKey)
    ensures forall x :: x in Covered(raw, answer, lookup, key) <==>
              x in Of(raw, lookup, key) && HasGroup(answer, x)
  {
    if answer != [] {
      var n := |answer| - 1;
      CoveredMembers(raw, answer[..n], lookup, key);
      forall x: RawRow
        ensures HasGroup(answer, x)
                <==> HasGroup(answer[..n], x) || (answer[n].topicName == x.topicName && answer[n].stockCode == x.stockCode)
      {
        assert forall i :: 0 <= i < n ==> answer[..n][i] == answer[i];
      }
    }
  }

  function RowOf(a: Aggregate, lookup: Lookup): Relation
    requires lookup.Target(a.topicName, a.stockCode).Some?
  {
    lookup.Row(a.topicName, lookup.Target(a.topicName, a.stockCode).value, a.hitCount, a.firstSeen, a.lastSeen)
  }

  lemma RebuildSnoc(answer: seq<Aggregate>, a: Aggregate, lookup: Lookup)
    ensures RebuildRelations(answer + [a], lookup) ==
              if lookup.Target(a.topicName, a.stockCode).Some?
              then RebuildRelations(answer, lookup) + [RowOf(a, lookup)] else RebuildRelations(answer, lookup)
  {
  }

  lemma HitsSnoc(rows: seq<Relation>, r: Relation, key: RelationKey)
    ensures HitsOf(rows + [r], key) == HitsOf(rows, key) + if r.Key() == key then r.hitCount else 0
  {
  }

  lemma CoveredSize(raw: set<RawRow>, answer: seq<Aggregate>, a: Aggregate, lookup: Lookup, key: RelationKey)
    requires GroupsCounted(raw, answer + [a]) && lookup.Target(a.topicName, a.stockCode) == Some(key)
    ensures |Covered(raw, answer + [a], lookup, key)| == |Covered(raw, answer, lookup, key)| + a.hitCount
  {
    var all := answer + [a];
    assert all[..|answer|] == answer && all[|answer|] == a;
    assert forall i :: 0 <= i < |answer| ==> all[i] == answer[i];
    var covered, group := Covered(raw, answer, lookup, key), Group(raw, a.topicName, a.stockCode);
    CoveredMembers(raw, answer, lookup, key);
    assert covered !! group;
    assert |covered + group| == |covered| + |group|;
  }

  lemma GroupsCountedPrefix(raw: set<RawRow>, answer: seq<Aggregate>, a: Aggregate)
    requires GroupsCounted(raw, answer + [a])
    ensures GroupsCounted(raw, answer)
  {
    assert forall i :: 0 <= i < |answer| ==> (answer + [a])[i] == answer[i];
  }

  lemma {:induction false} RebuildHits(raw: set<RawRow>, answer: seq<Aggregate>, lookup: Lookup, key: RelationKey)
    requires GroupsCounted(raw, answer)
    ensures HitsOf(RebuildRelations(answer, lookup), key) == |Covered(raw, answer, lookup, key)|
  {
    if answer != [] {
      var n := |answer| - 1;
      var prefix, a := answer[..n], answer[n];
      assert answer == prefix + [a];
      GroupsCountedPrefix(raw, prefix, a);
      RebuildHits(raw, prefix, lookup, key);
      RebuildSnoc(prefix, a, lookup);
      if lookup.Target(a.topicName, a.stockCode).Some? {
        HitsSnoc(RebuildRelations(prefix, lookup), RowOf(a, lookup), key);
        if lookup.Target(a.topicName, a.stockCode) == Some(key) {
          CoveredSize(raw, prefix, a, lookup, key);
        }
      }
    }
  }

  ghost predicate IsSource(a: Aggregate, r: Relation, lookup: Lookup) {
    lookup.Target(a.topicName, a.stockCode).Some? && r == RowOf(a, lookup)
  }

  /** The rebuild relations are exactly the rows of the mapped aggregates. */
  lemma {:induction false} RebuildMembers(answer: seq<Aggregate>, lookup: Lookup, r: Relation)
    ensures r in RebuildRelations(answer, lookup) <==> exists a :: a in answer && IsSource(a, r, lookup)
  {
    if answer != [] {
      var prefix, last := answer[..|answer| - 1], answer[|answer| - 1];
      assert answer == prefix + [last];
      RebuildMembers(prefix, lookup, r);
      RebuildSnoc(prefix, last, lookup);
      assert forall a :: a in answer <==> a in prefix || a == last;
      assert (exists a :: a in answer && IsSource(a, r, lookup))
             <==> (exists a :: a in prefix && IsSource(a, r, lookup)) || IsSource(last, r, lookup);
      assert r in RebuildRelations(answer, lookup) <==> r in RebuildRelations(prefix, lookup) || IsSource(last, r, lookup);
    }
  }

  /** Both dates of a rebuild relation are dates of raw rows of its key. */
  lemma SourceRow(raw: set<RawRow>, answer: seq<Aggregate>, lookup: Lookup, key: RelationKey, r: Relation)
    requires IsAggregation(raw, answer) && r in RebuildRelations(answer, lookup) && r.Key() == key
    ensures r.firstSeen.Some? && r.lastSeen.Some?
    ensures exists x :: x in Of(raw, lookup, key) && x.date == r.firstSeen.value
    ensures exists x :: x in Of(raw, lookup, key) && x.date == r.lastSeen.value
  {
    RebuildMembers(answer, lookup, r);
    var a :| a in answer && IsSource(a, r, lookup);
    var group := Group(raw, a.topicName, a.stockCode);
    assert AggregatesGroup(a, group);
    var x :| x in group && x.date == a.firstSeen;
    var y :| y in group && y.date == a.lastSeen;
    assert x in Of(raw, lookup, key) && y in Of(raw, lookup, key);
  }

  lemma GroupOf(raw: set<RawRow>, answer: seq<Aggregate>, x: RawRow) returns (i: nat)
    requires IsAggregation(raw, answer) && x in raw
    ensures i < |answer| && answer[i].topicName == x.topicName && answer[i].stockCode == x.stockCode
    ensures answer[i].firstSeen <= x.date <= answer[i].lastSeen
  {
    assert HasGroup(answer, x);
    i :| 0 <= i < |answer| && answer[i].topicName == x.topicName && answer[i].stockCode == x.stockCode;
    assert x in Group(raw, answer[i].topicName, answer[i].stockCode);
  }

  /** Every raw row of a key lies within the dates of some rebuild relation of the key. */
  lemma SpanningRow(raw: set<RawRow>, answer: seq<Aggregate>, lookup: Lookup, key: RelationKey, x: RawRow) returns (j: nat)
    requires IsAggregation(raw, answer) && x in Of(raw, lookup, key)
    ensures var rels := RebuildRelations(answer, lookup);
            j < |rels| && rels[j].Key() == key && rels[j].firstSeen.Some? && rels[j].lastSeen.Some?
            && rels[j].firstSeen.value <= x.date <= rels[j].lastSeen.value
  {
    var i := GroupOf(raw, answer, x);
    var r := RowOf(answer[i], lookup);
    RebuildMembers(answer, lookup, r);
    assert answer[i] in answer && IsSource(answer[i], r, lookup);
    j :| 0 <= j < |RebuildRelations(answer, lookup)| && RebuildRelations(answer, lookup)[j] == r;
  }

  lemma RebuildHasKey(raw: set<RawRow>, answer: seq<Aggregate>, lookup: Lookup, key: RelationKey)
    requires IsAggregation(raw, answer)
    ensures HasKey(RebuildRelations(answer, lookup), key) <==> Of(raw, lookup, key) != {}
  {
    var rels := RebuildRelations(answer, lookup);
    if j :| 0 <= j < |rels| && rels[j].Key() == key {
      SourceRow(raw, answer, lookup, key, rels[j]);
    }
    if x :| x in Of(raw, lookup, key) {
      var j := SpanningRow(raw, answer, lookup, key, x);
    }
  }

  lemma RebuildCount(raw: set<RawRow>, answer: seq<Aggregate>, lookup: Lookup, key: RelationKey)
    requires IsAggregation(raw, answer)
    ensures HitsOf(RebuildRelations(answer, lookup), key) == |Of(raw, lookup, key)|
  {
    RebuildHits(raw, answer, lookup, key);
    CoveredMembers(raw, answer, lookup, key);
    SameSet(Covered(raw, answer, lookup, key), Of(raw, lookup, key));
  }

  /** The row's dates lie on both sides of every raw row of its key. */
  lemma RebuildSpans(raw: set<RawRow>, answer: seq<Aggregate>, lookup: Lookup, key: RelationKey, row: Relation)
    requires IsAggregation(raw, answer) && Summarises(row, RebuildRelations(answer, lookup), key)
    ensures forall x :: x in Of(raw, lookup, key) ==>
              && row.firstSeen.Some? && row.lastSeen.Some?
              && row.firstSeen.value <= x.date <= row.lastSeen.value
  {
    forall x | x in Of(raw, lookup, key)
      ensures row.firstSeen.Some? && row.lastSeen.Some? && row.firstSeen.value <= x.date <= row.lastSeen.value
    {
      var j := SpanningRow(raw, answer, lookup, key, x);
    }
  }

  /** The row's dates are dates of raw rows of its key. */
  lemma RebuildTouches(raw: set<RawRow>, answer: seq<Aggregate>, lookup: Lookup, key: RelationKey, row: Relation)
    requires IsAggregation(raw, answer) && Summarises(row, RebuildRelations(answer, lookup), key)
    ensures row.firstSeen.Some? ==> exists x :: x in Of(raw, lookup, key) && x.date == row.firstSeen.value
    ensures row.lastSeen.Some? ==> exists x :: x in Of(raw, lookup, key) && x.date == row.lastSeen.value
  {
    var rels := RebuildRelations(answer, lookup);
    if row.firstSeen.Some? {
      var f :| 0 <= f < |rels| && rels[f].Key() == key && rels[f].firstSeen == row.firstSeen;
      SourceRow(raw, answer, lookup, key, rels[f]);
    }
    if row.lastSeen.Some? {
      var l :| 0 <= l < |rels| && rels[l].Key() == key && rels[l].lastSeen == row.lastSeen;
      SourceRow(raw, answer, lookup, key, rels[l]);
    }
  }

  lemma RebuildRow(raw: set<RawRow>, answer: seq<Aggregate>, lookup: Lookup, key: RelationKey, row: Relation)
    requires IsAggregation(raw, answer) && Summarises(row, RebuildRelations(answer, lookup), key)
    requires HasKey(RebuildRelations(answer, lookup), key)
    ensures Counts(row, Of(raw, lookup, key))
  {
    RebuildHasKey(raw, answer, lookup, key);
    RebuildCount(raw, answer, lookup, key);
    RebuildSpans(raw, answer, lookup, key, row);
    RebuildTouches(raw, answer, lookup, key, row);
    var x := SomeOf(Of(raw, lookup, key));
  }

  /** A rebuild over any table, for any order of the aggregate query's answer: relations with
      raw rows in the range count exactly those, all others keep their row. */
  lemma RebuildMatches(table: Table, raw: set<RawRow>, answer: seq<Aggregate>, lookup: Lookup, key: RelationKey)
    requires IsAggregation(raw, answer)
    ensures var after := Rebuilt(table, answer, lookup);
            if Of(raw, lookup, key) != {} then key in after && Counts(after[key], Of(raw, lookup, key))
            else (key in after <==> key in table) && (key in table ==> after[key] == table[key])
  {
    var rels := RebuildRelations(answer, lookup);
    MergedDistinct(rels);
    MergedRow(rels, key);
    ReplaceDistinct(table, Merged(rels), key);
    RebuildHasKey(raw, answer, lookup, key);
    if HasKey(rels, key) {
      RebuildRow(raw, answer, lookup, key, Merged(rels)[IndexOf(Merged(rels), key)]);
    } else if IndexOf(Merged(rels), key) < |Merged(rels)| {
      assert HasKey(Merged(rels), key);
    }
  }

  /** If no crawl of a run missed a topic, the rebuild over its raw rows does not either. */
  lemma RunTopicsKnown(days: seq<Day>, lookup: Lookup, answer: seq<Aggregate>)
    requires forall i :: 0 <= i < |days| ==> CrawlOutcome(days[i], lookup) in {Success(()), Failure(RawRefused)}
    requires IsAggregation(CrawlRun(days, lookup).raw, answer)
    ensures AllKnown(answer, lookup)
  {
    forall a | a in answer ensures a.topicName in lookup.dict {
      var group := Group(CrawlRun(days, lookup).raw, a.topicName, a.stockCode);
      assert AggregatesGroup(a, group);
      var x :| x in group && x.date == a.firstSeen;
      var i := RunSource(days, lookup, x);
      DayRowsTopic(days[i].date, days[i].data, x);
    }
  }

  /** Crawling in ascending order from nothing, with crawls that succeed or are refused at once
      and list no mapped row twice, leaves the same hit counts, first dates and last dates as
      one rebuild of an empty table over the whole range, and that rebuild misses no topic. */
  lemma IncrementalEqualsRebuild(days: seq<Day>, lookup: Lookup, start: int, end: int, answer: seq<Aggregate>)
    requires Ascending(days) && AllHarmless(days, lookup)
    requires forall i :: 0 <= i < |days| ==> CrawlOutcome(days[i], lookup) in {Success(()), Failure(RawRefused)}
    requires forall i :: 0 <= i < |days| ==> start <= days[i].date <= end
    requires IsAggregation(InRange(CrawlRun(days, lookup).raw, start, end), answer)
    ensures AllKnown(answer, lookup)
    ensures SameStats(CrawlRun(days, lookup).table, Rebuilt(map[], answer, lookup))
  {
    var st := CrawlRun(days, lookup);
    CrawlRunMatches(days, lookup);
    forall x | x in st.raw ensures start <= x.date <= end {
      var i := RunSource(days, lookup, x);
    }
    SameSet(InRange(st.raw, start, end), st.raw);
    RunTopicsKnown(days, lookup, answer);
    var rebuilt := Rebuilt(map[], answer, lookup);
    forall key ensures MatchesAt(rebuilt, st.raw, lookup, key) {
      RebuildMatches(map[], st.raw, answer, lookup, key);
    }
    MatchesUnique(st.table, rebuilt, st.raw, lookup);
  }

  /** Clean days crawled once each, in ascending order: every crawl succeeds, and the table is
      the one a rebuild gives. */
  lemma CleanCrawlsEqualRebuild(days: seq<Day>, lookup: Lookup, start: int, end: int, answer: seq<Aggregate>)
    requires Ascending(days) && forall i :: 0 <= i < |days| ==> CleanDay(days[i], lookup)
    requires forall i :: 0 <= i < |days| ==> start <= days[i].date <= end
    requires IsAggregation(InRange(CrawlRun(days, lookup).raw, start, end), answer)
    ensures forall i :: 0 <= i < |days| ==> CrawlOutcome(days[i], lookup) == Success(())
    ensures AllKnown(answer, lookup)
    ensures SameStats(CrawlRun(days, lookup).table, Rebuilt(map[], answer, lookup))
  {
    forall i | 0 <= i < |days| ensures CrawlOutcome(days[i], lookup) == Success(()) && Harmless(days[i], lookup) {
      CleanDaySucceeds(days[i], lookup);
    }
    IncrementalEqualsRebuild(days, lookup, start, end, answer);
  }

  /** A second rebuild of the same range changes no count and no date, even if the query
      answers in another order; with the same answer it changes nothing at all. */
  lemma RebuildIdempotent(table: Table, raw: set<RawRow>, answer: seq<Aggregate>, again: seq<Aggregate>, lookup: Lookup)
    requires IsAggregation(raw, answer) && IsAggregation(raw, again)
    ensures SameStats(Rebuilt(Rebuilt(table, answer, lookup), again, lookup), Rebuilt(table, answer, lookup))
    ensures Rebuilt(Rebuilt(table, answer, lookup), answer, lookup) == Rebuilt(table, answer, lookup)
  {
    var once := Rebuilt(table, answer, lookup);
    var twice := Rebuilt(once, again, lookup);
    forall key
      ensures (key in twice <==> key in once)
              && (key in once ==> twice[key].hitCount == once[key].hitCount
                                  && twice[key].firstSeen == once[key].firstSeen && twice[key].lastSeen == once[key].lastSeen)
    {
      RebuildMatches(table, raw, answer, lookup, key);
      RebuildMatches(once, raw, again, lookup, key);
      if Of(raw, lookup, key) != {} {
        CountsUnique(once[key], twice[key], Of(raw, lookup, key));
      }
    }
    var rows, same := Merged(RebuildRelations(answer, lookup)), Rebuilt(once, answer, lookup);
    MergedDistinct(RebuildRelations(answer, lookup));
    forall key ensures (key in same <==> key in once) && (key in once ==> same[key] == once[key]) {
      ReplaceDistinct(table, rows, key);
      ReplaceDistinct(once, rows, key);
    }
    SameMap(same, once);
  }
}
