/** Daily crawls and range rebuilds (internal/service/crawler/crawler.go) over the raw table
    (dal/dao/jiuyan_raw_data_dao.go). A crawl saves the raw rows of a day and accumulates
    their relations; a rebuild aggregates the raw table, merges and replaces.

    CrawlEquivalence proves when the two give the same relation table. */
module Crawler {
  import opened Wrappers
  import opened TopicRelations
  import opened RelationTables
  import opened Batches

  /** The unique key of the raw table; the other raw columns play no part. */
  datatype RawRow = RawRow(date: int, topicName: string, stockCode: string)

  datatype FieldData = FieldData(name: string, codes: seq<string>)

  datatype DictEntry = DictEntry(normalizedName: string, category: string)

  /** Code conversion works on ASCII letters. */
  function ToUpper(c: char): char {
    if 'a' <= c <= 'z' then (c as int - 32) as char else c
  }

  function Upper(s: string): string {
    seq(|s|, i requires 0 <= i < |s| => ToUpper(s[i]))
  }

  /** sz002445 becomes 002445.SZ. */
  function JiuyanToTushare(code: string): string {
    if |code| < 3 then code else code[2..] + "." + Upper(code[..2])
  }

  /** The topic dictionary and the ids of the topics it normalizes to. */
  datatype Lookup = Lookup(dict: map<string, DictEntry>, topicIDs: map<string, int>) {
    function Normalized(topicName: string): string {
      if topicName in dict then dict[topicName].normalizedName else topicName
    }

    function Category(topicName: string): string {
      if topicName in dict then dict[topicName].category else ""
    }

    function TopicID(topicName: string): int {
      var name := Normalized(topicName);
      if name in topicIDs then topicIDs[name] else 0
    }

    /** The relation a raw row counts for; rows of unknown topics and empty codes are skipped. */
    function Target(topicName: string, stockCode: string): Option<RelationKey> {
      var tsCode := JiuyanToTushare(stockCode);
      if TopicID(topicName) == 0 || tsCode == "" then None else Some(RelationKey(tsCode, TopicID(topicName)))
    }

    function Row(topicName: string, key: RelationKey, hits: int, first: int, last: int): Relation {
      Relation(key.tsCode, key.topicID, Normalized(topicName), Category(topicName), "jiuyan", hits, Some(first), Some(last))
    }
  }

  // ----- one day

  function FieldRows(date: int, name: string, codes: seq<string>): seq<RawRow> {
    if codes == [] then []
    else FieldRows(date, name, codes[..|codes| - 1]) + [RawRow(date, name, codes[|codes| - 1])]
  }

  function DayRows(date: int, data: seq<FieldData>): seq<RawRow> {
    if data == [] then []
    else DayRows(date, data[..|data| - 1]) + FieldRows(date, data[|data| - 1].name, data[|data| - 1].codes)
  }

  function DayRelations(rows: seq<RawRow>, lookup: Lookup): seq<Relation> {
    if rows == [] then []
    else
      var x := rows[|rows| - 1];
      DayRelations(rows[..|rows| - 1], lookup)
      + match lookup.Target(x.topicName, x.stockCode)
        case None => []
        case Some(key) => [lookup.Row(x.topicName, key, 1, x.date, x.date)]
  }

  lemma {:induction false} DayRelationsConcat(a: seq<RawRow>, b: seq<RawRow>, lookup: Lookup)
    ensures DayRelations(a + b, lookup) == DayRelations(a, lookup) + DayRelations(b, lookup)
  {
    if b == [] {
      assert a + b == a;
    } else {
      assert (a + b)[..|a + b| - 1] == a + b[..|b| - 1];
      DayRelationsConcat(a, b[..|b| - 1], lookup);
    }
  }

  // ----- the aggregate query

  datatype Aggregate = Aggregate(topicName: string, stockCode: string, hitCount: int, firstSeen: int, lastSeen: int)

  function Group(raw: set<RawRow>, topicName: string, stockCode: string): set<RawRow> {
    set x | x in raw && x.topicName == topicName && x.stockCode == stockCode
  }

  function InRange(raw: set<RawRow>, start: int, end: int): set<RawRow> {
    set x | x in raw && start <= x.date <= end
  }

  /** COUNT, MIN and MAX of one group. */
  ghost predicate AggregatesGroup(a: Aggregate, rows: set<RawRow>) {
    && rows != {} && a.hitCount == |rows|
    && (forall x :: x in rows ==> a.firstSeen <= x.date <= a.lastSeen)
    && (exists x :: x in rows && x.date == a.firstSeen)
    && (exists x :: x in rows && x.date == a.lastSeen)
  }

  ghost predicate HasGroup(answer: seq<Aggregate>, x: RawRow) {
    exists i :: 0 <= i < |answer| && answer[i].topicName == x.topicName && answer[i].stockCode == x.stockCode
  }

  /** Every aggregate is that of its group, and no group comes twice. */
  ghost predicate GroupsCounted(raw: set<RawRow>, answer: seq<Aggregate>) {
    && (forall i :: 0 <= i < |answer| ==>
          AggregatesGroup(answer[i], Group(raw, answer[i].topicName, answer[i].stockCode)))
    && (forall i, j :: 0 <= i < j < |answer| ==>
          answer[i].topicName != answer[j].topicName || answer[i].stockCode != answer[j].stockCode)
  }

  /** A correct answer to the GROUP BY query: every group once, in any order. */
  ghost predicate IsAggregation(raw: set<RawRow>, answer: seq<Aggregate>) {
    GroupsCounted(raw, answer) && forall x :: x in raw ==> HasGroup(answer, x)
  }

  function RebuildRelations(answer: seq<Aggregate>, lookup: Lookup): seq<Relation> {
    if answer == [] then []
    else
      var a := answer[|answer| - 1];
      RebuildRelations(answer[..|answer| - 1], lookup)
      + match lookup.Target(a.topicName, a.stockCode)
        case None => []
        case Some(key) => [lookup.Row(a.topicName, key, a.hitCount, a.firstSeen, a.lastSeen)]
  }

  function Rebuilt(table: Table, answer: seq<Aggregate>, lookup: Lookup): Table {
    ReplaceAll(table, Merged(RebuildRelations(answer, lookup)))
  }

  predicate AllKnown(answer: seq<Aggregate>, lookup: Lookup) {
    forall a :: a in answer ==> a.topicName in lookup.dict
  }

  datatype CrawlError = RawRefused | MissingTopics | RelationsRefused | InvalidDateRange

  // ----- one crawl

  datatype Day = Day(date: int, data: seq<FieldData>) {
    function Rows(): seq<RawRow> { DayRows(date, data) }
  }

  /** What a crawl reads and writes. */
  datatype Store = Store(raw: set<RawRow>, table: Table)

  predicate TopicsKnown(data: seq<FieldData>, lookup: Lookup) {
    forall field :: field in data ==> field.name in lookup.dict
  }

  /** How a crawl ends depends on the day alone. */
  ghost function CrawlOutcome(day: Day, lookup: Lookup): Result<(), CrawlError> {
    if !NoRepeatInBatch(day.Rows()) then Failure(RawRefused)
    else if !TopicsKnown(day.data, lookup) then Failure(MissingTopics)
    else if !NoRepeatInBatch(Keys(DayRelations(day.Rows(), lookup))) then Failure(RelationsRefused)
    else Success(())
  }

  /** The raw rows stay saved when the dictionary misses a topic or the relations are refused. */
  ghost function CrawlDay(st: Store, day: Day, lookup: Lookup): Store {
    match CrawlOutcome(day, lookup)
    case Failure(RawRefused) => st
    case Failure(_) => Store(st.raw + Elements(day.Rows()), st.table)
    case Success(_) => Store(st.raw + Elements(day.Rows()), AccumulateAll(st.table, DayRelations(day.Rows(), lookup)))
  }

  class CrawlerService {
    var raw: set<RawRow>
    const relations: RelationTable

    constructor (relations: RelationTable)
      ensures this.relations == relations && raw == {}
    {
      this.relations := relations;
      raw := {};
    }

    function View(): Store
      reads this, relations
    {
      Store(raw, relations.rows)
    }

    method CrawlWithParams(date: int, data: seq<FieldData>, lookup: Lookup) returns (outcome: Result<(), CrawlError>)
      modifies this, relations
      ensures outcome == CrawlOutcome(Day(date, data), lookup)
      ensures View() == CrawlDay(old(View()), Day(date, data), lookup)
    {
      var saved := SaveRawData(date, data);
      if !saved { return Failure(RawRefused); }
      var missing := false;
      for i := 0 to |data|
        invariant missing <==> exists field :: field in data[..i] && field.name !in lookup.dict
      {
        assert data[..i + 1] == data[..i] + [data[i]];
        if data[i].name !in lookup.dict {
          missing := true;
        }
      }
      assert data[..|data|] == data;
      if missing { return Failure(MissingTopics); }
      var ok := ProcessFieldData(date, data, lookup);
      return if ok then Success(()) else Failure(RelationsRefused);
    }

    method SaveRawData(date: int, data: seq<FieldData>) returns (ok: bool)
      modifies this
      ensures ok <==> NoRepeatInBatch(DayRows(date, data))
      ensures raw == if ok then old(raw) + Elements(DayRows(date, data)) else old(raw)
    {
      var records: seq<RawRow> := [];
      for i := 0 to |data|
        invariant records == DayRows(date, data[..i])
        invariant raw == old(raw)
      {
        var field := data[i];
        assert data[..i + 1][..i] == data[..i];
        ghost var before := records;
        for j := 0 to |field.codes|
          invariant records == before + FieldRows(date, field.name, field.codes[..j])
          invariant raw == old(raw)
        {
          assert field.codes[..j + 1][..j] == field.codes[..j];
          records := records + [RawRow(date, field.name, field.codes[j])];
        }
        assert field.codes[..|field.codes|] == field.codes;
      }
      assert data[..|data|] == data;
      if |records| == 0 {
        assert Elements(records) == {};
        return true;
      }
      ok := BatchesAccepted(records);
      if ok {
        raw := raw + Elements(records);
      }
    }

    method ProcessFieldData(date: int, data: seq<FieldData>, lookup: Lookup) returns (ok: bool)
      modifies relations
      ensures var mapped := DayRelations(DayRows(date, data), lookup);
              && (ok <==> NoRepeatInBatch(Keys(mapped)))
              && relations.rows == if ok then AccumulateAll(old(relations.rows), mapped) else old(relations.rows)
    {
      var mapped: seq<Relation> := [];
      for i := 0 to |data|
        invariant mapped == DayRelations(DayRows(date, data[..i]), lookup)
        invariant relations.rows == old(relations.rows)
      {
        var field := data[i];
        assert data[..i + 1][..i] == data[..i];
        var more := FieldRelations(date, field, lookup);
        DayRelationsConcat(DayRows(date, data[..i]), FieldRows(date, field.name, field.codes), lookup);
        mapped := mapped + more;
      }
      assert data[..|data|] == data;
      ok := relations.BulkUpsertAccumulate(mapped);
    }

    /** The answer parameter is what the aggregate query returned for the range. */
    method RebuildTopicRelations(start: int, end: int, answer: seq<Aggregate>, lookup: Lookup)
      returns (outcome: Result<nat, CrawlError>)
      requires IsAggregation(InRange(raw, start, end), answer)
      modifies relations
      ensures if start > end then
                outcome == Failure(InvalidDateRange) && relations.rows == old(relations.rows)
              else if !AllKnown(answer, lookup) then
                outcome == Failure(MissingTopics) && relations.rows == old(relations.rows)
              else
                && outcome == Success(|Merged(RebuildRelations(answer, lookup))|)
                && relations.rows == Rebuilt(old(relations.rows), answer, lookup)
    {
      if start > end { return Failure(InvalidDateRange); }
      var known := CheckTopics(answer, lookup);
      if !known { return Failure(MissingTopics); }
      var rows := BuildRebuildRelations(answer, lookup);
      var merged := MergeNormalizedRelations(rows);
      MergedRowsAccepted(rows);
      var ok := relations.BulkUpsertReplace(merged);
      return Success(|merged|);
    }
  }

  /** The inner loop of processFieldData. */
  method FieldRelations(date: int, field: FieldData, lookup: Lookup) returns (mapped: seq<Relation>)
    ensures mapped == DayRelations(FieldRows(date, field.name, field.codes), lookup)
  {
    mapped := [];
    var topicID := lookup.TopicID(field.name);
    for j := 0 to |field.codes|
      invariant mapped == DayRelations(FieldRows(date, field.name, field.codes[..j]), lookup)
    {
      assert field.codes[..j + 1][..j] == field.codes[..j];
      if topicID == 0 { continue; }
      var tsCode := JiuyanToTushare(field.codes[j]);
      if tsCode == "" { continue; }
      mapped := mapped + [Relation(tsCode, topicID, lookup.Normalized(field.name), lookup.Category(field.name),
                                   "jiuyan", 1, Some(date), Some(date))];
    }
    assert field.codes[..|field.codes|] == field.codes;
  }

  method CheckTopics(answer: seq<Aggregate>, lookup: Lookup) returns (known: bool)
    ensures known <==> AllKnown(answer, lookup)
  {
    for i := 0 to |answer|
      invariant forall j :: 0 <= j < i ==> answer[j].topicName in lookup.dict
    {
      if answer[i].topicName !in lookup.dict { return false; }
    }
    return true;
  }

  method BuildRebuildRelations(answer: seq<Aggregate>, lookup: Lookup) returns (rows: seq<Relation>)
    ensures rows == RebuildRelations(answer, lookup)
  {
    rows := [];
    for i := 0 to |answer|
      invariant rows == RebuildRelations(answer[..i], lookup)
    {
      var a := answer[i];
      assert answer[..i + 1][..i] == answer[..i];
      var topicID := lookup.TopicID(a.topicName);
      if topicID == 0 { continue; }
      var tsCode := JiuyanToTushare(a.stockCode);
      if tsCode == "" { continue; }
      rows := rows + [Relation(tsCode, topicID, lookup.Normalized(a.topicName), lookup.Category(a.topicName),
                               "jiuyan", a.hitCount, Some(a.firstSeen), Some(a.lastSeen))];
    }
    assert answer[..|answer|] == answer;
  }
}
