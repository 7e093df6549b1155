/** The daily snapshot table behind its two date-keyed caches (dal/repo/snapshot_repo.go,
    dal/cache/daily_snapshot_cache.go, dal/dao/snapshot_dao.go).

    The rows of a date are a map from stock code to row, (date, ts_code) being unique. The
    cache is the process-wide one; its other keys hold other values. */
module SnapshotRepo {
  import opened Wrappers
  import opened Batches
  import opened DateText

  datatype Row = Row(changePct: int, isLimitUp: bool, limitTimes: int, consecutiveStrongDays: int, topicID: Option<int>)
  type Rows = map<string, Row>
  type Table = map<string, Rows>

  datatype Record = Record(date: string, tsCode: string, row: Row)

  datatype Entry = Snapshots(rows: Rows) | Other
  type Cache = map<string, Entry>

  // ----- the table, as the DAO sees it

  function RowsOn(table: Table, date: string): Rows {
    if date in table then table[date] else map[]
  }

  function LimitUpRows(rows: Rows): Rows {
    map code | code in rows && rows[code].isLimitUp :: rows[code]
  }

  /** An upsert keeps the topic of a row that is already there. */
  function Upsert(table: Table, r: Record): Table {
    var rows := RowsOn(table, r.date);
    table[r.date := rows[r.tsCode :=
      if r.tsCode in rows then r.row.(topicID := rows[r.tsCode].topicID) else r.row]]
  }

  function UpsertAll(table: Table, records: seq<Record>): Table {
    if records == [] then table
    else Upsert(UpsertAll(table, records[..|records| - 1]), records[|records| - 1])
  }

  function DeleteUpTo(table: Table, cutoff: string): Table
    requires ValidDate(cutoff)
  {
    map date | date in table && !(ValidDate(date) && DateNumber(date) <= DateNumber(cutoff)) :: table[date]
  }

  function SetTopic(table: Table, date: string, tsCode: string, topicID: Option<int>): Table {
    var rows := RowsOn(table, date);
    if tsCode in rows then table[date := rows[tsCode := rows[tsCode].(topicID := topicID)]] else table
  }

  function RecordKeys(records: seq<Record>): (keys: seq<(string, string)>)
    ensures |keys| == |records|
  {
    seq(|records|, i requires 0 <= i < |records| => (records[i].date, records[i].tsCode))
  }

  // ----- the cache keys

  const DATA_PREFIX := "snapshot:data:"
  const LIMIT_PREFIX := "snapshot:limitup:"

  function DataKey(date: string): string { DATA_PREFIX + date }

  function LimitUpKey(date: string): string { LIMIT_PREFIX + date }

  predicate HasPrefix(key: string, prefix: string) {
    |prefix| <= |key| && key[..|prefix|] == prefix
  }

  function DateFromKey(key: string): Option<string> {
    if HasPrefix(key, DATA_PREFIX) then Some(key[|DATA_PREFIX|..])
    else if HasPrefix(key, LIMIT_PREFIX) then Some(key[|LIMIT_PREFIX|..])
    else None
  }

  /** The keys of a date are exactly those that give the date back. */
  lemma KeysRoundTrip(key: string, date: string)
    ensures DateFromKey(key) == Some(date) <==> key == DataKey(date) || key == LimitUpKey(date)
    ensures DataKey(date) != LimitUpKey(date)
  {
    var d, l := DataKey(date), LimitUpKey(date);
    assert d[..|DATA_PREFIX|] == DATA_PREFIX && d[|DATA_PREFIX|..] == date;
    assert l[..|LIMIT_PREFIX|] == LIMIT_PREFIX && l[|LIMIT_PREFIX|..] == date;
    assert DATA_PREFIX[9] == 'd' && LIMIT_PREFIX[9] == 'l';
    assert l[9] == 'l';
    assert l[..|DATA_PREFIX|][9] == l[9];
    if HasPrefix(key, DATA_PREFIX) {
      assert key == DATA_PREFIX + key[|DATA_PREFIX|..];
    } else if HasPrefix(key, LIMIT_PREFIX) {
      assert key == LIMIT_PREFIX + key[|LIMIT_PREFIX|..];
    }
  }

  // ----- invalidation

  function Invalidated(cache: Cache, date: string): Cache {
    cache - {DataKey(date), LimitUpKey(date)}
  }

  function InvalidatedAll(cache: Cache, records: seq<Record>): Cache {
    if records == [] then cache
    else Invalidated(InvalidatedAll(cache, records[..|records| - 1]), records[|records| - 1].date)
  }

  function InvalidatedUpTo(cache: Cache, cutoff: string): Cache {
    map key | key in cache && !(DateFromKey(key).Some? && AtMost(DateFromKey(key).value, cutoff)) :: cache[key]
  }

  // ----- coherence

  ghost predicate CoherentAt(table: Table, cache: Cache, date: string) {
    && (DataKey(date) in cache ==> ValidDate(date) && cache[DataKey(date)] == Snapshots(RowsOn(table, date)))
    && (LimitUpKey(date) in cache ==> ValidDate(date) && cache[LimitUpKey(date)] == Snapshots(LimitUpRows(RowsOn(table, date))))
  }

  /** Every cached entry equals what the DAO would return now. */
  ghost predicate Coherent(table: Table, cache: Cache) {
    && (forall date :: date in table ==> ValidDate(date))
    && forall date :: CoherentAt(table, cache, date)
  }

  ghost predicate SameOn(before: Table, after: Table, date: string) {
    RowsOn(before, date) == RowsOn(after, date)
  }

  /** A write is safe once the keys of every date it may have changed are gone. */
  lemma InvalidationSuffices(before: Table, after: Table, cache: Cache, cache': Cache)
    requires Coherent(before, cache)
    requires forall date :: date in after ==> ValidDate(date)
    requires forall key :: key in cache' && DateFromKey(key).Some? ==> key in cache && cache'[key] == cache[key]
    requires forall date :: SameOn(before, after, date) || (DataKey(date) !in cache' && LimitUpKey(date) !in cache')
    ensures Coherent(after, cache')
  {
    forall date ensures CoherentAt(after, cache', date) {
      KeysRoundTrip(DataKey(date), date);
      KeysRoundTrip(LimitUpKey(date), date);
      assert CoherentAt(before, cache, date) && (SameOn(before, after, date) || DataKey(date) !in cache');
    }
  }

  lemma DeleteDateCoherent(table: Table, cache: Cache, date: string)
    requires Coherent(table, cache)
    ensures Coherent(table - {date}, Invalidated(cache, date))
  {
    assert forall d :: d != date ==> SameOn(table, table - {date}, d);
    InvalidationSuffices(table, table - {date}, cache, Invalidated(cache, date));
  }

  lemma SetTopicCoherent(table: Table, cache: Cache, date: string, tsCode: string, topicID: Option<int>)
    requires Coherent(table, cache)
    ensures Coherent(SetTopic(table, date, tsCode, topicID), Invalidated(cache, date))
  {
    var after := SetTopic(table, date, tsCode, topicID);
    assert forall d :: d != date ==> SameOn(table, after, d);
    InvalidationSuffices(table, after, cache, Invalidated(cache, date));
  }

  /** Deletion goes by dates and invalidation by strings; the two cut at the same place. */
  lemma DeleteUpToCoherent(table: Table, cache: Cache, cutoff: string)
    requires Coherent(table, cache) && ValidDate(cutoff)
    ensures Coherent(DeleteUpTo(table, cutoff), InvalidatedUpTo(cache, cutoff))
  {
    var after, cache' := DeleteUpTo(table, cutoff), InvalidatedUpTo(cache, cutoff);
    forall date ensures SameOn(table, after, date) || (DataKey(date) !in cache' && LimitUpKey(date) !in cache') {
      if date in table {
        TextOrderIsDateOrder(date, cutoff);
        KeysRoundTrip(DataKey(date), date);
        KeysRoundTrip(LimitUpKey(date), date);
      }
    }
    InvalidationSuffices(table, after, cache, cache');
  }

  predicate ValidRecords(records: seq<Record>) {
    forall r :: r in records ==> ValidDate(r.date)
  }

  lemma {:induction false} InsertCoherent(table: Table, cache: Cache, records: seq<Record>)
    requires Coherent(table, cache) && ValidRecords(records)
    ensures Coherent(UpsertAll(table, records), InvalidatedAll(cache, records))
  {
    if records != [] {
      var prefix, r := records[..|records| - 1], records[|records| - 1];
      assert r in records && forall x :: x in prefix ==> x in records;
      InsertCoherent(table, cache, prefix);
      var mid, c := UpsertAll(table, prefix), InvalidatedAll(cache, prefix);
      var after := Upsert(mid, r);
      assert forall d :: d != r.date ==> SameOn(mid, after, d);
      InvalidationSuffices(mid, after, c, Invalidated(c, r.date));
    }
  }

  // ----- the operations

  datatype Op =
    | Insert(records: seq<Record>)
    | DeleteDate(date: string)
    | DeleteCutoff(cutoff: string)
    | UpdateTopic(on: string, tsCode: string, topicID: Option<int>)
    | Read(day: string)
    | ReadLimitUp(limitDay: string)

  predicate WellFormed(op: Op) {
    op.Insert? ==> ValidRecords(op.records)
  }

  datatype State = State(table: Table, cache: Cache)

  ghost predicate Refused(op: Op) {
    match op
    case Insert(records) => !NoRepeatInBatch(RecordKeys(records))
    case DeleteDate(date) => !ValidDate(date)
    case DeleteCutoff(cutoff) => !ValidDate(cutoff)
    case UpdateTopic(date, _, _) => !ValidDate(date)
    case Read(date) => !ValidDate(date)
    case ReadLimitUp(date) => !ValidDate(date)
  }

  /** The effect of an operation on table and cache; a refused one has none. */
  ghost function Apply(st: State, op: Op): State {
    if Refused(op) then st
    else
      match op
      case Insert(records) => State(UpsertAll(st.table, records), InvalidatedAll(st.cache, records))
      case DeleteDate(date) => State(st.table - {date}, Invalidated(st.cache, date))
      case DeleteCutoff(cutoff) => State(DeleteUpTo(st.table, cutoff), InvalidatedUpTo(st.cache, cutoff))
      case UpdateTopic(date, code, topic) => State(SetTopic(st.table, date, code, topic), Invalidated(st.cache, date))
      case Read(date) => st.(cache := st.cache[DataKey(date) := Snapshots(RowsOn(st.table, date))])
      case ReadLimitUp(date) => st.(cache := st.cache[LimitUpKey(date) := Snapshots(LimitUpRows(RowsOn(st.table, date)))])
  }

  class SnapshotRepository {
    var table: Table
    var cache: Cache

    /** The cache may already hold what other parts of the program put there. */
    constructor (cache: Cache)
      requires forall key :: key in cache ==> DateFromKey(key).None?
      ensures Valid() && table == map[] && this.cache == cache
    {
      table := map[];
      this.cache := cache;
      new;
      forall date ensures CoherentAt(table, cache, date) {
        KeysRoundTrip(DataKey(date), date);
        KeysRoundTrip(LimitUpKey(date), date);
      }
    }

    function View(): State
      reads this
    {
      State(table, cache)
    }

    ghost predicate Valid()
      reads this
    {
      Coherent(table, cache)
    }

    method InvalidateDate(date: string)
      modifies this`cache
      ensures cache == Invalidated(old(cache), date)
    {
      cache := cache - {DataKey(date)};
      cache := cache - {LimitUpKey(date)};
    }

    method InvalidateBeforeOrEqual(cutoff: string)
      modifies this`cache
      ensures cache == InvalidatedUpTo(old(cache), cutoff)
    {
      var todo := cache.Keys;
      while todo != {}
        invariant todo <= old(cache).Keys
        invariant forall key :: key in cache ==> key in old(cache) && cache[key] == old(cache)[key]
        invariant forall key :: key in old(cache) && key !in InvalidatedUpTo(old(cache), cutoff) ==> key in todo || key !in cache
        invariant forall key :: key in InvalidatedUpTo(old(cache), cutoff) ==> key in cache
        decreases |todo|
      {
        var k := AnyOf(todo);
        todo := todo - {k};
        var date := DateFromKey(k);
        if date.None? { continue; }
        if AtMost(date.value, cutoff) {
          KeysRoundTrip(k, date.value);
          KeysRoundTrip(DataKey(date.value), date.value);
          KeysRoundTrip(LimitUpKey(date.value), date.value);
          InvalidateDate(date.value);
        }
      }
      SameMap(cache, InvalidatedUpTo(old(cache), cutoff));
    }

    method DeleteByDate(date: string) returns (ok: bool)
      requires Valid()
      modifies this
      ensures Valid() && ok == ValidDate(date)
      ensures View() == Apply(old(View()), DeleteDate(date))
    {
      if !ValidDate(date) { return false; }
      DeleteDateCoherent(table, cache, date);
      table := table - {date};
      InvalidateDate(date);
      return true;
    }

    method DeleteBeforeOrEqualDate(cutoff: string) returns (ok: bool)
      requires Valid()
      modifies this
      ensures Valid() && ok == ValidDate(cutoff)
      ensures View() == Apply(old(View()), DeleteCutoff(cutoff))
    {
      if !ValidDate(cutoff) { return false; }
      DeleteUpToCoherent(table, cache, cutoff);
      table := DeleteUpTo(table, cutoff);
      InvalidateBeforeOrEqual(cutoff);
      return true;
    }

    /** The dates of records come from formatting, so they are well-formed. */
    method InsertBatch(records: seq<Record>) returns (ok: bool)
      requires Valid() && ValidRecords(records)
      modifies this
      ensures Valid() && (ok <==> NoRepeatInBatch(RecordKeys(records)))
      ensures View() == Apply(old(View()), Insert(records))
    {
      if |records| == 0 { return true; }
      ok := BatchesAccepted(RecordKeys(records));
      if !ok { return; }
      InsertCoherent(table, cache, records);
      table := UpsertAll(table, records);
      for i := 0 to |records|
        invariant cache == InvalidatedAll(old(cache), records[..i])
        invariant table == UpsertAll(old(table), records)
      {
        assert records[..i + 1][..i] == records[..i];
        InvalidateDate(records[i].date);
      }
      assert records[..|records|] == records;
    }

    method UpdateTopicIDByTsCodeAndDate(date: string, tsCode: string, topicID: Option<int>) returns (ok: bool)
      requires Valid()
      modifies this
      ensures Valid() && ok == ValidDate(date)
      ensures View() == Apply(old(View()), UpdateTopic(date, tsCode, topicID))
    {
      if !ValidDate(date) { return false; }
      SetTopicCoherent(table, cache, date, tsCode, topicID);
      table := SetTopic(table, date, tsCode, topicID);
      InvalidateDate(date);
      return true;
    }

    /** Cached or not, a read returns what the DAO returns. */
    method GetByDate(date: string) returns (rows: Option<Rows>)
      requires Valid()
      modifies this`cache
      ensures Valid()
      ensures rows == if ValidDate(date) then Some(RowsOn(table, date)) else None
      ensures View() == Apply(old(View()), Read(date))
    {
      assert CoherentAt(table, cache, date);
      if DataKey(date) in cache && cache[DataKey(date)].Snapshots? {
        return Some(cache[DataKey(date)].rows);
      }
      if !ValidDate(date) { return None; }
      var found := RowsOn(table, date);
      FillDataCoherent(table, cache, date);
      cache := cache[DataKey(date) := Snapshots(found)];
      return Some(found);
    }

    method GetLimitUpByDate(date: string) returns (rows: Option<Rows>)
      requires Valid()
      modifies this`cache
      ensures Valid()
      ensures rows == if ValidDate(date) then Some(LimitUpRows(RowsOn(table, date))) else None
      ensures View() == Apply(old(View()), ReadLimitUp(date))
    {
      assert CoherentAt(table, cache, date);
      if LimitUpKey(date) in cache && cache[LimitUpKey(date)].Snapshots? {
        return Some(cache[LimitUpKey(date)].rows);
      }
      if !ValidDate(date) { return None; }
      var found := LimitUpRows(RowsOn(table, date));
      FillLimitUpCoherent(table, cache, date);
      cache := cache[LimitUpKey(date) := Snapshots(found)];
      return Some(found);
    }
  }

  lemma FillDataCoherent(table: Table, cache: Cache, date: string)
    requires Coherent(table, cache) && ValidDate(date)
    ensures Coherent(table, cache[DataKey(date) := Snapshots(RowsOn(table, date))])
  {
    var filled := cache[DataKey(date) := Snapshots(RowsOn(table, date))];
    forall d ensures CoherentAt(table, filled, d) {
      assert CoherentAt(table, cache, d);
      KeysRoundTrip(DataKey(d), date);
      KeysRoundTrip(DataKey(d), d);
      KeysRoundTrip(LimitUpKey(d), date);
      KeysRoundTrip(LimitUpKey(d), d);
    }
  }

  lemma FillLimitUpCoherent(table: Table, cache: Cache, date: string)
    requires Coherent(table, cache) && ValidDate(date)
    ensures Coherent(table, cache[LimitUpKey(date) := Snapshots(LimitUpRows(RowsOn(table, date)))])
  {
    var filled := cache[LimitUpKey(date) := Snapshots(LimitUpRows(RowsOn(table, date)))];
    forall d ensures CoherentAt(table, filled, d) {
      assert CoherentAt(table, cache, d);
      KeysRoundTrip(DataKey(d), date);
      KeysRoundTrip(DataKey(d), d);
      KeysRoundTrip(LimitUpKey(d), date);
      KeysRoundTrip(LimitUpKey(d), d);
    }
  }

  // ----- whole runs

  ghost function ApplyAll(st: State, ops: seq<Op>): State {
    if ops == [] then st else Apply(ApplyAll(st, ops[..|ops| - 1]), ops[|ops| - 1])
  }

  lemma ApplyCoherent(st: State, op: Op)
    requires Coherent(st.table, st.cache) && WellFormed(op)
    ensures Coherent(Apply(st, op).table, Apply(st, op).cache)
  {
    if !Refused(op) {
      match op
      case Insert(records) => InsertCoherent(st.table, st.cache, records);
      case DeleteDate(date) => DeleteDateCoherent(st.table, st.cache, date);
      case DeleteCutoff(cutoff) => DeleteUpToCoherent(st.table, st.cache, cutoff);
      case UpdateTopic(date, code, topic) => SetTopicCoherent(st.table, st.cache, date, code, topic);
      case Read(date) => FillDataCoherent(st.table, st.cache, date);
      case ReadLimitUp(date) => FillLimitUpCoherent(st.table, st.cache, date);
    }
  }

  /** Over any run, from any coherent start, the caches never hold anything the DAO would not
      return, so every read of either kind returns the current rows. */
  lemma {:induction false} RunStaysCoherent(st: State, ops: seq<Op>)
    requires Coherent(st.table, st.cache)
    requires forall op :: op in ops ==> WellFormed(op)
    ensures Coherent(ApplyAll(st, ops).table, ApplyAll(st, ops).cache)
  {
    if ops != [] {
      var prefix, op := ops[..|ops| - 1], ops[|ops| - 1];
      assert op in ops && forall x :: x in prefix ==> x in ops;
      RunStaysCoherent(st, prefix);
      ApplyCoherent(ApplyAll(st, prefix), op);
    }
  }
}
