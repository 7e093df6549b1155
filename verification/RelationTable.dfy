/** The stock_topic_relations table and its bulk upserts
    (dal/dao/stock_topic_relation_dao.go). Rows are keyed by (ts_code, topic_id). */
module RelationTables {
  import opened Wrappers
  import opened TopicRelations
  import opened Batches

  type Table = map<RelationKey, Relation>

  function Keys(rows: seq<Relation>): (keys: seq<RelationKey>)
    ensures |keys| == |rows| && forall i :: 0 <= i < |rows| ==> keys[i] == rows[i].Key()
  {
    seq(|rows|, i requires 0 <= i < |rows| => rows[i].Key())
  }

  // ----- one row

  /** On conflict the hits add up and the last date widens; the first date and the source stay. */
  function UpsertAccumulate(table: Table, r: Relation): Table {
    if r.Key() in table then
      var current := table[r.Key()];
      table[r.Key() := current.(topicName := r.topicName, category := r.category,
                             hitCount := current.hitCount + r.hitCount,
                             lastSeen := Later(current.lastSeen, r.lastSeen))]
    else table[r.Key() := r]
  }

  /** On conflict every column the model has is overwritten. */
  function UpsertReplace(table: Table, r: Relation): Table {
    table[r.Key() := r]
  }

  function AccumulateAll(table: Table, rows: seq<Relation>): Table {
    if rows == [] then table
    else UpsertAccumulate(AccumulateAll(table, rows[..|rows| - 1]), rows[|rows| - 1])
  }

  function ReplaceAll(table: Table, rows: seq<Relation>): Table {
    if rows == [] then table
    else UpsertReplace(ReplaceAll(table, rows[..|rows| - 1]), rows[|rows| - 1])
  }

  class RelationTable {
    var rows: Table

    constructor ()
      ensures rows == map[]
    {
      rows := map[];
    }

    method BulkUpsertAccumulate(mappings: seq<Relation>) returns (ok: bool)
      modifies this
      ensures ok <==> NoRepeatInBatch(Keys(mappings))
      ensures rows == if ok then AccumulateAll(old(rows), mappings) else old(rows)
    {
      if |mappings| == 0 { return true; }
      ok := BatchesAccepted(Keys(mappings));
      if !ok { return; }
      for i := 0 to |mappings|
        invariant rows == AccumulateAll(old(rows), mappings[..i])
      {
        assert mappings[..i + 1][..i] == mappings[..i];
        rows := UpsertAccumulate(rows, mappings[i]);
      }
      assert mappings[..|mappings|] == mappings;
    }

    method BulkUpsertReplace(mappings: seq<Relation>) returns (ok: bool)
      modifies this
      ensures ok <==> NoRepeatInBatch(Keys(mappings))
      ensures rows == if ok then ReplaceAll(old(rows), mappings) else old(rows)
    {
      if |mappings| == 0 { return true; }
      ok := BatchesAccepted(Keys(mappings));
      if !ok { return; }
      for i := 0 to |mappings|
        invariant rows == ReplaceAll(old(rows), mappings[..i])
      {
        assert mappings[..i + 1][..i] == mappings[..i];
        rows := UpsertReplace(rows, mappings[i]);
      }
      assert mappings[..|mappings|] == mappings;
    }
  }

  // ----- distinct keys

  /** Rows that came out of the merge are never refused. */
  lemma MergedRowsAccepted(relations: seq<Relation>)
    ensures NoRepeatInBatch(Keys(Merged(relations)))
  {
  }

  /** Accumulating rows with distinct keys: each row meets the table as it was. */
  lemma {:induction false} AccumulateDistinct(table: Table, rows: seq<Relation>, key: RelationKey)
    requires DistinctKeys(rows)
    ensures var after, i := AccumulateAll(table, rows), IndexOf(rows, key);
            if i < |rows| then key in after && key in UpsertAccumulate(table, rows[i])
                               && after[key] == UpsertAccumulate(table, rows[i])[key]
            else (key in after <==> key in table) && (key in table ==> after[key] == table[key])
  {
    if rows != [] {
      var prefix := rows[..|rows| - 1];
      AccumulateDistinct(table, prefix, key);
      AccumulateDistinct(table, prefix, rows[|rows| - 1].Key());
    }
  }

  /** Replacing rows with distinct keys: the given rows, and the old ones elsewhere. */
  lemma {:induction false} ReplaceDistinct(table: Table, rows: seq<Relation>, key: RelationKey)
    requires DistinctKeys(rows)
    ensures var after, i := ReplaceAll(table, rows), IndexOf(rows, key);
            if i < |rows| then key in after && after[key] == rows[i]
            else (key in after <==> key in table) && (key in table ==> after[key] == table[key])
  {
    if rows != [] {
      ReplaceDistinct(table, rows[..|rows| - 1], key);
    }
  }
}
