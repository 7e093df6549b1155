/** Stock-topic relations, and mergeNormalizedRelations
    (internal/service/crawler/crawler.go): one row per (code, topic), in order of first
    appearance, with the hits added up and the seen dates widened. */
module TopicRelations {
  import opened Wrappers

  datatype RelationKey = RelationKey(tsCode: string, topicID: int)

  // Dates are day numbers; a null date is None.
  datatype Relation = Relation(
    tsCode: string,
    topicID: int,
    topicName: string,
    category: string,
    source: string,
    hitCount: int,
    firstSeen: Option<int>,
    lastSeen: Option<int>)
  {
    function Key(): RelationKey { RelationKey(tsCode, topicID) }
  }

  /** Least non-null date. */
  function Earlier(a: Option<int>, b: Option<int>): Option<int> {
    if b.Some? && (a.None? || b.value < a.value) then b else a
  }

  /** Greatest non-null date. */
  function Later(a: Option<int>, b: Option<int>): Option<int> {
    if b.Some? && (a.None? || b.value > a.value) then b else a
  }

  function Absorb(existing: Relation, r: Relation): Relation {
    existing.(hitCount := existing.hitCount + r.hitCount,
              firstSeen := Earlier(existing.firstSeen, r.firstSeen),
              lastSeen := Later(existing.lastSeen, r.lastSeen))
  }

  /** Position of the first row with a key, or the length when there is none. */
  function IndexOf(rows: seq<Relation>, key: RelationKey): (i: nat)
    ensures i <= |rows|
    ensures i < |rows| ==> rows[i].Key() == key
    ensures forall j :: 0 <= j < i ==> rows[j].Key() != key
  {
    if rows == [] then 0
    else
      var i := IndexOf(rows[..|rows| - 1], key);
      if i < |rows| - 1 || rows[|rows| - 1].Key() == key then i else |rows|
  }

  function Insert(rows: seq<Relation>, r: Relation): seq<Relation> {
    var i := IndexOf(rows, r.Key());
    if i < |rows| then rows[i := Absorb(rows[i], r)] else rows + [r]
  }

  /** The merge as one insertion after another. */
  function Merged(relations: seq<Relation>): seq<Relation> {
    if relations == [] then []
    else Insert(Merged(relations[..|relations| - 1]), relations[|relations| - 1])
  }

  ghost predicate DistinctKeys(rows: seq<Relation>) {
    forall i, j :: 0 <= i < j < |rows| ==> rows[i].Key() != rows[j].Key()
  }

  ghost predicate HasKey(rows: seq<Relation>, key: RelationKey) {
    exists i :: 0 <= i < |rows| && rows[i].Key() == key
  }

  lemma IndexOfDistinct(rows: seq<Relation>, i: nat)
    requires DistinctKeys(rows) && i < |rows|
    ensures IndexOf(rows, rows[i].Key()) == i
  {
  }

  lemma InsertKeys(rows: seq<Relation>, r: Relation, key: RelationKey)
    requires DistinctKeys(rows)
    ensures DistinctKeys(Insert(rows, r))
    ensures HasKey(Insert(rows, r), key) <==> HasKey(rows, key) || r.Key() == key
  {
    var i, after := IndexOf(rows, r.Key()), Insert(rows, r);
    assert after[i].Key() == r.Key();
    assert forall j :: 0 <= j < |rows| ==> after[j].Key() == rows[j].Key();
  }

  lemma {:induction false} MergedDistinct(relations: seq<Relation>)
    ensures DistinctKeys(Merged(relations))
  {
    if relations != [] {
      MergedDistinct(relations[..|relations| - 1]);
      InsertKeys(Merged(relations[..|relations| - 1]), relations[|relations| - 1], RelationKey("", 0));
    }
  }

  /** The map of pointers and the order slice agree with the list of rows. */
  ghost predicate Represents(merged: map<RelationKey, Relation>, order: seq<RelationKey>, rows: seq<Relation>) {
    && |order| == |rows|
    && (forall i :: 0 <= i < |rows| ==> rows[i].Key() == order[i] && order[i] in merged && merged[order[i]] == rows[i])
    && (forall key :: key in merged ==> HasKey(rows, key))
  }

  lemma RepresentsAbsorb(merged: map<RelationKey, Relation>, order: seq<RelationKey>, rows: seq<Relation>, r: Relation)
    requires Represents(merged, order, rows) && DistinctKeys(rows) && r.Key() in merged
    ensures Represents(merged[r.Key() := Absorb(merged[r.Key()], r)], order, Insert(rows, r))
  {
    var key, i, after := r.Key(), IndexOf(rows, r.Key()), Insert(rows, r);
    KeysStay(merged, rows, r);
    assert HasKey(rows, key);
    assert i < |rows| && merged[key] == rows[i] && order[i] == key;
    forall j | 0 <= j < |rows| && j != i ensures after[j] == rows[j] && rows[j].Key() != key { }
  }

  lemma KeysStay(merged: map<RelationKey, Relation>, rows: seq<Relation>, r: Relation)
    requires DistinctKeys(rows) && forall key :: key in merged ==> HasKey(rows, key)
    ensures HasKey(Insert(rows, r), r.Key()) && forall key :: key in merged ==> HasKey(Insert(rows, r), key)
  {
    InsertKeys(rows, r, r.Key());
    forall key | key in merged ensures HasKey(Insert(rows, r), key) {
      InsertKeys(rows, r, key);
    }
  }

  lemma RepresentsAppend(merged: map<RelationKey, Relation>, order: seq<RelationKey>, rows: seq<Relation>, r: Relation)
    requires Represents(merged, order, rows) && DistinctKeys(rows) && r.Key() !in merged
    ensures Represents(merged[r.Key() := r], order + [r.Key()], Insert(rows, r))
  {
    KeysStay(merged, rows, r);
    assert IndexOf(rows, r.Key()) == |rows| && Insert(rows, r) == rows + [r];
  }

  method MergeNormalizedRelations(relations: seq<Relation>) returns (result: seq<Relation>)
    ensures result == Merged(relations)
  {
    if |relations| == 0 { return []; }
    var merged: map<RelationKey, Relation> := map[];
    var order: seq<RelationKey> := [];
    ghost var rows := [];
    for n := 0 to |relations|
      invariant rows == Merged(relations[..n])
      invariant Represents(merged, order, rows)
    {
      var relation := relations[n];
      var key := relation.Key();
      assert relations[..n + 1][..n] == relations[..n];
      MergedDistinct(relations[..n]);
      ghost var before := rows;
      rows := Insert(rows, relation);
      if key !in merged {
        RepresentsAppend(merged, order, before, relation);
        merged := merged[key := relation];
        order := order + [key];
        continue;
      }
      RepresentsAbsorb(merged, order, before, relation);
      var existing := MergeInto(merged[key], relation);
      merged := merged[key := existing];
    }
    assert relations[..|relations|] == relations;
    result := RowsInOrder(merged, order, rows);
  }

  method MergeInto(row: Relation, relation: Relation) returns (existing: Relation)
    ensures existing == Absorb(row, relation)
  {
    existing := row.(hitCount := row.hitCount + relation.hitCount);
    if relation.firstSeen.Some? && (existing.firstSeen.None? || relation.firstSeen.value < existing.firstSeen.value) {
      existing := existing.(firstSeen := relation.firstSeen);
    }
    if relation.lastSeen.Some? && (existing.lastSeen.None? || relation.lastSeen.value > existing.lastSeen.value) {
      existing := existing.(lastSeen := relation.lastSeen);
    }
  }

  method RowsInOrder(merged: map<RelationKey, Relation>, order: seq<RelationKey>, ghost rows: seq<Relation>)
    returns (result: seq<Relation>)
    requires Represents(merged, order, rows)
    ensures result == rows
  {
    result := [];
    for n := 0 to |order|
      invariant result == rows[..n]
    {
      result := result + [merged[order[n]]];
    }
  }

  // ----- what a merged row means

  function TotalHits(rows: seq<Relation>): int {
    if rows == [] then 0 else TotalHits(rows[..|rows| - 1]) + rows[|rows| - 1].hitCount
  }

  function HitsOf(rows: seq<Relation>, key: RelationKey): int {
    if rows == [] then 0
    else
      var r := rows[|rows| - 1];
      HitsOf(rows[..|rows| - 1], key) + if r.Key() == key then r.hitCount else 0
  }

  /** d is the least non-null first date among the rows of a key. */
  ghost predicate IsFirstSeen(rows: seq<Relation>, key: RelationKey, d: Option<int>) {
    && (forall i :: 0 <= i < |rows| && rows[i].Key() == key && rows[i].firstSeen.Some? ==>
          d.Some? && d.value <= rows[i].firstSeen.value)
    && (d.Some? ==> exists i :: 0 <= i < |rows| && rows[i].Key() == key && rows[i].firstSeen == d)
  }

  /** d is the greatest non-null last date among the rows of a key. */
  ghost predicate IsLastSeen(rows: seq<Relation>, key: RelationKey, d: Option<int>) {
    && (forall i :: 0 <= i < |rows| && rows[i].Key() == key && rows[i].lastSeen.Some? ==>
          d.Some? && d.value >= rows[i].lastSeen.value)
    && (d.Some? ==> exists i :: 0 <= i < |rows| && rows[i].Key() == key && rows[i].lastSeen == d)
  }

  lemma FirstSeenSnoc(rows: seq<Relation>, r: Relation, key: RelationKey, d: Option<int>)
    requires IsFirstSeen(rows, key, d)
    ensures IsFirstSeen(rows + [r], key, if r.Key() == key then Earlier(d, r.firstSeen) else d)
  {
    var all := rows + [r];
    assert all[|rows|] == r;
    if d.Some? {
      var i :| 0 <= i < |rows| && rows[i].Key() == key && rows[i].firstSeen == d;
      assert all[i] == rows[i];
    }
  }

  lemma LastSeenSnoc(rows: seq<Relation>, r: Relation, key: RelationKey, d: Option<int>)
    requires IsLastSeen(rows, key, d)
    ensures IsLastSeen(rows + [r], key, if r.Key() == key then Later(d, r.lastSeen) else d)
  {
    var all := rows + [r];
    assert all[|rows|] == r;
    if d.Some? {
      var i :| 0 <= i < |rows| && rows[i].Key() == key && rows[i].lastSeen == d;
      assert all[i] == rows[i];
    }
  }

  lemma {:induction false} NoRowsNoHits(rows: seq<Relation>, key: RelationKey)
    requires !HasKey(rows, key)
    ensures HitsOf(rows, key) == 0 && IsFirstSeen(rows, key, None) && IsLastSeen(rows, key, None)
  {
    if rows != [] {
      assert forall i :: 0 <= i < |rows| - 1 ==> rows[..|rows| - 1][i] == rows[i];
      assert rows[|rows| - 1].Key() != key;
      NoRowsNoHits(rows[..|rows| - 1], key);
    }
  }

  lemma HasKeySnoc(rows: seq<Relation>, r: Relation, key: RelationKey)
    ensures HasKey(rows + [r], key) <==> HasKey(rows, key) || r.Key() == key
  {
    var all := rows + [r];
    assert all[|rows|] == r;
    assert forall i :: 0 <= i < |rows| ==> all[i] == rows[i];
  }

  /** A row that sums up all the rows of a key. */
  ghost predicate Summarises(row: Relation, rows: seq<Relation>, key: RelationKey) {
    && row.Key() == key
    && row.hitCount == HitsOf(rows, key)
    && IsFirstSeen(rows, key, row.firstSeen)
    && IsLastSeen(rows, key, row.lastSeen)
  }

  lemma SummariseNext(row: Relation, rows: seq<Relation>, r: Relation, key: RelationKey)
    requires Summarises(row, rows, key)
    ensures Summarises(if r.Key() == key then Absorb(row, r) else row, rows + [r], key)
  {
  }

  lemma SummariseFirst(rows: seq<Relation>, r: Relation)
    requires !HasKey(rows, r.Key())
    ensures Summarises(r, rows + [r], r.Key())
  {
    assert (rows + [r])[..|rows|] == rows;
    NoRowsNoHits(rows, r.Key());
    FirstSeenSnoc(rows, r, r.Key(), None);
    LastSeenSnoc(rows, r, r.Key(), None);
  }

  lemma KeysOfSplit(relations: seq<Relation>, prefix: seq<Relation>, r: Relation, key: RelationKey)
    requires relations == prefix + [r]
    ensures HasKey(relations, key) <==> HasKey(prefix, key) || r.Key() == key
  {
    HasKeySnoc(prefix, r, key);
  }

  lemma MergedKeysNext(relations: seq<Relation>, key: RelationKey)
    requires relations != []
    ensures var prefix, r := relations[..|relations| - 1], relations[|relations| - 1];
            HasKey(Merged(relations), key) <==> HasKey(Merged(prefix), key) || r.Key() == key
  {
    MergedDistinct(relations[..|relations| - 1]);
    InsertKeys(Merged(relations[..|relations| - 1]), relations[|relations| - 1], key);
  }

  lemma {:induction false} MergedKeys(relations: seq<Relation>, key: RelationKey)
    ensures HasKey(Merged(relations), key) <==> HasKey(relations, key)
  {
    if relations != [] {
      var prefix, r := relations[..|relations| - 1], relations[|relations| - 1];
      calc <==> {
        HasKey(Merged(relations), key);
        { MergedKeysNext(relations, key); }
        HasKey(Merged(prefix), key) || r.Key() == key;
        { MergedKeys(prefix, key); }
        HasKey(prefix, key) || r.Key() == key;
        { KeysOfSplit(relations, prefix, r, key); }
        HasKey(relations, key);
      }
    }
  }

  /** A key is in the merge exactly when it is in the input, and its row has the sum of the
      hits, the least first date and the greatest last date of the key's input rows. */
  lemma {:induction false} MergedRow(relations: seq<Relation>, key: RelationKey)
    ensures HasKey(Merged(relations), key) <==> HasKey(relations, key)
    ensures HasKey(relations, key) ==>
              var i := IndexOf(Merged(relations), key);
              i < |Merged(relations)| && Summarises(Merged(relations)[i], relations, key)
  {
    MergedKeys(relations, key);
    if relations != [] {
      var prefix, r := relations[..|relations| - 1], relations[|relations| - 1];
      var before := Merged(prefix);
      MergedRow(prefix, key);
      MergedDistinct(relations);
      assert relations == prefix + [r];
      if HasKey(prefix, key) {
        var i := IndexOf(before, key);
        SummariseNext(before[i], prefix, r, key);
        IndexOfDistinct(Merged(relations), i);
      } else if r.Key() == key {
        SummariseFirst(prefix, r);
        IndexOfDistinct(Merged(relations), |before|);
      }
    }
  }

  /** A merged row keeps the name, category and source of the first row of its key. */
  lemma {:induction false} MergedKeepsFirst(relations: seq<Relation>, key: RelationKey)
    requires HasKey(relations, key)
    ensures IndexOf(Merged(relations), key) < |Merged(relations)| && IndexOf(relations, key) < |relations|
    ensures var row, first := Merged(relations)[IndexOf(Merged(relations), key)], relations[IndexOf(relations, key)];
            row.Key() == key && row.topicName == first.topicName && row.category == first.category && row.source == first.source
  {
    var prefix, r := relations[..|relations| - 1], relations[|relations| - 1];
    assert relations == prefix + [r];
    MergedKeys(relations, key);
    MergedKeys(prefix, key);
    MergedDistinct(relations);
    HasKeySnoc(prefix, r, key);
    IndexOfSnoc(prefix, r, key);
    if HasKey(prefix, key) {
      MergedKeepsFirst(prefix, key);
      IndexOfDistinct(Merged(relations), IndexOf(Merged(prefix), key));
    } else {
      IndexOfDistinct(Merged(relations), |Merged(prefix)|);
    }
  }

  lemma IndexOfSnoc(rows: seq<Relation>, r: Relation, key: RelationKey)
    ensures IndexOf(rows + [r], key) == if HasKey(rows, key) then IndexOf(rows, key)
                                        else if r.Key() == key then |rows| else |rows| + 1
    ensures HasKey(rows, key) <==> IndexOf(rows, key) < |rows|
  {
  }

  /** The rows' keys first appear, in the input, one after the other. */
  ghost predicate InOrder(rows: seq<Relation>, relations: seq<Relation>) {
    && (forall i :: 0 <= i < |rows| ==> HasKey(relations, rows[i].Key()))
    && (forall i, j :: 0 <= i < j < |rows| ==>
          IndexOf(relations, rows[i].Key()) < IndexOf(relations, rows[j].Key()))
  }

  lemma InOrderNext(rows: seq<Relation>, relations: seq<Relation>, r: Relation)
    requires InOrder(rows, relations)
    ensures InOrder(rows, relations + [r])
    ensures !HasKey(relations, r.Key()) ==> InOrder(rows + [r], relations + [r])
  {
    forall i | 0 <= i < |rows|
      ensures HasKey(relations + [r], rows[i].Key())
      ensures IndexOf(relations + [r], rows[i].Key()) == IndexOf(relations, rows[i].Key()) < |relations|
    {
      IndexOfSnoc(relations, r, rows[i].Key());
      HasKeySnoc(relations, r, rows[i].Key());
    }
    IndexOfSnoc(relations, r, r.Key());
    HasKeySnoc(relations, r, r.Key());
  }

  lemma InOrderByKeys(rows: seq<Relation>, same: seq<Relation>, relations: seq<Relation>)
    requires InOrder(rows, relations) && |same| == |rows|
    requires forall i :: 0 <= i < |rows| ==> same[i].Key() == rows[i].Key()
    ensures InOrder(same, relations)
  {
  }

  lemma InsertInOrder(rows: seq<Relation>, relations: seq<Relation>, r: Relation)
    requires InOrder(rows, relations) && (HasKey(rows, r.Key()) <==> HasKey(relations, r.Key()))
    ensures InOrder(Insert(rows, r), relations + [r])
  {
    InOrderNext(rows, relations, r);
    if HasKey(rows, r.Key()) {
      InOrderByKeys(rows, Insert(rows, r), relations + [r]);
    } else {
      assert Insert(rows, r) == rows + [r];
    }
  }

  /** Rows come out in the order in which their keys first appear. */
  lemma {:induction false} MergedOrder(relations: seq<Relation>)
    ensures InOrder(Merged(relations), relations)
  {
    if relations != [] {
      var prefix, r := relations[..|relations| - 1], relations[|relations| - 1];
      MergedOrder(prefix);
      MergedKeys(prefix, r.Key());
      InsertInOrder(Merged(prefix), prefix, r);
      assert relations == prefix + [r];
    }
  }

  lemma {:induction false} TotalHitsUpdate(rows: seq<Relation>, i: nat, r: Relation)
    requires i < |rows|
    ensures TotalHits(rows[i := r]) == TotalHits(rows) - rows[i].hitCount + r.hitCount
  {
    var n := |rows| - 1;
    if i < n {
      TotalHitsUpdate(rows[..n], i, r);
      assert rows[i := r][..n] == rows[..n][i := r];
    } else {
      assert rows[i := r][..n] == rows[..n];
    }
  }

  lemma InsertHits(rows: seq<Relation>, r: Relation)
    ensures TotalHits(Insert(rows, r)) == TotalHits(rows) + r.hitCount
  {
    var i := IndexOf(rows, r.Key());
    if i < |rows| {
      TotalHitsUpdate(rows, i, Absorb(rows[i], r));
    } else {
      assert (rows + [r])[..|rows|] == rows;
    }
  }

  /** No hit is lost or invented. */
  lemma {:induction false} MergeConservesHits(relations: seq<Relation>)
    ensures TotalHits(Merged(relations)) == TotalHits(relations)
  {
    if relations != [] {
      MergeConservesHits(relations[..|relations| - 1]);
      InsertHits(Merged(relations[..|relations| - 1]), relations[|relations| - 1]);
    }
  }

  lemma {:induction false} MergeOfDistinct(rows: seq<Relation>)
    requires DistinctKeys(rows)
    ensures Merged(rows) == rows
  {
    if rows != [] {
      MergeOfDistinct(rows[..|rows| - 1]);
      IndexOfDistinct(rows, |rows| - 1);
    }
  }

  lemma MergeIdempotent(relations: seq<Relation>)
    ensures Merged(Merged(relations)) == Merged(relations)
  {
    MergedDistinct(relations);
    MergeOfDistinct(Merged(relations));
  }
}
