/** Batched upserts. Rows go in as INSERT ... ON CONFLICT DO UPDATE statements of at most 500
    rows, inside one transaction. PostgreSQL refuses a statement that would touch the same
    row twice, and then nothing is written. */
module Batches {

  const BATCH_SIZE := 500

  /** No two keys of one statement are equal. */
  ghost predicate NoRepeatInBatch<T>(keys: seq<T>) {
    forall i, j :: 0 <= i < j < |keys| && i / BATCH_SIZE == j / BATCH_SIZE ==> keys[i] != keys[j]
  }

  /** The statement-by-statement check; the loop keeps the keys of the current statement. */
  method BatchesAccepted<T(==)>(keys: seq<T>) returns (ok: bool)
    ensures ok <==> NoRepeatInBatch(keys)
  {
    var seen: set<T> := {};
    for i := 0 to |keys|
      invariant forall k :: k in seen ==> exists j :: 0 <= j < i && j / BATCH_SIZE == (i - 1) / BATCH_SIZE && keys[j] == k
      invariant forall j :: 0 <= j < i && j / BATCH_SIZE == (i - 1) / BATCH_SIZE ==> keys[j] in seen
      invariant forall a, b :: 0 <= a < b < i && a / BATCH_SIZE == b / BATCH_SIZE ==> keys[a] != keys[b]
    {
      if i % BATCH_SIZE == 0 {
        seen := {};
      }
      if keys[i] in seen { return false; }
      seen := seen + {keys[i]};
    }
    return true;
  }

  /** A repeat is refused exactly when both places fall into the same five hundred, counted
      from the first row. */
  lemma RepeatRefused<T>(keys: seq<T>, i: nat, j: nat, n: nat)
    requires i < j < |keys| && keys[i] == keys[j]
    ensures 500 * n <= i && j < 500 * (n + 1) ==> !NoRepeatInBatch(keys)
    ensures (forall a, b :: 0 <= a < b < |keys| && keys[a] == keys[b] ==> a == i && b == j) && i < 500 * n <= j ==>
              NoRepeatInBatch(keys)
  {
    if 500 * n <= i && j < 500 * (n + 1) {
      assert i / BATCH_SIZE == n == j / BATCH_SIZE;
    }
    if i < 500 * n <= j {
      assert i / BATCH_SIZE < n <= j / BATCH_SIZE;
    }
  }
}
