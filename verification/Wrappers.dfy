/** Result types shared by the other modules, and iteration in unspecified order. */
module Wrappers {

  datatype Option<+T> = None | Some(value: T)

  datatype Result<+T, +E> = Success(value: T) | Failure(error: E)

  /** The members of a list. */
  function Elements<T(==)>(items: seq<T>): set<T> {
    set x | x in items
  }

  predicate NoRepeats<T(==)>(items: seq<T>) {
    forall i, j :: 0 <= i < j < |items| ==> items[i] != items[j]
  }

  /** The next key of a Go map range: any of those left. */
  method AnyOf<T>(keys: set<T>) returns (key: T)
    requires keys != {}
    ensures key in keys
  {
    key :| key in keys;
  }

  ghost function SomeOf<T>(items: set<T>): (item: T)
    requires items != {}
    ensures item in items
  {
    var item :| item in items; item
  }

  lemma SomeKey<K, V>(m: map<K, V>) returns (key: K)
    requires m != map[]
    ensures key in m
  {
    key :| key in m;
  }

  lemma SameMap<K, V>(a: map<K, V>, b: map<K, V>)
    requires forall k :: k in a <==> k in b
    requires forall k :: k in a ==> k in b && a[k] == b[k]
    ensures a == b
  {
  }

  lemma SameSet<T>(a: set<T>, b: set<T>)
    requires forall x :: x in a <==> x in b
    ensures a == b
  {
  }

  lemma UnionSize<T>(a: set<T>, b: set<T>)
    ensures |a + b| == |a| + |b| - |a * b|
  {
    assert a + b == a + (b - a);
    assert b == (b - a) + a * b;
  }
}
