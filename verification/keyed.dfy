/**
 * Lists of records told apart by a key: the insertion-ordered values of a Python dict keyed by
 * id, or a list that keeps one record per (instructor, date).
 */
module Keyed {
  import opened Seqs

  /** No two positions carry the same key. */
  predicate UniqueBy<T, K(==)>(s: seq<T>, key: T -> K)
  {
    forall i, j :: 0 <= i < j < |s| ==> key(s[i]) != key(s[j])
  }

  /** `store.get(k)` as a position: the first record with key `k`, or -1. */
  function IndexOfKey<T(==), K(==)>(s: seq<T>, key: T -> K, k: K): (i: int)
    ensures -1 <= i < |s|
    ensures i >= 0 ==> key(s[i]) == k
    ensures i == -1 <==> forall x :: x in s ==> key(x) != k
  {
    IndexWhere(s, (x: T) => key(x) == k)
  }

  /** With unique keys, the record at `i` is the one found by its key. */
  lemma IndexOfStoredKey<T, K>(s: seq<T>, key: T -> K, i: int)
    requires UniqueBy(s, key) && 0 <= i < |s|
    ensures IndexOfKey(s, key, key(s[i])) == i
  {
  }

  /** With unique keys, two stored records with the same key are the same record. */
  lemma SameKeySame<T, K>(s: seq<T>, key: T -> K, x: T, y: T)
    requires UniqueBy(s, key) && x in s && y in s && key(x) == key(y)
    ensures x == y
  {
    var i :| 0 <= i < |s| && s[i] == x;
    var j :| 0 <= j < |s| && s[j] == y;
    assert !(i < j) && !(j < i);
  }

  /** With unique keys, looking up a stored record's key finds that record. */
  lemma StoredKeyValue<T, K>(s: seq<T>, key: T -> K, x: T)
    requires UniqueBy(s, key) && x in s
    ensures 0 <= IndexOfKey(s, key, key(x)) < |s| && s[IndexOfKey(s, key, key(x))] == x
  {
    var i :| 0 <= i < |s| && s[i] == x;
    IndexOfStoredKey(s, key, i);
  }

  /** Replacing a record by one with the same key keeps the keys unique. */
  lemma ReplaceKeepsUnique<T, K>(s: seq<T>, key: T -> K, i: int, b: T)
    requires 0 <= i < |s| && key(b) == key(s[i])
    ensures UniqueBy(s, key) ==> UniqueBy(s[i := b], key)
  {
  }

  /** Appending a record with a new key keeps the keys unique. */
  lemma AppendKeepsUnique<T, K>(s: seq<T>, key: T -> K, b: T)
    requires UniqueBy(s, key) && forall x :: x in s ==> key(x) != key(b)
    ensures UniqueBy(s + [b], key)
  {
    forall i, j | 0 <= i < j < |s| + 1
      ensures key((s + [b])[i]) != key((s + [b])[j])
    {
      if j == |s| {
        assert (s + [b])[i] in s;
      }
    }
  }

  /** Removing position `i` keeps unique any key that was unique. */
  lemma RemoveKeepsUnique<T, K>(s: seq<T>, key: T -> K, i: int, t: seq<T>)
    requires 0 <= i < |s| && t == s[..i] + s[i + 1..]
    ensures UniqueBy(s, key) ==> UniqueBy(t, key)
  {
    assert forall j :: 0 <= j < |t| ==> t[j] == if j < i then s[j] else s[j + 1];
  }

  /** What removing the record with a unique key leaves: every other record, and nothing else. */
  lemma RemoveByKey<T, K>(s: seq<T>, key: T -> K, i: int, t: seq<T>)
    requires UniqueBy(s, key) && 0 <= i < |s| && t == s[..i] + s[i + 1..]
    ensures forall x :: x in t <==> x in s && key(x) != key(s[i])
  {
    assert forall j :: 0 <= j < |t| ==> t[j] == if j < i then s[j] else s[j + 1];
    forall x | x in s && key(x) != key(s[i])
      ensures x in t
    {
      var j :| 0 <= j < |s| && s[j] == x;
      if j < i {
        assert t[j] == x;
      } else {
        assert t[j - 1] == x;
      }
    }
  }
}
