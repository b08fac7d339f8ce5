/**
 * Python's `sorted(xs, key=k)` and `xs.sort(key=k, reverse=True)` for string keys, as stable
 * insertion sorts. Both sorts are permutations of their input in the order of their key.
 */
module Sorting {
  import opened Strs

  /** Keys never decrease from one position to the next. */
  predicate SortedUp<T>(s: seq<T>, key: T -> string)
  {
    forall i :: 0 <= i < |s| - 1 ==> Le(key(s[i]), key(s[i + 1]))
  }

  /** Keys never increase from one position to the next. */
  predicate SortedDown<T>(s: seq<T>, key: T -> string)
  {
    forall i :: 0 <= i < |s| - 1 ==> Le(key(s[i + 1]), key(s[i]))
  }

  /** Insert `x` after every element whose key is not larger, which keeps the sort stable. */
  function InsertUp<T>(l: seq<T>, x: T, key: T -> string): (r: seq<T>)
    requires SortedUp(l, key)
    ensures SortedUp(r, key)
    ensures multiset(r) == multiset(l) + multiset{x}
    ensures |r| > 0 && (r[0] == x || (l != [] && r[0] == l[0]))
  {
    if l == [] then [x]
    else if Lt(key(x), key(l[0])) then [x] + l
    else
      LtTotal(key(x), key(l[0]));
      assert l == [l[0]] + l[1..];
      [l[0]] + InsertUp(l[1..], x, key)
  }

  /** `sorted(s, key=key)`: ordered by key, the same elements. */
  function SortUp<T>(s: seq<T>, key: T -> string): (r: seq<T>)
    ensures SortedUp(r, key)
    ensures multiset(r) == multiset(s)
  {
    if s == [] then []
    else
      assert s == s[..|s| - 1] + [s[|s| - 1]];
      InsertUp(SortUp(s[..|s| - 1], key), s[|s| - 1], key)
  }

  /** Insert `x` after every element whose key is not smaller, which keeps the sort stable. */
  function InsertDown<T>(l: seq<T>, x: T, key: T -> string): (r: seq<T>)
    requires SortedDown(l, key)
    ensures SortedDown(r, key)
    ensures multiset(r) == multiset(l) + multiset{x}
    ensures |r| > 0 && (r[0] == x || (l != [] && r[0] == l[0]))
  {
    if l == [] then [x]
    else if Lt(key(l[0]), key(x)) then [x] + l
    else
      LtTotal(key(x), key(l[0]));
      assert l == [l[0]] + l[1..];
      [l[0]] + InsertDown(l[1..], x, key)
  }

  /** `s.sort(key=key, reverse=True)`: ordered by key, largest first, the same elements. */
  function SortDown<T>(s: seq<T>, key: T -> string): (r: seq<T>)
    ensures SortedDown(r, key)
    ensures multiset(r) == multiset(s)
  {
    if s == [] then []
    else
      assert s == s[..|s| - 1] + [s[|s| - 1]];
      InsertDown(SortDown(s[..|s| - 1], key), s[|s| - 1], key)
  }

  /** Two sequences with the same elements, counted with multiplicity, have the same members. */
  lemma SameMembers<T>(r: seq<T>, s: seq<T>)
    requires multiset(r) == multiset(s)
    ensures forall x :: x in r <==> x in s
  {
    forall x
      ensures x in r <==> x in s
    {
      assert x in r <==> x in multiset(r);
      assert x in s <==> x in multiset(s);
    }
  }

  /**
   * A permutation of a sequence whose elements differ in `f` differs in `f` too: two positions
   * with the same `f` value would hold one element of `s` twice.
   */
  lemma PermutationKeepsDistinct<T, K>(r: seq<T>, s: seq<T>, f: T -> K)
    requires multiset(r) == multiset(s)
    requires forall i, j :: 0 <= i < j < |s| ==> f(s[i]) != f(s[j])
    ensures forall i, j :: 0 <= i < j < |r| ==> f(r[i]) != f(r[j])
  {
    forall i, j | 0 <= i < j < |r|
      ensures f(r[i]) != f(r[j])
    {
      if f(r[i]) == f(r[j]) {
        SameMembers(r, s);
        assert r[i] in s && r[j] in s;
        var p :| 0 <= p < |s| && s[p] == r[i];
        var q :| 0 <= q < |s| && s[q] == r[j];
        assert p == q;
        TwiceCounted(r, i, j);
        OnceCounted(s, p, f);
        assert false;
      }
    }
  }

  /** An element at two positions is counted at least twice. */
  lemma TwiceCounted<T>(r: seq<T>, i: int, j: int)
    requires 0 <= i < j < |r| && r[i] == r[j]
    ensures multiset(r)[r[i]] >= 2
  {
    assert r == r[..j] + [r[j]] + r[j + 1..];
    assert r[i] in r[..j];
    assert multiset(r[..j])[r[i]] >= 1;
  }

  /** An element of a sequence whose elements differ in `f` is counted once. */
  lemma {:induction false} OnceCounted<T, K>(s: seq<T>, p: int, f: T -> K)
    requires 0 <= p < |s|
    requires forall i, j :: 0 <= i < j < |s| ==> f(s[i]) != f(s[j])
    ensures multiset(s)[s[p]] == 1
  {
    var x := s[p];
    assert s == s[..p] + [x] + s[p + 1..];
    forall k | 0 <= k < |s| && k != p
      ensures s[k] != x
    {
      if k < p {
        assert f(s[k]) != f(s[p]);
      } else {
        assert f(s[p]) != f(s[k]);
      }
    }
    assert x !in s[..p];
    assert x !in s[p + 1..];
  }
}
