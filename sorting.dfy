/**
 * The ordering a list view applies when it is given an item sorter: items are ranked by a key
 * (the item's column texts) under a comparator that says whether one key may stand before
 * another. The comparator is only assumed to be total.
 */
module Sorting {

  /** Any two keys can be ranked one way or the other. */
  ghost predicate Total<K(!new)>(leq: (K, K) -> bool) {
    forall a, b :: leq(a, b) || leq(b, a)
  }

  /** Every element may stand before its successor. */
  predicate SortedBy<T, K>(key: T -> K, leq: (K, K) -> bool, s: seq<T>) {
    forall i :: 0 < i < |s| ==> leq(key(s[i - 1]), key(s[i]))
  }

  /** No element occurs twice (the list view holds distinct item objects). */
  predicate Distinct<T(==)>(s: seq<T>) {
    forall i, j :: 0 <= i < j < |s| ==> s[i] != s[j]
  }

  /** Puts `x` in front of the first element it may precede; on ties it goes first. */
  function Insert<T(==), K(!new)>(key: T -> K, leq: (K, K) -> bool, x: T, s: seq<T>): (r: seq<T>)
    ensures |r| == |s| + 1
    ensures multiset(r) == multiset(s) + multiset{x}
    ensures r[0] == x || (|s| > 0 && r[0] == s[0])
  {
    if s == [] || leq(key(x), key(s[0])) then
      [x] + s
    else
      assert s == [s[0]] + s[1..];
      [s[0]] + Insert(key, leq, x, s[1..])
  }

  /** Inserting into an ordered list under a total comparator keeps it ordered. */
  lemma {:induction false} InsertSorted<T, K(!new)>(key: T -> K, leq: (K, K) -> bool, x: T, s: seq<T>)
    ensures Total(leq) && SortedBy(key, leq, s) ==> SortedBy(key, leq, Insert(key, leq, x, s))
  {
    if Total(leq) && SortedBy(key, leq, s) && s != [] && !leq(key(x), key(s[0])) {
      assert SortedBy(key, leq, s[1..]);
      InsertSorted(key, leq, x, s[1..]);
      var t := Insert(key, leq, x, s[1..]);
      assert leq(key(s[0]), key(t[0]));
    }
  }

  /** Inserting a new element into a list without repetitions gives a list without repetitions. */
  lemma {:induction false} InsertDistinct<T, K(!new)>(key: T -> K, leq: (K, K) -> bool, x: T, s: seq<T>)
    ensures Distinct(s) && x !in s ==> Distinct(Insert(key, leq, x, s))
  {
    if Distinct(s) && x !in s && s != [] && !leq(key(x), key(s[0])) {
      assert s == [s[0]] + s[1..];
      InsertDistinct(key, leq, x, s[1..]);
      var t := Insert(key, leq, x, s[1..]);
      assert s[0] !in multiset(t);
      assert Insert(key, leq, x, s) == [s[0]] + t;
    }
  }

  /** Insertion sort: stable, so items the comparator ranks equal keep their relative order. */
  function SortBy<T(==), K(!new)>(key: T -> K, leq: (K, K) -> bool, s: seq<T>): (r: seq<T>)
    ensures |r| == |s|
    ensures multiset(r) == multiset(s)
  {
    if s == [] then
      []
    else
      assert s == [s[0]] + s[1..];
      Insert(key, leq, s[0], SortBy(key, leq, s[1..]))
  }

  /** Under a total comparator the sorted list is in order. */
  lemma {:induction false} SortBySorted<T, K(!new)>(key: T -> K, leq: (K, K) -> bool, s: seq<T>)
    requires Total(leq)
    ensures SortedBy(key, leq, SortBy(key, leq, s))
  {
    if s != [] {
      SortBySorted(key, leq, s[1..]);
      InsertSorted(key, leq, s[0], SortBy(key, leq, s[1..]));
    }
  }

  /** Sorting a list without repetitions gives a list without repetitions. */
  lemma {:induction false} SortByDistinct<T, K(!new)>(key: T -> K, leq: (K, K) -> bool, s: seq<T>)
    requires Distinct(s)
    ensures Distinct(SortBy(key, leq, s))
  {
    if s != [] {
      assert s == [s[0]] + s[1..];
      assert Distinct(s[1..]);
      SortByDistinct(key, leq, s[1..]);
      var t := SortBy(key, leq, s[1..]);
      assert s[0] !in multiset(t);
      InsertDistinct(key, leq, s[0], t);
    }
  }

  /** Sorting is idempotent: a list that is already in order comes back unchanged. */
  lemma {:induction false} SortSortedIsIdentity<T, K(!new)>(key: T -> K, leq: (K, K) -> bool, s: seq<T>)
    requires SortedBy(key, leq, s)
    ensures SortBy(key, leq, s) == s
  {
    if s != [] {
      assert SortedBy(key, leq, s[1..]);
      SortSortedIsIdentity(key, leq, s[1..]);
      assert s == [s[0]] + s[1..];
    }
  }

  /** The first position of `x` in `s`. */
  function IndexOf<T(==)>(s: seq<T>, x: T): (k: nat)
    requires x in s
    ensures k < |s| && s[k] == x
    ensures forall j :: 0 <= j < k ==> s[j] != x
  {
    if s[0] == x then 0 else 1 + IndexOf(s[1..], x)
  }
}
