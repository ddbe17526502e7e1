/**
  Sorting by a strict "comes before" comparator, the contract of Swift's
  `sorted(by:)`: the result is a permutation of the input in which no element
  comes before an element placed ahead of it. Ties are left unspecified, so
  only that much is claimed; the comparator is applied to a key of each element.
 */
module Sorting {

  /** A strict weak order: asymmetric, with transitive incomparability-or-less. */
  ghost predicate StrictWeakOrder<K(!new)>(less: (K, K) -> bool) {
    && (forall a, b :: less(a, b) ==> !less(b, a))
    && (forall a, b, c :: !less(a, b) && !less(b, c) ==> !less(a, c))
  }

  /** No element is strictly before one that precedes it. */
  ghost predicate SortedBy<T, K>(s: seq<T>, key: T -> K, less: (K, K) -> bool) {
    forall i, j :: 0 <= i < j < |s| ==> !less(key(s[j]), key(s[i]))
  }

  /** Inserts `x` into the sorted `s` ahead of the first element it is not after. */
  function Insert<T, K(!new)>(x: T, s: seq<T>, key: T -> K, less: (K, K) -> bool): (r: seq<T>)
    requires StrictWeakOrder(less)
    requires SortedBy(s, key, less)
    ensures SortedBy(r, key, less)
    ensures multiset(r) == multiset(s) + multiset{x}
    decreases |s|
  {
    if |s| == 0 then [x]
    else if less(key(s[0]), key(x)) then
      var tail := Insert(x, s[1..], key, less);
      HeadStaysFirst(x, s, tail, key, less);
      [s[0]] + tail
    else
      [x] + s
  }

  /** When `x` goes after the head of `s`, the head stays first. */
  lemma HeadStaysFirst<T, K(!new)>(x: T, s: seq<T>, tail: seq<T>, key: T -> K, less: (K, K) -> bool)
    requires StrictWeakOrder(less)
    requires |s| > 0 && SortedBy(s, key, less) && less(key(s[0]), key(x))
    requires SortedBy(tail, key, less) && multiset(tail) == multiset(s[1..]) + multiset{x}
    ensures SortedBy([s[0]] + tail, key, less)
    ensures multiset([s[0]] + tail) == multiset(s) + multiset{x}
  {
    assert s == [s[0]] + s[1..];
    forall k | 0 <= k < |tail| ensures !less(key(tail[k]), key(s[0])) {
      assert tail[k] in multiset(tail);
      if tail[k] != x {
        assert tail[k] in multiset(s[1..]);
        var j :| 0 <= j < |s[1..]| && s[1..][j] == tail[k];
        assert s[j + 1] == tail[k];
      }
    }
    var r := [s[0]] + tail;
    forall i, j | 0 <= i < j < |r| ensures !less(key(r[j]), key(r[i])) {
      assert r[j] == tail[j - 1];
      if i > 0 {
        assert r[i] == tail[i - 1];
      }
    }
  }

  /** Insertion sort: a sorted permutation of `s`. */
  function SortBy<T, K(!new)>(s: seq<T>, key: T -> K, less: (K, K) -> bool): (r: seq<T>)
    requires StrictWeakOrder(less)
    ensures SortedBy(r, key, less)
    ensures multiset(r) == multiset(s)
    ensures |r| == |s|
    decreases |s|
  {
    if |s| == 0 then []
    else
      var r := Insert(s[|s| - 1], SortBy(s[..|s| - 1], key, less), key, less);
      assert s == s[..|s| - 1] + [s[|s| - 1]];
      assert |r| == |multiset(r)|;
      r
  }

  /** The usual strict order on integers. */
  predicate IntLess(a: int, b: int) {
    a < b
  }
}
