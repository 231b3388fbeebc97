/** Ordering by an integer key.  Go's sort.Slice is a library call whose tie order
    is unspecified.  This module provides a result sorted by the key and a
    permutation of its input, in one fixed order among equal keys that is not
    the input order.  Most solvers rely only on sortedness and permutation;
    day 8's first answer also depends on the order among equal distances. */
module Sorting {

  predicate SortedBy<T>(s: seq<T>, key: T -> int) {
    forall i, j :: 0 <= i < j < |s| ==> key(s[i]) <= key(s[j])
  }

  /** Puts x in front of the first element whose key is at least key(x). */
  function InsertBy<T>(x: T, s: seq<T>, key: T -> int): seq<T> {
    if s == [] then [x]
    else if key(x) <= key(s[0]) then [x] + s
    else [s[0]] + InsertBy(x, s[1..], key)
  }

  lemma {:induction false} InsertByPermutes<T>(x: T, s: seq<T>, key: T -> int)
    ensures multiset(InsertBy(x, s, key)) == multiset(s) + multiset{x}
  {
    if s != [] && key(x) > key(s[0]) {
      InsertByPermutes(x, s[1..], key);
      assert s == [s[0]] + s[1..];
    }
  }

  lemma {:induction false} InsertBySorts<T>(x: T, s: seq<T>, key: T -> int)
    requires SortedBy(s, key)
    ensures SortedBy(InsertBy(x, s, key), key)
  {
    if s != [] && key(x) > key(s[0]) {
      var rest := InsertBy(x, s[1..], key);
      InsertBySorts(x, s[1..], key);
      InsertByPermutes(x, s[1..], key);
      forall k | 0 <= k < |rest| ensures key(s[0]) <= key(rest[k]) {
        assert rest[k] in multiset(s[1..]) + multiset{x};
      }
    }
  }

  /** Insertion sort: stands for sort.Slice with `less(i, j) = key(s[i]) < key(s[j])`. */
  function SortBy<T>(s: seq<T>, key: T -> int): (r: seq<T>)
    ensures SortedBy(r, key)
    ensures multiset(r) == multiset(s)
    ensures |r| == |s|
  {
    if s == [] then []
    else
      var init := SortBy(s[..|s| - 1], key);
      InsertBySorts(s[|s| - 1], init, key);
      InsertByPermutes(s[|s| - 1], init, key);
      assert s == s[..|s| - 1] + [s[|s| - 1]];
      InsertBy(s[|s| - 1], init, key)
  }
}
