/**
 * Ordering query results by an integer column. `Sort` is a stable insertion
 * sort: it models Python's `sorted(items, key=..., reverse=...)`, which keeps
 * elements with equal keys in their original order in both directions. The
 * SQL backends order by the same column but promise nothing about ties; their
 * models use `Sort` and state only `SortedBy` and the permutation.
 */
module PrioritySort {

  /** `a` may come before `b` in the requested direction. */
  predicate InOrder(a: int, b: int, descending: bool)
  {
    if descending then a >= b else a <= b
  }

  ghost predicate SortedBy<T>(s: seq<T>, key: T -> int, descending: bool)
  {
    forall i, j :: 0 <= i < j < |s| ==> InOrder(key(s[i]), key(s[j]), descending)
  }

  /** The elements of `s` whose key is `k`, in the order they have in `s`. */
  function WithKey<T>(s: seq<T>, key: T -> int, k: int): seq<T>
  {
    if s == [] then []
    else if key(s[0]) == k then [s[0]] + WithKey(s[1..], key, k)
    else WithKey(s[1..], key, k)
  }

  /** Puts `x` before the first element of `s` it may precede. */
  function Insert<T>(x: T, s: seq<T>, key: T -> int, descending: bool): seq<T>
  {
    if s == [] || InOrder(key(x), key(s[0]), descending) then [x] + s
    else [s[0]] + Insert(x, s[1..], key, descending)
  }

  function Sort<T>(s: seq<T>, key: T -> int, descending: bool): seq<T>
  {
    if s == [] then [] else Insert(s[0], Sort(s[1..], key, descending), key, descending)
  }

  lemma {:induction false} InsertPermutes<T>(x: T, s: seq<T>, key: T -> int, descending: bool)
    ensures multiset(Insert(x, s, key, descending)) == multiset(s) + multiset{x}
  {
    if s != [] && !InOrder(key(x), key(s[0]), descending) {
      InsertPermutes(x, s[1..], key, descending);
      assert s == [s[0]] + s[1..];
    }
  }

  /** Sorting only reorders: the result is a permutation of the input. */
  lemma {:induction false} SortPermutes<T>(s: seq<T>, key: T -> int, descending: bool)
    ensures multiset(Sort(s, key, descending)) == multiset(s)
  {
    if s != [] {
      SortPermutes(s[1..], key, descending);
      InsertPermutes(s[0], Sort(s[1..], key, descending), key, descending);
      assert s == [s[0]] + s[1..];
    }
  }

  lemma {:induction false} InsertSorted<T>(x: T, s: seq<T>, key: T -> int, descending: bool)
    requires SortedBy(s, key, descending)
    ensures SortedBy(Insert(x, s, key, descending), key, descending)
  {
    if s != [] && !InOrder(key(x), key(s[0]), descending) {
      var tail := Insert(x, s[1..], key, descending);
      InsertSorted(x, s[1..], key, descending);
      InsertPermutes(x, s[1..], key, descending);
      forall j | 0 <= j < |tail| ensures InOrder(key(s[0]), key(tail[j]), descending) {
        assert tail[j] in multiset(tail);
        if tail[j] != x {
          assert tail[j] in multiset(s[1..]);
          var m :| 0 <= m < |s[1..]| && s[1..][m] == tail[j];
          assert s[m + 1] == tail[j];
        }
      }
    }
  }

  /** The result is ordered by `key` in the requested direction. */
  lemma {:induction false} SortSorted<T>(s: seq<T>, key: T -> int, descending: bool)
    ensures SortedBy(Sort(s, key, descending), key, descending)
  {
    if s != [] {
      SortSorted(s[1..], key, descending);
      InsertSorted(s[0], Sort(s[1..], key, descending), key, descending);
    }
  }

  lemma {:induction false} InsertWithKey<T>(x: T, s: seq<T>, key: T -> int, descending: bool, k: int)
    ensures WithKey(Insert(x, s, key, descending), key, k)
         == if key(x) == k then [x] + WithKey(s, key, k) else WithKey(s, key, k)
  {
    var r := Insert(x, s, key, descending);
    if s == [] || InOrder(key(x), key(s[0]), descending) {
      assert r[1..] == s;
    } else {
      InsertWithKey(x, s[1..], key, descending, k);
      assert r[1..] == Insert(x, s[1..], key, descending);
    }
  }

  /**
   * Stability: for every key value, the elements carrying it appear in the
   * result in the same relative order as in the input.
   */
  lemma {:induction false} SortStable<T>(s: seq<T>, key: T -> int, descending: bool, k: int)
    ensures WithKey(Sort(s, key, descending), key, k) == WithKey(s, key, k)
  {
    if s != [] {
      SortStable(s[1..], key, descending, k);
      InsertWithKey(s[0], Sort(s[1..], key, descending), key, descending, k);
    }
  }
}
