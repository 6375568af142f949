/**
 * A stable insertion sort on an integer key. It stands for both orderings
 * the drivers rely on: SQL's `ORDER BY` on the statement-order column and
 * Java's `Stream.sorted` with a reversed `comparingInt` comparator (the key
 * is then negated).
 */
module Sorting {

  ghost predicate SortedBy<T>(s: seq<T>, key: T -> int)
  {
    forall i, j :: 0 <= i < j < |s| ==> key(s[i]) <= key(s[j])
  }

  /** Inserts `x` in front of the first element whose key is not smaller. */
  function InsertByKey<T>(x: T, s: seq<T>, key: T -> int): (r: seq<T>)
    requires SortedBy(s, key)
    ensures SortedBy(r, key)
    ensures multiset(r) == multiset(s) + multiset{x}
  {
    if |s| == 0 || key(x) <= key(s[0]) then [x] + s
    else
      var rest := InsertByKey(x, s[1..], key);
      assert s == [s[0]] + s[1..];
      LowerBoundPrepend(s[0], x, s[1..], rest, key);
      [s[0]] + rest
  }

  /** A head whose key bounds every element of `rest` (the elements of `s` plus `x`) from below can be prepended. */
  lemma LowerBoundPrepend<T>(head: T, x: T, s: seq<T>, rest: seq<T>, key: T -> int)
    requires SortedBy(rest, key)
    requires multiset(rest) == multiset(s) + multiset{x}
    requires key(head) <= key(x)
    requires forall i :: 0 <= i < |s| ==> key(head) <= key(s[i])
    ensures SortedBy([head] + rest, key)
  {
    forall j | 0 <= j < |rest|
      ensures key(head) <= key(rest[j])
    {
      var y := rest[j];
      assert y in multiset(rest);
      if y != x {
        assert y in multiset(s);
        var i :| 0 <= i < |s| && s[i] == y;
      }
    }
  }

  function SortByKey<T>(s: seq<T>, key: T -> int): (r: seq<T>)
    ensures SortedBy(r, key)
    ensures multiset(r) == multiset(s)
  {
    if |s| == 0 then []
    else
      assert s == [s[0]] + s[1..];
      InsertByKey(s[0], SortByKey(s[1..], key), key)
  }

  /** Sorting a sequence that is already in key order leaves it unchanged. */
  lemma {:induction false} SortSortedIsIdentity<T>(s: seq<T>, key: T -> int)
    requires SortedBy(s, key)
    ensures SortByKey(s, key) == s
    decreases |s|
  {
    if |s| > 0 {
      SortSortedIsIdentity(s[1..], key);
      assert s == [s[0]] + s[1..];
    }
  }
}
