/**
 * A stable insertion sort by an integer key. It stands for `Array.prototype.sort`
 * with a numeric comparator (`(a, b) => key(a) - key(b)`), which is stable, and for
 * the database's `.sort(...)` of the listings, whose order among equal keys the
 * model takes to be the stored order.
 */
module Sorting {

  predicate SortedBy<T>(s: seq<T>, key: T -> int) {
    forall i, j :: 0 <= i < j < |s| ==> key(s[i]) <= key(s[j])
  }

  /** Insert `x` before the first element whose key is not below its own. */
  function Insert<T>(x: T, s: seq<T>, key: T -> int): (r: seq<T>)
    ensures multiset(r) == multiset(s) + multiset{x}
    ensures |r| == |s| + 1
  {
    if s == [] || key(x) <= key(s[0]) then [x] + s
    else
      assert s == [s[0]] + s[1..];
      [s[0]] + Insert(x, s[1..], key)
  }

  /** `s.slice().sort((a, b) => key(a) - key(b))`. */
  function SortBy<T>(s: seq<T>, key: T -> int): (r: seq<T>)
    ensures multiset(r) == multiset(s)
    ensures |r| == |s|
  {
    if s == [] then []
    else
      assert s == [s[0]] + s[1..];
      Insert(s[0], SortBy(s[1..], key), key)
  }

  lemma {:induction false} InsertSorted<T>(x: T, s: seq<T>, key: T -> int)
    requires SortedBy(s, key)
    ensures SortedBy(Insert(x, s, key), key)
  {
    if s != [] && key(x) > key(s[0]) {
      InsertSorted(x, s[1..], key);
      var r := Insert(x, s, key);
      forall j | 0 < j < |r|
        ensures key(r[0]) <= key(r[j])
      {
        assert r[j] in multiset(Insert(x, s[1..], key));
        assert r[j] == x || r[j] in multiset(s[1..]);
      }
    }
  }

  /** The sorted copy is in non-decreasing key order. */
  lemma {:induction false} SortBySorted<T>(s: seq<T>, key: T -> int)
    ensures SortedBy(SortBy(s, key), key)
  {
    if s != [] {
      SortBySorted(s[1..], key);
      InsertSorted(s[0], SortBy(s[1..], key), key);
    }
  }
  /** Every element comes, by `before`, no later than each element after it. */
  predicate InOrder<T>(s: seq<T>, before: (T, T) -> bool) {
    forall i, j :: 0 <= i < j < |s| ==> before(s[i], s[j])
  }

  /** Ordered by `key`, and by `before` among elements with equal keys. */
  predicate SortedThenBy<T>(s: seq<T>, key: T -> int, before: (T, T) -> bool) {
    forall i, j :: 0 <= i < j < |s| ==>
      key(s[i]) < key(s[j]) || (key(s[i]) == key(s[j]) && before(s[i], s[j]))
  }

  lemma {:induction false} InsertStable<T>(x: T, s: seq<T>, key: T -> int, before: (T, T) -> bool)
    requires SortedThenBy(s, key, before)
    requires forall y :: y in s ==> before(x, y)
    ensures SortedThenBy(Insert(x, s, key), key, before)
  {
    var r := Insert(x, s, key);
    if s == [] || key(x) <= key(s[0]) {
      forall j | 0 < j < |r|
        ensures key(r[0]) < key(r[j]) || (key(r[0]) == key(r[j]) && before(r[0], r[j]))
      {
        assert r[j] == s[j - 1] && r[j] in s;
        if j > 1 {
          assert key(s[0]) <= key(s[j - 1]);
        }
      }
    } else {
      var t := s[1..];
      forall y | y in t
        ensures before(x, y)
      {
        assert y in s;
      }
      InsertStable(x, t, key, before);
      forall j | 0 < j < |r|
        ensures key(r[0]) < key(r[j]) || (key(r[0]) == key(r[j]) && before(r[0], r[j]))
      {
        assert r[j] in multiset(Insert(x, t, key));
        if r[j] != x {
          assert r[j] in t;
          var k :| 0 <= k < |t| && t[k] == r[j];
          assert s[k + 1] == r[j];
        }
      }
    }
  }

  /** The sort is stable: a listing already ordered by `before` and then sorted by
      `key` is ordered by `key` first and by `before` among equal keys. */
  lemma {:induction false} SortByStable<T>(s: seq<T>, key: T -> int, before: (T, T) -> bool)
    requires InOrder(s, before)
    ensures SortedThenBy(SortBy(s, key), key, before)
  {
    if s != [] {
      var t := s[1..];
      assert InOrder(t, before) by {
        forall i, j | 0 <= i < j < |t|
          ensures before(t[i], t[j])
        {
          assert t[i] == s[i + 1] && t[j] == s[j + 1];
        }
      }
      SortByStable(t, key, before);
      forall y | y in SortBy(t, key)
        ensures before(s[0], y)
      {
        assert y in multiset(SortBy(t, key));
        var k :| 0 <= k < |t| && t[k] == y;
        assert s[k + 1] == y;
      }
      InsertStable(s[0], SortBy(t, key), key, before);
    }
  }
}
