/**
 * `Array.prototype.sort` with a numeric key comparator, as the viewer and
 * the scraper use it (`b.created_at - a.created_at` and its reverse). The
 * engine's sort is stable; it is modelled as a stable insertion sort.
 */
module Sorting {

  /** `x` may come before `y`: its key is not smaller (descending) or not larger (ascending). */
  predicate InOrder<T>(key: T -> int, desc: bool, x: T, y: T) {
    if desc then key(x) >= key(y) else key(x) <= key(y)
  }

  ghost predicate Sorted<T>(key: T -> int, desc: bool, s: seq<T>) {
    forall i, j :: 0 <= i < j < |s| ==> InOrder(key, desc, s[i], s[j])
  }

  /** `x` placed before the first element it may precede. */
  function Insert<T>(key: T -> int, desc: bool, x: T, s: seq<T>): (r: seq<T>)
    ensures multiset(r) == multiset(s) + multiset{x}
    ensures |r| == |s| + 1
    ensures forall k :: 0 <= k < |r| ==> r[k] == x || r[k] in s
  {
    if s == [] then [x]
    else if InOrder(key, desc, x, s[0]) then [x] + s
    else
      assert s == [s[0]] + s[1..];
      [s[0]] + Insert(key, desc, x, s[1..])
  }

  lemma {:induction false} InsertSorted<T>(key: T -> int, desc: bool, x: T, s: seq<T>)
    requires Sorted(key, desc, s)
    ensures Sorted(key, desc, Insert(key, desc, x, s))
  {
    if s == [] {
    } else if InOrder(key, desc, x, s[0]) {
      var r := [x] + s;
      forall i, j | 0 <= i < j < |r| ensures InOrder(key, desc, r[i], r[j]) {
        if i > 0 {
          assert r[i] == s[i - 1] && r[j] == s[j - 1];
        } else if j > 1 {
          assert r[j] == s[j - 1];
          assert InOrder(key, desc, s[0], s[j - 1]);
        }
      }
    } else {
      InsertSorted(key, desc, x, s[1..]);
      var rest := Insert(key, desc, x, s[1..]);
      var r := [s[0]] + rest;
      forall k | 0 <= k < |rest| ensures InOrder(key, desc, s[0], rest[k]) {
        if rest[k] != x {
          var m :| 0 <= m < |s[1..]| && s[1..][m] == rest[k];
          assert s[m + 1] == rest[k];
        }
      }
      forall i, j | 0 <= i < j < |r| ensures InOrder(key, desc, r[i], r[j]) {
        if i > 0 { assert r[i] == rest[i - 1] && r[j] == rest[j - 1]; }
        else { assert r[j] == rest[j - 1]; }
      }
    }
  }

  /**
   * The sorted arrangement: every element of `s` exactly as often as in
   * `s`, in key order; elements with equal keys keep their input order.
   */
  function SortBy<T>(key: T -> int, desc: bool, s: seq<T>): (r: seq<T>)
    ensures Sorted(key, desc, r)
    ensures multiset(r) == multiset(s)
    ensures |r| == |s|
  {
    if s == [] then []
    else
      assert s == [s[0]] + s[1..];
      InsertSorted(key, desc, s[0], SortBy(key, desc, s[1..]));
      Insert(key, desc, s[0], SortBy(key, desc, s[1..]))
  }

  /** An input already in key order is left as it is. */
  lemma {:induction false} SortBySorted<T>(key: T -> int, desc: bool, s: seq<T>)
    requires Sorted(key, desc, s)
    ensures SortBy(key, desc, s) == s
  {
    if s != [] {
      var t := s[1..];
      assert Sorted(key, desc, t) by {
        forall i, j | 0 <= i < j < |t| ensures InOrder(key, desc, t[i], t[j]) {
          assert t[i] == s[i + 1] && t[j] == s[j + 1];
        }
      }
      SortBySorted(key, desc, t);
      if t != [] {
        assert t[0] == s[1];
        assert InOrder(key, desc, s[0], t[0]);
      }
      assert Insert(key, desc, s[0], t) == [s[0]] + t;
      assert s == [s[0]] + t;
    }
  }

  /** Sorting twice gives the same result as sorting once. */
  lemma SortByIdempotent<T>(key: T -> int, desc: bool, s: seq<T>)
    ensures SortBy(key, desc, SortBy(key, desc, s)) == SortBy(key, desc, s)
  {
    SortBySorted(key, desc, SortBy(key, desc, s));
  }
}
