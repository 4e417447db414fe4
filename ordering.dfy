/** The stable sort behind `Array.prototype.sort` with a numeric comparator
    `(a, b) => key(a) - key(b)`: records come out in ascending key order, and
    records with equal keys keep the order they came in. */
module Ordering {

  ghost predicate SortedBy<T>(s: seq<T>, key: T -> int) {
    forall i, j :: 0 <= i < j < |s| ==> key(s[i]) <= key(s[j])
  }

  /** The records of `s` whose key is `k`, in the order `s` holds them. A sort
      is stable exactly when it leaves every such run unchanged. */
  function WithKey<T>(s: seq<T>, key: T -> int, k: int): (r: seq<T>)
    ensures |r| <= |s|
  {
    if s == [] then [] else (if key(s[0]) == k then [s[0]] else []) + WithKey(s[1..], key, k)
  }

  lemma {:induction false} WithKeySnoc<T>(s: seq<T>, x: T, key: T -> int, k: int)
    ensures WithKey(s + [x], key, k) == WithKey(s, key, k) + (if key(x) == k then [x] else [])
  {
    var tail := if key(x) == k then [x] else [];
    if s == [] {
      assert s + [x] == [x];
      assert WithKey([x], key, k) == tail + WithKey([], key, k);
    } else {
      var head := if key(s[0]) == k then [s[0]] else [];
      var u := s + [x];
      assert u[0] == s[0];
      assert u[1..] == s[1..] + [x];
      WithKeySnoc(s[1..], x, key, k);
      assert WithKey(u, key, k) == head + (WithKey(s[1..], key, k) + tail);
      assert WithKey(s, key, k) == head + WithKey(s[1..], key, k);
    }
  }

  lemma {:induction false} WithKeyAbsent<T>(s: seq<T>, key: T -> int, k: int)
    requires forall i :: 0 <= i < |s| ==> key(s[i]) != k
    ensures WithKey(s, key, k) == []
  {
    if s != [] {
      WithKeyAbsent(s[1..], key, k);
    }
  }

  /** Places `x` after every record whose key is at most `key(x)`. */
  function Insert<T>(x: T, s: seq<T>, key: T -> int): (r: seq<T>)
    ensures |r| == |s| + 1
    ensures multiset(r) == multiset(s) + multiset{x}
  {
    if s == [] then [x]
    else if key(s[0]) <= key(x) then
      assert s == [s[0]] + s[1..];
      [s[0]] + Insert(x, s[1..], key)
    else [x] + s
  }

  lemma {:induction false} InsertSorted<T>(x: T, s: seq<T>, key: T -> int)
    requires SortedBy(s, key)
    ensures SortedBy(Insert(x, s, key), key)
  {
    if s != [] && key(s[0]) <= key(x) {
      var t := Insert(x, s[1..], key);
      InsertSorted(x, s[1..], key);
      assert key(s[0]) <= key(t[0]) by {
        if s[1..] != [] {
          assert s[1..][0] == s[1];
        }
      }
      var u := [s[0]] + t;
      forall i, j | 0 <= i < j < |u| ensures key(u[i]) <= key(u[j]) {
        assert u[j] == t[j - 1];
        if 0 < i {
          assert u[i] == t[i - 1];
        }
      }
    }
  }

  lemma {:induction false} InsertKeepsRuns<T>(x: T, s: seq<T>, key: T -> int, k: int)
    requires SortedBy(s, key)
    ensures WithKey(Insert(x, s, key), key, k) == WithKey(s, key, k) + (if key(x) == k then [x] else [])
  {
    var tail := if key(x) == k then [x] else [];
    if s == [] {
      assert WithKey([x], key, k) == tail + WithKey([], key, k);
    } else if key(s[0]) <= key(x) {
      var head := if key(s[0]) == k then [s[0]] else [];
      var t := Insert(x, s[1..], key);
      var u := [s[0]] + t;
      calc {
        WithKey(Insert(x, s, key), key, k);
        WithKey(u, key, k);
        { assert u[0] == s[0] && u[1..] == t; }
        head + WithKey(t, key, k);
        { InsertKeepsRuns(x, s[1..], key, k); }
        head + (WithKey(s[1..], key, k) + tail);
        (head + WithKey(s[1..], key, k)) + tail;
        WithKey(s, key, k) + tail;
      }
    } else {
      var u := [x] + s;
      assert u[0] == x && u[1..] == s;
      assert WithKey(u, key, k) == tail + WithKey(s, key, k);
      if key(x) == k {
        forall i | 0 <= i < |s| ensures key(s[i]) != k {
          if 0 < i {
            assert key(s[0]) <= key(s[i]);
          }
        }
        WithKeyAbsent(s, key, k);
      }
    }
  }

  /** Insertion sort: each record, taken in input order, goes after every
      earlier record whose key is not larger. */
  function SortBy<T>(s: seq<T>, key: T -> int): (r: seq<T>)
    ensures |r| == |s| && multiset(r) == multiset(s)
    ensures SortedBy(r, key)
    ensures forall k :: WithKey(r, key, k) == WithKey(s, key, k)
    decreases |s|
  {
    if s == [] then []
    else
      var init := s[..|s| - 1];
      var x := s[|s| - 1];
      var sorted := SortBy(init, key);
      assert s == init + [x];
      InsertSorted(x, sorted, key);
      forall k ensures WithKey(Insert(x, sorted, key), key, k) == WithKey(s, key, k) {
        InsertKeepsRuns(x, sorted, key, k);
        WithKeySnoc(init, x, key, k);
      }
      Insert(x, sorted, key)
  }

  /** A prefix of a sorted sequence holds every record whose key is below the
      key of the prefix's last record. */
  lemma PrefixHoldsSmallerKeys<T>(t: seq<T>, key: T -> int, m: nat, x: T)
    requires SortedBy(t, key)
    requires 0 < m <= |t|
    requires x in t && key(x) < key(t[m - 1])
    ensures x in t[..m]
  {
    var p :| 0 <= p < |t| && t[p] == x;
    assert key(t[p]) == key(x);
    assert t[..m][p] == x;
  }
}
