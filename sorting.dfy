/**
 * Python's `list.sort(key=...)` is a stable sort. It is modelled by a stable insertion
 * sort: the result is ordered by key, is a permutation of the input, and keeps the
 * input order among elements whose keys are equal.
 */
module Sorting {

  /** `le` is a total order on keys. */
  ghost predicate TotalOrder<K(!new)>(le: (K, K) -> bool) {
    && (forall a :: le(a, a))
    && (forall a, b :: le(a, b) && le(b, a) ==> a == b)
    && (forall a, b, c :: le(a, b) && le(b, c) ==> le(a, c))
    && (forall a, b :: le(a, b) || le(b, a))
  }

  ghost predicate SortedBy<T, K>(s: seq<T>, key: T -> K, le: (K, K) -> bool) {
    forall i, j :: 0 <= i < j < |s| ==> le(key(s[i]), key(s[j]))
  }

  /** The elements of `s` whose key is `k`, in their order in `s`. */
  function WithKey<T, K(==)>(s: seq<T>, key: T -> K, k: K): seq<T> {
    if s == [] then [] else (if key(s[0]) == k then [s[0]] else []) + WithKey(s[1..], key, k)
  }

  /** Puts `x` in front of the first element whose key is not below its own. */
  function InsertBy<T, K>(x: T, s: seq<T>, key: T -> K, le: (K, K) -> bool): seq<T> {
    if s == [] || le(key(x), key(s[0])) then [x] + s else [s[0]] + InsertBy(x, s[1..], key, le)
  }

  function SortBy<T, K>(s: seq<T>, key: T -> K, le: (K, K) -> bool): seq<T> {
    if s == [] then [] else InsertBy(s[0], SortBy(s[1..], key, le), key, le)
  }

  lemma {:induction false} InsertByPermutes<T, K>(x: T, s: seq<T>, key: T -> K, le: (K, K) -> bool)
    ensures multiset(InsertBy(x, s, key, le)) == multiset(s) + multiset{x}
    decreases |s|
  {
    if s != [] && !le(key(x), key(s[0])) {
      var rest := InsertBy(x, s[1..], key, le);
      InsertByPermutes(x, s[1..], key, le);
      assert InsertBy(x, s, key, le) == [s[0]] + rest;
      assert s == [s[0]] + s[1..];
      assert multiset(s) == multiset{s[0]} + multiset(s[1..]);
    }
  }

  lemma {:induction false} InsertBySorted<T, K(!new)>(x: T, s: seq<T>, key: T -> K, le: (K, K) -> bool)
    requires TotalOrder(le)
    requires SortedBy(s, key, le)
    ensures SortedBy(InsertBy(x, s, key, le), key, le)
    decreases |s|
  {
    var r := InsertBy(x, s, key, le);
    if s == [] {
    } else if le(key(x), key(s[0])) {
      forall i, j | 0 <= i < j < |r| ensures le(key(r[i]), key(r[j])) {
        if i == 0 && j > 1 {
          assert r[j] == s[j - 1];
          assert le(key(s[0]), key(s[j - 1]));
        }
      }
    } else {
      var rest := InsertBy(x, s[1..], key, le);
      InsertBySorted(x, s[1..], key, le);
      InsertByPermutes(x, s[1..], key, le);
      assert le(key(s[0]), key(x));
      forall j | 0 <= j < |rest| ensures le(key(s[0]), key(rest[j])) {
        assert rest[j] in multiset(rest);
        if rest[j] != x {
          assert rest[j] in multiset(s[1..]);
          var m :| 0 <= m < |s[1..]| && s[1..][m] == rest[j];
          assert s[m + 1] == rest[j];
        }
      }
      assert r == [s[0]] + rest;
    }
  }

  lemma {:induction false} InsertByWithKey<T, K(!new)>(x: T, s: seq<T>, key: T -> K, le: (K, K) -> bool, k: K)
    requires TotalOrder(le)
    ensures WithKey(InsertBy(x, s, key, le), key, k)
         == (if key(x) == k then [x] else []) + WithKey(s, key, k)
    decreases |s|
  {
    if s != [] && !le(key(x), key(s[0])) {
      var r := InsertBy(x, s, key, le);
      assert r == [s[0]] + InsertBy(x, s[1..], key, le);
      assert r[1..] == InsertBy(x, s[1..], key, le);
      InsertByWithKey(x, s[1..], key, le, k);
      // s[0] sorts strictly before x, so the two keys differ
      assert key(s[0]) != key(x);
    } else {
      var r := InsertBy(x, s, key, le);
      assert r[1..] == s;
    }
  }

  /** The stable sort orders by key, permutes its input, and keeps the order of equal keys. */
  lemma {:induction false} SortByCorrect<T, K(!new)>(s: seq<T>, key: T -> K, le: (K, K) -> bool)
    requires TotalOrder(le)
    ensures SortedBy(SortBy(s, key, le), key, le)
    ensures multiset(SortBy(s, key, le)) == multiset(s)
    ensures forall k :: WithKey(SortBy(s, key, le), key, k) == WithKey(s, key, k)
    decreases |s|
  {
    if s != [] {
      var rest := SortBy(s[1..], key, le);
      SortByCorrect(s[1..], key, le);
      InsertBySorted(s[0], rest, key, le);
      InsertByPermutes(s[0], rest, key, le);
      assert s == [s[0]] + s[1..];
      forall k ensures WithKey(SortBy(s, key, le), key, k) == WithKey(s, key, k) {
        InsertByWithKey(s[0], rest, key, le, k);
      }
    }
  }
}
