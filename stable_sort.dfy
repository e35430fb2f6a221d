/**
  `Array.prototype.sort` with a comparator callback, modelled as a stable
  insertion sort.  ECMA-262 leaves the sequence of comparator calls to the
  engine, but requires the sort to be stable; for a consistent comparator
  that fixes the result, so this sort's result agrees with the one any
  stable sort gives.  For an inconsistent comparator only the permutation
  property is guaranteed, and that is all that is claimed here without a
  key.
 */
module StableSort {

  /** Places `x` in front of the first element it does not compare greater than. */
  function Insert<T>(x: T, s: seq<T>, cmp: (T, T) -> int): (r: seq<T>)
    ensures multiset(r) == multiset(s) + multiset{x}
  {
    if s == [] || cmp(x, s[0]) <= 0 then [x] + s
    else
      assert s == [s[0]] + s[1..];
      [s[0]] + Insert(x, s[1..], cmp)
  }

  /** Sorts a copy of `s`; the input value itself is never changed. */
  function Sort<T>(s: seq<T>, cmp: (T, T) -> int): (r: seq<T>)
    ensures multiset(r) == multiset(s)
  {
    if s == [] then []
    else
      assert s == [s[0]] + s[1..];
      Insert(s[0], Sort(s[1..], cmp), cmp)
  }

  /** On the elements of `s`, `cmp` is the difference of an integer key. */
  ghost predicate ComparesByKey<T>(cmp: (T, T) -> int, key: T -> int, s: seq<T>)
  {
    forall a, b :: a in s && b in s ==> cmp(a, b) == key(a) - key(b)
  }

  predicate SortedBy<T>(s: seq<T>, key: T -> int)
  {
    forall i, j :: 0 <= i < j < |s| ==> key(s[i]) <= key(s[j])
  }

  /** The subsequence of the elements of `s` whose key is `k`. */
  function WithKey<T>(s: seq<T>, key: T -> int, k: int): seq<T>
  {
    if s == [] then []
    else (if key(s[0]) == k then [s[0]] else []) + WithKey(s[1..], key, k)
  }

  /** Stable: for every key, the elements with that key keep their relative order. */
  ghost predicate KeepsTies<T>(r: seq<T>, s: seq<T>, key: T -> int)
  {
    forall k :: WithKey(r, key, k) == WithKey(s, key, k)
  }

  /** A lower bound on the keys of `x` and of `s` bounds the keys of the result. */
  lemma {:induction false} InsertLowerBound<T>(x: T, s: seq<T>, cmp: (T, T) -> int, key: T -> int, lo: int)
    requires lo <= key(x)
    requires forall i :: 0 <= i < |s| ==> lo <= key(s[i])
    ensures forall i :: 0 <= i < |Insert(x, s, cmp)| ==> lo <= key(Insert(x, s, cmp)[i])
  {
    if s == [] || cmp(x, s[0]) <= 0 {
      assert forall i :: 0 < i < |s| + 1 ==> ([x] + s)[i] == s[i - 1];
    } else {
      var t := Insert(x, s[1..], cmp);
      InsertLowerBound(x, s[1..], cmp, key, lo);
      assert forall i :: 0 < i < |t| + 1 ==> ([s[0]] + t)[i] == t[i - 1];
    }
  }

  lemma {:induction false} InsertSorted<T>(x: T, s: seq<T>, cmp: (T, T) -> int, key: T -> int)
    requires SortedBy(s, key)
    requires forall y :: y in s ==> cmp(x, y) == key(x) - key(y)
    ensures SortedBy(Insert(x, s, cmp), key)
  {
    if s == [] || cmp(x, s[0]) <= 0 {
      if s != [] {
        assert key(x) <= key(s[0]);
      }
      var r := [x] + s;
      forall i, j | 0 <= i < j < |r|
        ensures key(r[i]) <= key(r[j])
      {
        if i > 0 {
          assert r[i] == s[i - 1] && r[j] == s[j - 1];
        } else {
          assert r[j] == s[j - 1];
        }
      }
    } else {
      var tail := s[1..];
      assert forall y :: y in tail ==> y in s;
      assert SortedBy(tail, key) by {
        forall i, j | 0 <= i < j < |tail|
          ensures key(tail[i]) <= key(tail[j])
        {
          assert tail[i] == s[i + 1] && tail[j] == s[j + 1];
        }
      }
      InsertSorted(x, tail, cmp, key);
      var t := Insert(x, tail, cmp);
      assert key(s[0]) < key(x);
      assert forall i :: 0 <= i < |tail| ==> key(s[0]) <= key(tail[i]) by {
        forall i | 0 <= i < |tail|
          ensures key(s[0]) <= key(tail[i])
        {
          assert tail[i] == s[i + 1];
        }
      }
      InsertLowerBound(x, tail, cmp, key, key(s[0]));
      var r := [s[0]] + t;
      forall i, j | 0 <= i < j < |r|
        ensures key(r[i]) <= key(r[j])
      {
        assert r[j] == t[j - 1];
        if i > 0 {
          assert r[i] == t[i - 1];
        }
      }
    }
  }

  lemma {:induction false} InsertWithKey<T>(x: T, s: seq<T>, cmp: (T, T) -> int, key: T -> int, k: int)
    requires forall y :: y in s ==> cmp(x, y) == key(x) - key(y)
    ensures WithKey(Insert(x, s, cmp), key, k)
         == (if key(x) == k then [x] else []) + WithKey(s, key, k)
  {
    if s == [] || cmp(x, s[0]) <= 0 {
      assert ([x] + s)[1..] == s;
    } else {
      var t := Insert(x, s[1..], cmp);
      assert forall y :: y in s[1..] ==> y in s;
      InsertWithKey(x, s[1..], cmp, key, k);
      assert ([s[0]] + t)[1..] == t;
      assert WithKey(Insert(x, s, cmp), key, k)
          == (if key(s[0]) == k then [s[0]] else []) + WithKey(t, key, k);
      assert key(s[0]) < key(x);
      if key(x) == k {
        assert WithKey(s, key, k) == WithKey(s[1..], key, k);
      } else {
        assert WithKey(t, key, k) == WithKey(s[1..], key, k);
      }
    }
  }

  /**
    When the comparator is the difference of a key, the sort orders by that
    key and keeps ties in input order.
   */
  lemma {:induction false} SortByKey<T>(s: seq<T>, cmp: (T, T) -> int, key: T -> int)
    requires ComparesByKey(cmp, key, s)
    ensures SortedBy(Sort(s, cmp), key)
    ensures KeepsTies(Sort(s, cmp), s, key)
  {
    if s != [] {
      var tail := s[1..];
      assert forall y :: y in tail ==> y in s;
      SortByKey(tail, cmp, key);
      var st := Sort(tail, cmp);
      forall y | y in st
        ensures cmp(s[0], y) == key(s[0]) - key(y)
      {
        assert y in multiset(st);
        assert y in tail;
      }
      InsertSorted(s[0], st, cmp, key);
      forall k
        ensures WithKey(Sort(s, cmp), key, k) == WithKey(s, key, k)
      {
        InsertWithKey(s[0], st, cmp, key, k);
      }
    }
  }

  lemma ComparesByKeyTail<T>(cmp: (T, T) -> int, key: T -> int, s: seq<T>)
    requires s != [] && ComparesByKey(cmp, key, s)
    ensures ComparesByKey(cmp, key, s[1..])
  {
    forall a, b | a in s[1..] && b in s[1..]
      ensures cmp(a, b) == key(a) - key(b)
    {
      assert a in s && b in s;
    }
  }

  lemma SortedByTail<T>(s: seq<T>, key: T -> int)
    requires s != [] && SortedBy(s, key)
    ensures SortedBy(s[1..], key)
  {
    forall i, j | 0 <= i < j < |s[1..]|
      ensures key(s[1..][i]) <= key(s[1..][j])
    {
      assert s[1..][i] == s[i + 1] && s[1..][j] == s[j + 1];
    }
  }

  /** Sorting an already sorted sequence gives it back unchanged. */
  lemma {:induction false} SortIdempotent<T>(s: seq<T>, cmp: (T, T) -> int, key: T -> int)
    requires ComparesByKey(cmp, key, s)
    requires SortedBy(s, key)
    ensures Sort(s, cmp) == s
  {
    if s != [] {
      var tail := s[1..];
      ComparesByKeyTail(cmp, key, s);
      SortedByTail(s, key);
      SortIdempotent(tail, cmp, key);
      assert Sort(s, cmp) == Insert(s[0], tail, cmp);
      if tail != [] {
        assert tail[0] == s[1];
        assert s[0] in s && s[1] in s;
        assert cmp(s[0], tail[0]) == key(s[0]) - key(s[1]) <= 0;
      }
      assert Insert(s[0], tail, cmp) == [s[0]] + tail == s;
    }
  }
}
