/** `Array.prototype.sort` with a numeric comparator `(a, b) => key(a) - key(b)`.
    Since ES2019 that sort is stable, so its result is fully determined:
    ordered by key, a permutation of the input, and equal keys in input order.
    The model is an insertion sort; `StableSortIsUnique` shows that any
    sequence with those three properties is the one it returns. */
module Sorting {

  /** Non-decreasing in `key`. */
  ghost predicate SortedBy<T>(s: seq<T>, key: T -> int) {
    forall i, j :: 0 <= i < j < |s| ==> key(s[i]) <= key(s[j])
  }

  /** The elements whose key is `k`, in order. */
  function WithKey<T>(s: seq<T>, key: T -> int, k: int): (r: seq<T>)
    ensures |r| <= |s|
    ensures forall x :: x in r ==> x in s && key(x) == k
  {
    if s == [] then []
    else (if key(s[0]) == k then [s[0]] else []) + WithKey(s[1..], key, k)
  }

  /** Insert `x` before the first element whose key is not smaller. */
  function Insert<T>(x: T, s: seq<T>, key: T -> int): (r: seq<T>)
    ensures multiset(r) == multiset(s) + multiset{x}
    ensures forall k :: WithKey(r, key, k) == (if key(x) == k then [x] else []) + WithKey(s, key, k)
  {
    if s == [] then [x]
    else if key(x) <= key(s[0]) then [x] + s
    else
      assert s == [s[0]] + s[1..];
      [s[0]] + Insert(x, s[1..], key)
  }

  /** The stable sort of `s` by `key`. */
  function SortBy<T>(s: seq<T>, key: T -> int): (r: seq<T>)
    ensures multiset(r) == multiset(s)
    ensures SortedBy(r, key)
    ensures forall k :: WithKey(r, key, k) == WithKey(s, key, k)
  {
    if s == [] then []
    else
      var rest := SortBy(s[1..], key);
      InsertKeepsSorted(s[0], rest, key);
      assert s == [s[0]] + s[1..];
      Insert(s[0], rest, key)
  }

  lemma {:induction false} InsertKeepsSorted<T>(x: T, s: seq<T>, key: T -> int)
    requires SortedBy(s, key)
    ensures SortedBy(Insert(x, s, key), key)
  {
    if s != [] && key(x) > key(s[0]) {
      var tail := Insert(x, s[1..], key);
      InsertKeepsSorted(x, s[1..], key);
      forall y | y in tail
        ensures key(s[0]) <= key(y)
      {
        assert y in multiset(tail);
      }
    }
  }

  lemma {:induction false} WithKeyOfHead<T>(s: seq<T>, key: T -> int)
    requires s != []
    ensures WithKey(s, key, key(s[0])) != []
    ensures WithKey(s, key, key(s[0]))[0] == s[0]
  {
  }

  lemma {:induction false} WithKeyEmptyMeansAbsent<T>(s: seq<T>, key: T -> int, k: int)
    requires WithKey(s, key, k) == []
    ensures forall x :: x in s ==> key(x) != k
  {
    if s != [] {
      WithKeyEmptyMeansAbsent(s[1..], key, k);
    }
  }

  /** A sorted sequence starts with an element of least key, so every key
      present is at least that of the head. */
  lemma {:induction false} HeadKeyIsLeast<T>(t: seq<T>, u: seq<T>, key: T -> int)
    requires t != [] && SortedBy(u, key)
    requires WithKey(u, key, key(t[0])) == WithKey(t, key, key(t[0]))
    ensures u != [] && key(u[0]) <= key(t[0])
  {
    WithKeyOfHead(t, key);
    var y := WithKey(u, key, key(t[0]))[0];
    assert y in u;
  }

  /** Two sorted sequences with the same elements of every key start alike. */
  lemma SameHead<T>(t: seq<T>, u: seq<T>, key: T -> int)
    requires t != [] && SortedBy(t, key) && SortedBy(u, key)
    requires forall k :: WithKey(t, key, k) == WithKey(u, key, k)
    ensures u != [] && u[0] == t[0]
  {
    HeadKeyIsLeast(t, u, key);
    HeadKeyIsLeast(u, t, key);
    WithKeyOfHead(t, key);
    WithKeyOfHead(u, key);
  }

  lemma SameTailGroups<T>(t: seq<T>, u: seq<T>, key: T -> int)
    requires t != [] && u != [] && t[0] == u[0]
    requires forall k :: WithKey(t, key, k) == WithKey(u, key, k)
    ensures forall k :: WithKey(t[1..], key, k) == WithKey(u[1..], key, k)
  {
    forall k
      ensures WithKey(t[1..], key, k) == WithKey(u[1..], key, k)
    {
      var a := if key(t[0]) == k then [t[0]] else [];
      var wt := WithKey(t[1..], key, k);
      var wu := WithKey(u[1..], key, k);
      assert WithKey(t, key, k) == a + wt;
      assert WithKey(u, key, k) == a + wu;
      assert (a + wt)[|a|..] == wt;
      assert (a + wu)[|a|..] == wu;
    }
  }

  /** Stability, order and the per-key contents determine a sequence: two
      sorted sequences with the same elements of every key are equal. */
  lemma {:induction false} SortedWithSameKeyGroupsAreEqual<T>(t: seq<T>, u: seq<T>, key: T -> int)
    requires SortedBy(t, key) && SortedBy(u, key)
    requires forall k :: WithKey(t, key, k) == WithKey(u, key, k)
    ensures t == u
    decreases |t|
  {
    if t != [] {
      SameHead(t, u, key);
      SameTailGroups(t, u, key);
      SortedWithSameKeyGroupsAreEqual(t[1..], u[1..], key);
      assert t == [t[0]] + t[1..];
      assert u == [u[0]] + u[1..];
    } else if u != [] {
      SameHead(u, t, key);
    }
  }

  /** Any stable sort of `s` by `key` returns exactly `SortBy(s, key)`. */
  lemma StableSortIsUnique<T>(s: seq<T>, t: seq<T>, key: T -> int)
    requires SortedBy(t, key)
    requires forall k :: WithKey(t, key, k) == WithKey(s, key, k)
    ensures t == SortBy(s, key)
  {
    SortedWithSameKeyGroupsAreEqual(t, SortBy(s, key), key);
  }
}
