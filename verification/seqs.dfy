/** Sequence helpers shared by the poll-tracking and survey models: the
    `Array.from(new Set(xs))` idiom, `Array.prototype.filter`, first
    occurrence of an element, and `reduce((a, b) => a + b, 0)` over reals. */
module Seqs {

  /** No element occurs twice. */
  predicate NoDups<T(==)>(s: seq<T>) {
    forall i, j :: 0 <= i < j < |s| ==> s[i] != s[j]
  }

  /** A non-empty list is its front followed by its last element. */
  lemma SplitLast<T>(xs: seq<T>)
    requires xs != []
    ensures xs == xs[..|xs| - 1] + [xs[|xs| - 1]]
  {
  }

  /** Index of the first occurrence of `x` in `xs`. */
  function IndexOf<T(==)>(xs: seq<T>, x: T): (i: nat)
    requires x in xs
    ensures i < |xs| && xs[i] == x
    ensures x !in xs[..i]
  {
    if xs[0] == x then 0 else 1 + IndexOf(xs[1..], x)
  }

  /** `Array.from(new Set(xs))`: the distinct elements of `xs`, each kept at
      its first occurrence (a JS Set iterates in insertion order). */
  function Dedup<T(==,!new)>(xs: seq<T>): (r: seq<T>)
    ensures forall x :: x in r <==> x in xs
    ensures NoDups(r)
    ensures |r| <= |xs|
  {
    if xs == [] then []
    else
      var init := xs[..|xs| - 1];
      var d := Dedup(init);
      var x := xs[|xs| - 1];
      assert xs == init + [x];
      if x in d then d else d + [x]
  }

  /** `xs.filter(p)`: the elements satisfying `p`, in their original order. */
  function Filter<T(!new)>(xs: seq<T>, p: T -> bool): (r: seq<T>)
    ensures |r| <= |xs|
    ensures forall x :: x in r <==> x in xs && p(x)
  {
    if xs == [] then []
    else
      var init := xs[..|xs| - 1];
      var x := xs[|xs| - 1];
      assert xs == init + [x];
      Filter(init, p) + (if p(x) then [x] else [])
  }

  /** Nothing satisfies `p`: nothing is kept. */
  lemma FilterNone<T(!new)>(xs: seq<T>, p: T -> bool)
    requires forall x :: x in xs ==> !p(x)
    ensures Filter(xs, p) == []
  {
    if Filter(xs, p) != [] {
      assert Filter(xs, p)[0] in Filter(xs, p);
    }
  }

  /** Filtering keeps every element satisfying `p` as often as it occurs,
      and no other. */
  lemma {:induction false} FilterCount<T(!new)>(xs: seq<T>, p: T -> bool)
    ensures forall x :: multiset(Filter(xs, p))[x] == if p(x) then multiset(xs)[x] else 0
  {
    if xs != [] {
      var init := xs[..|xs| - 1];
      assert xs == init + [xs[|xs| - 1]];
      FilterCount(init, p);
    }
  }

  /** `xs.reduce((a, b) => a + b, 0)` over exact reals. */
  function Sum(xs: seq<real>): real {
    if xs == [] then 0.0 else Sum(xs[..|xs| - 1]) + xs[|xs| - 1]
  }

  lemma IndexOfAppend<T>(p: seq<T>, q: seq<T>, y: T)
    requires y in p
    ensures IndexOf(p + q, y) == IndexOf(p, y)
  {
    var i1 := IndexOf(p + q, y);
    var i2 := IndexOf(p, y);
    assert (p + q)[i2] == y;
    assert (p + q)[..i2] == p[..i2];
  }

  /** The distinct elements come out in the order of their first occurrence. */
  lemma {:induction false} DedupKeepsFirstAppearanceOrder<T(!new)>(xs: seq<T>)
    ensures forall i, j :: 0 <= i < j < |Dedup(xs)| ==>
      IndexOf(xs, Dedup(xs)[i]) < IndexOf(xs, Dedup(xs)[j])
  {
    if xs != [] {
      var init := xs[..|xs| - 1];
      var x := xs[|xs| - 1];
      assert xs == init + [x];
      DedupKeepsFirstAppearanceOrder(init);
      var d := Dedup(init);
      forall y | y in d
        ensures IndexOf(xs, y) == IndexOf(init, y) < |init|
      {
        IndexOfAppend(init, [x], y);
      }
      if x !in d {
        assert x !in init;
      }
    }
  }

  /** Filtering keeps the relative order of the elements it keeps. */
  lemma {:induction false} FilterKeepsFirstAppearanceOrder<T(!new)>(xs: seq<T>, p: T -> bool, x: T, y: T)
    requires x in Filter(xs, p) && y in Filter(xs, p)
    requires IndexOf(Filter(xs, p), x) < IndexOf(Filter(xs, p), y)
    ensures IndexOf(xs, x) < IndexOf(xs, y)
  {
    var init := xs[..|xs| - 1];
    var z := xs[|xs| - 1];
    assert xs == init + [z];
    var f := Filter(init, p);
    assert Filter(xs, p) == f + (if p(z) then [z] else []);
    if x in f && y in f {
      IndexOfAppend(f, if p(z) then [z] else [], x);
      IndexOfAppend(f, if p(z) then [z] else [], y);
      IndexOfAppend(init, [z], x);
      IndexOfAppend(init, [z], y);
      FilterKeepsFirstAppearanceOrder(init, p, x, y);
    } else if x in f {
      assert y == z && y !in init;
      IndexOfAppend(init, [z], x);
    } else {
      if y in f {
        IndexOfAppend(f, [z], y);
      }
      assert false;
    }
  }

  lemma {:induction false} FilterAppend<T(!new)>(a: seq<T>, b: seq<T>, p: T -> bool)
    ensures Filter(a + b, p) == Filter(a, p) + Filter(b, p)
    decreases |b|
  {
    if b != [] {
      var binit := b[..|b| - 1];
      assert (a + b)[..|a + b| - 1] == a + binit;
      assert b == binit + [b[|b| - 1]];
      FilterAppend(a, binit, p);
    } else {
      assert a + b == a;
    }
  }

  /** Any two elements of `r` are in `s` too, and come, by first
      appearance, in the order they have there. */
  ghost predicate InOrderOf<T>(r: seq<T>, s: seq<T>) {
    forall a, b :: a in r && b in r && IndexOf(r, a) < IndexOf(r, b) ==>
      a in s && b in s && IndexOf(s, a) < IndexOf(s, b)
  }

  /** `filter` keeps the order of what it keeps. */
  lemma FilterKeepsOrder<T(!new)>(xs: seq<T>, p: T -> bool)
    ensures InOrderOf(Filter(xs, p), xs)
  {
    forall a, b | a in Filter(xs, p) && b in Filter(xs, p) && IndexOf(Filter(xs, p), a) < IndexOf(Filter(xs, p), b)
      ensures IndexOf(xs, a) < IndexOf(xs, b)
    {
      FilterKeepsFirstAppearanceOrder(xs, p, a, b);
    }
  }

  /** `r` is `s` with some elements left out: its elements occur in `s`, in
      the same order, each occurrence matched by its own position of `s`. */
  predicate IsSubsequence<T(==)>(r: seq<T>, s: seq<T>)
    decreases |s|
  {
    if r == [] then true
    else if s == [] then false
    else
      (r[|r| - 1] == s[|s| - 1] && IsSubsequence(r[..|r| - 1], s[..|s| - 1]))
      || IsSubsequence(r, s[..|s| - 1])
  }

  /** A subsequence has every element at most as many times as the list. */
  lemma {:induction false} SubsequenceCount<T>(r: seq<T>, s: seq<T>)
    requires IsSubsequence(r, s)
    ensures multiset(r) <= multiset(s)
    decreases |s|
  {
    if r != [] {
      var init := s[..|s| - 1];
      assert s == init + [s[|s| - 1]];
      if r[|r| - 1] == s[|s| - 1] && IsSubsequence(r[..|r| - 1], init) {
        assert r == r[..|r| - 1] + [r[|r| - 1]];
        SubsequenceCount(r[..|r| - 1], init);
      } else {
        SubsequenceCount(r, init);
      }
    }
  }

  /** `filter` leaves elements out and keeps the others in place. */
  lemma {:induction false} FilterIsSubsequence<T(!new)>(xs: seq<T>, p: T -> bool)
    ensures IsSubsequence(Filter(xs, p), xs)
  {
    if xs != [] {
      var init := xs[..|xs| - 1];
      var x := xs[|xs| - 1];
      FilterIsSubsequence(init, p);
      var f := Filter(init, p);
      if p(x) {
        assert Filter(xs, p) == f + [x];
        assert (f + [x])[..|f + [x]| - 1] == f;
      } else {
        assert Filter(xs, p) == f;
      }
    }
  }

  /** `filter` keeps every kept element as many times as the list has it,
      in first-appearance order and in place. */
  lemma FilterKeepsKept<T(!new)>(xs: seq<T>, p: T -> bool)
    ensures forall x :: p(x) ==> multiset(Filter(xs, p))[x] == multiset(xs)[x]
    ensures InOrderOf(Filter(xs, p), xs)
    ensures IsSubsequence(Filter(xs, p), xs)
  {
    FilterCount(xs, p);
    FilterKeepsOrder(xs, p);
    FilterIsSubsequence(xs, p);
  }

  /** The filtered list is the only subsequence made of kept elements that
      keeps each of them as many times as the list has it. */
  lemma {:induction false} FilterIsTheOnlyFullSubsequence<T(!new)>(r: seq<T>, xs: seq<T>, p: T -> bool)
    requires IsSubsequence(r, xs)
    requires forall x :: x in r ==> p(x)
    requires forall x :: p(x) ==> multiset(r)[x] == multiset(xs)[x]
    ensures r == Filter(xs, p)
    decreases |xs|
  {
    if xs == [] {
      assert r == [];
    } else {
      var init := xs[..|xs| - 1];
      var x := xs[|xs| - 1];
      assert xs == init + [x];
      if p(x) {
        assert multiset(r)[x] >= 1;
        assert r != [];
        var r' := r[..|r| - 1];
        assert r == r' + [r[|r| - 1]];
        if r[|r| - 1] == x && IsSubsequence(r', init) {
          forall y | y in r' ensures p(y) { assert y in r; }
          FilterIsTheOnlyFullSubsequence(r', init, p);
        } else {
          SubsequenceCount(r, init);
          assert false;
        }
      } else {
        if r != [] {
          assert r[|r| - 1] in r;
        }
        assert IsSubsequence(r, init);
        FilterIsTheOnlyFullSubsequence(r, init, p);
      }
    }
  }

  /** A list whose every element passes the predicate is kept whole. */
  lemma {:induction false} FilterKeepsAll<T(!new)>(xs: seq<T>, p: T -> bool)
    requires forall x :: x in xs ==> p(x)
    ensures Filter(xs, p) == xs
  {
    if xs != [] {
      var init := xs[..|xs| - 1];
      assert xs == init + [xs[|xs| - 1]];
      FilterKeepsAll(init, p);
    }
  }

  lemma {:induction false} SumAppend(a: seq<real>, b: seq<real>)
    ensures Sum(a + b) == Sum(a) + Sum(b)
    decreases |b|
  {
    if b != [] {
      var binit := b[..|b| - 1];
      assert (a + b)[..|a + b| - 1] == a + binit;
      SumAppend(a, binit);
    } else {
      assert a + b == a;
    }
  }

  lemma {:induction false} SumNonNegative(xs: seq<real>)
    requires forall i :: 0 <= i < |xs| ==> xs[i] >= 0.0
    ensures Sum(xs) >= 0.0
  {
    if xs != [] {
      SumNonNegative(xs[..|xs| - 1]);
    }
  }

  /** A sum of values within [lo, hi] lies within [n * lo, n * hi]. */
  lemma {:induction false} SumBounds(xs: seq<real>, lo: real, hi: real)
    requires forall i :: 0 <= i < |xs| ==> lo <= xs[i] <= hi
    ensures (|xs| as real) * lo <= Sum(xs) <= (|xs| as real) * hi
  {
    if xs != [] {
      SumBounds(xs[..|xs| - 1], lo, hi);
    }
  }

  // ---- sums of map values along a key list ----

  /** `m[k]`, or 0 where `k` is missing. */
  function Get<K>(m: map<K, real>, k: K): real {
    if k in m then m[k] else 0.0
  }

  /** Filtering a list without duplicates leaves none. */
  lemma {:induction false} FilterNoDups<T(!new)>(xs: seq<T>, p: T -> bool)
    requires NoDups(xs)
    ensures NoDups(Filter(xs, p))
  {
    if xs != [] {
      var init := xs[..|xs| - 1];
      var x := xs[|xs| - 1];
      assert xs == init + [x];
      assert NoDups(init);
      FilterNoDups(init, p);
      assert x !in Filter(init, p);
    }
  }

  /** The sum of `m`'s values at the keys `ks`, in order; a missing key adds 0. */
  function SumAt<K>(ks: seq<K>, m: map<K, real>): real {
    if ks == [] then 0.0 else SumAt(ks[..|ks| - 1], m) + Get(m, ks[|ks| - 1])
  }

  lemma {:induction false} SumAtAppend<K>(a: seq<K>, b: seq<K>, m: map<K, real>)
    ensures SumAt(a + b, m) == SumAt(a, m) + SumAt(b, m)
    decreases |b|
  {
    if b != [] {
      var binit := b[..|b| - 1];
      assert (a + b)[..|a + b| - 1] == a + binit;
      SumAtAppend(a, binit, m);
    } else {
      assert a + b == a;
    }
  }

  /** At every key of `ks`, `m'` holds `c` times what `m` holds. */
  ghost predicate ScaledOn<K>(ks: seq<K>, m: map<K, real>, m': map<K, real>, c: real) {
    forall k :: k in ks ==> Get(m', k) == Get(m, k) * c
  }

  /** `x` times `c`. Sums are stated scaled through this function so that
      the solver treats a scaled sum as one term. */
  function Scale(x: real, c: real): real {
    x * c
  }

  /** Scaling every value scales the sum. */
  lemma {:induction false} SumAtScaled<K>(ks: seq<K>, m: map<K, real>, m': map<K, real>, c: real)
    requires ScaledOn(ks, m, m', c)
    ensures SumAt(ks, m') == Scale(SumAt(ks, m), c)
  {
    if ks != [] {
      var init := ks[..|ks| - 1];
      assert ks == init + [ks[|ks| - 1]];
      assert ScaledOn(init, m, m', c);
      SumAtScaled(init, m, m', c);
      SumAtScaledStep(init, ks[|ks| - 1], m, m', c);
    }
  }

  lemma SumAtScaledStep<K>(init: seq<K>, x: K, m: map<K, real>, m': map<K, real>, c: real)
    requires SumAt(init, m') == Scale(SumAt(init, m), c)
    requires Get(m', x) == Scale(Get(m, x), c)
    ensures SumAt(init + [x], m') == Scale(SumAt(init + [x], m), c)
  {
    SumAtSnoc(init, x, m);
    SumAtSnoc(init, x, m');
    ScaledSum(SumAt(init, m), Get(m, x), SumAt(init, m'), Get(m', x), c);
  }

  /** Adding two scaled values scales their sum. */
  lemma ScaledSum(a: real, v: real, a': real, v': real, c: real)
    requires a' == Scale(a, c) && v' == Scale(v, c)
    ensures a' + v' == Scale(a + v, c)
  {
  }

  /** Scaling every value scales the sum over any part of the keys. */
  lemma SumOfPartScaled<K>(ks: seq<K>, f: seq<K>, m: map<K, real>, m': map<K, real>, c: real)
    requires forall k :: k in f ==> k in ks
    requires ScaledOn(ks, m, m', c)
    ensures SumAt(f, m') == SumAt(f, m) * c
  {
    assert ScaledOn(f, m, m', c);
    SumAtScaled(f, m, m', c);
  }

  /** Values within [lo, hi] at every key give a sum within [n * lo, n * hi]. */
  lemma {:induction false} SumAtBounds<K>(ks: seq<K>, m: map<K, real>, lo: real, hi: real)
    requires forall k :: k in ks ==> lo <= Get(m, k) <= hi
    ensures (|ks| as real) * lo <= SumAt(ks, m) <= (|ks| as real) * hi
  {
    if ks != [] {
      SumAtBounds(ks[..|ks| - 1], m, lo, hi);
    }
  }

  lemma {:induction false} SumAtNonNegative<K>(ks: seq<K>, m: map<K, real>)
    requires forall k :: k in ks ==> Get(m, k) >= 0.0
    ensures SumAt(ks, m) >= 0.0
  {
    if ks != [] {
      SumAtNonNegative(ks[..|ks| - 1], m);
    }
  }

  /** With no negative value, one key's value is at most the sum. */
  lemma {:induction false} SumAtAtLeastMember<K>(ks: seq<K>, m: map<K, real>, k: K)
    requires k in ks
    requires forall j :: j in ks ==> Get(m, j) >= 0.0
    ensures Get(m, k) <= SumAt(ks, m)
  {
    var init := ks[..|ks| - 1];
    var x := ks[|ks| - 1];
    assert ks == init + [x];
    SumAtNonNegative(init, m);
    if k != x {
      SumAtAtLeastMember(init, m, k);
    }
  }

  lemma SumAtSnoc<K>(ks: seq<K>, x: K, m: map<K, real>)
    ensures SumAt(ks + [x], m) == SumAt(ks, m) + Get(m, x)
  {
    assert (ks + [x])[..|ks + [x]| - 1] == ks;
  }

  /** Splitting the keys by a predicate `p` and its complement `q` splits
      the sum. */
  lemma {:induction false} SumAtPartition<K(!new)>(ks: seq<K>, m: map<K, real>, p: K -> bool, q: K -> bool)
    requires forall k :: q(k) == !p(k)
    ensures SumAt(Filter(ks, p), m) + SumAt(Filter(ks, q), m) == SumAt(ks, m)
  {
    if ks != [] {
      var init := ks[..|ks| - 1];
      var x := ks[|ks| - 1];
      SumAtPartition(init, m, p, q);
      assert SumAt(ks, m) == SumAt(init, m) + Get(m, x);
      if p(x) {
        assert Filter(ks, p) == Filter(init, p) + [x];
        assert Filter(ks, q) == Filter(init, q);
        SumAtSnoc(Filter(init, p), x, m);
      } else {
        assert Filter(ks, p) == Filter(init, p);
        assert Filter(ks, q) == Filter(init, q) + [x];
        SumAtSnoc(Filter(init, q), x, m);
      }
    }
  }

  /** Removing the element at index `i` from a list without duplicates. */
  lemma RemoveAt<K>(ks: seq<K>, i: nat)
    requires i < |ks| && NoDups(ks)
    ensures NoDups(ks[..i] + ks[i + 1..])
    ensures forall k :: k in ks[..i] + ks[i + 1..] <==> k in ks && k != ks[i]
  {
    var r := ks[..i] + ks[i + 1..];
    forall a, b | 0 <= a < b < |r|
      ensures r[a] != r[b]
    {
      var a' := if a < i then a else a + 1;
      var b' := if b < i then b else b + 1;
      assert r[a] == ks[a'] && r[b] == ks[b'];
    }
    forall k | k in ks && k != ks[i]
      ensures k in r
    {
      var j :| 0 <= j < |ks| && ks[j] == k;
      if j < i {
        assert r[j] == k;
      } else {
        assert r[j - 1] == k;
      }
    }
  }

  /** The sum is the sum without the key at `i` plus the value at it. */
  lemma SumAtRemove<K>(ks: seq<K>, i: nat, m: map<K, real>)
    requires i < |ks|
    ensures SumAt(ks, m) == SumAt(ks[..i] + ks[i + 1..], m) + Get(m, ks[i])
  {
    assert ks == ks[..i] + [ks[i]] + ks[i + 1..];
    SumAtAppend(ks[..i] + [ks[i]], ks[i + 1..], m);
    SumAtAppend(ks[..i], [ks[i]], m);
    SumAtAppend(ks[..i], ks[i + 1..], m);
    assert SumAt([ks[i]], m) == SumAt([], m) + Get(m, ks[i]);
  }

  /** Two duplicate-free key lists that pick the same keys of `m` have the
      same sum, whatever their order and whatever keys outside `m` they hold. */
  lemma {:induction false} SumAtSameKeys<K(!new)>(l: seq<K>, ks: seq<K>, m: map<K, real>)
    requires NoDups(l) && NoDups(ks)
    requires forall k :: k in ks <==> k in l && k in m
    ensures SumAt(l, m) == SumAt(ks, m)
    decreases |l|
  {
    if l != [] {
      var init := l[..|l| - 1];
      var x := l[|l| - 1];
      assert l == init + [x];
      assert NoDups(init);
      assert x !in init;
      if x in m {
        var i := IndexOf(ks, x);
        var rest := ks[..i] + ks[i + 1..];
        RemoveAt(ks, i);
        forall k
          ensures k in rest <==> k in init && k in m
        {
          assert k in l <==> k in init || k == x;
        }
        SumAtSameKeys(init, rest, m);
        SumAtRemove(ks, i, m);
      } else {
        SumAtSameKeys(init, ks, m);
      }
    }
  }
}
