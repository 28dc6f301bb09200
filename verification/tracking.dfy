/** The tactical-tracking aggregation: poll rows sorted by date, grouped by
    their exact date string, averaged per candidate within each date, and the
    averages rescaled so that each date's shares add up to 100. */
module Tracking {
  import opened Wrappers
  import opened Seqs
  import opened Sorting

  /** One tracking record: a poll result for one candidate on one date. The
      percentage may be missing. */
  datatype Row = Row(date: string, candidate: string, percentage: Option<real>)

  /** `i.percentage || 0`: a missing percentage counts as 0. */
  function Share(r: Row): real {
    match r.percentage
    case None => 0.0
    case Some(p) => p
  }

  /** A JavaScript object used as a dictionary: its own keys in insertion
      order and the value at each. */
  datatype Obj<V> = Obj(keys: seq<string>, vals: map<string, V>)

  ghost predicate Valid<V>(o: Obj<V>) {
    NoDups(o.keys) && forall k :: k in o.vals <==> k in o.keys
  }

  /** `o[k] = v`: a new key goes at the end of the key order. */
  function Put<V>(o: Obj<V>, k: string, v: V): (r: Obj<V>)
    ensures Valid(o) ==> Valid(r)
    ensures k in r.vals && r.vals[k] == v
    ensures forall j :: j != k ==> (j in r.vals <==> j in o.vals)
    ensures forall j :: j != k && j in o.vals ==> r.vals[j] == o.vals[j]
  {
    Obj(if k in o.vals then o.keys else o.keys + [k], o.vals[k := v])
  }

  /** `ks.forEach(k => { o[k] = f(k) })` on a fresh object `o = {}`. */
  function Assign(ks: seq<string>, f: string -> real): Obj<real> {
    if ks == [] then Obj([], map[])
    else Put(Assign(ks[..|ks| - 1], f), ks[|ks| - 1], f(ks[|ks| - 1]))
  }

  /** Assigning along distinct keys gives those keys, in order, each with
      its value. */
  lemma {:induction false} AssignContents(ks: seq<string>, f: string -> real)
    requires NoDups(ks)
    ensures Valid(Assign(ks, f)) && Assign(ks, f).keys == ks
    ensures forall k :: k in Assign(ks, f).vals ==> Assign(ks, f).vals[k] == f(k)
  {
    if ks != [] {
      var init := ks[..|ks| - 1];
      assert ks == init + [ks[|ks| - 1]];
      assert NoDups(init);
      AssignContents(init, f);
    }
  }

  /** The values of an object of numbers, in key order (`Object.values`),
      summed. */
  function Total(o: Obj<real>): real {
    SumAt(o.keys, o.vals)
  }

  // ---- sorting and grouping ----

  /** The sort key: the instant a row's date denotes. */
  function ByDate(ts: string -> int): Row -> int {
    (r: Row) => ts(r.date)
  }

  function OnDate(d: string): Row -> bool {
    (r: Row) => r.date == d
  }

  function ForCandidate(c: string): Row -> bool {
    (r: Row) => r.candidate == c
  }

  /** `[...rows].sort((a, b) => ts(a.date) - ts(b.date))`, where `ts` stands
      for `new Date(d).getTime()`. */
  function SortByDate(rows: seq<Row>, ts: string -> int): (r: seq<Row>)
    ensures multiset(r) == multiset(rows)
    ensures forall i, j :: 0 <= i < j < |r| ==> ts(r[i].date) <= ts(r[j].date)
  {
    SortBy(rows, ByDate(ts))
  }

  /** A sort of the rows by date that is stable (rows with the same instant
      keep their input order) is `SortByDate`. */
  lemma SortByDateIsTheStableSort(rows: seq<Row>, ts: string -> int, t: seq<Row>)
    requires forall i, j :: 0 <= i < j < |t| ==> ts(t[i].date) <= ts(t[j].date)
    requires forall k :: WithKey(t, ByDate(ts), k) == WithKey(rows, ByDate(ts), k)
    ensures t == SortByDate(rows, ts)
  {
    StableSortIsUnique(rows, t, ByDate(ts));
  }

  function DatesOf(rows: seq<Row>): (r: seq<string>)
    ensures |r| == |rows| && forall i :: 0 <= i < |rows| ==> r[i] == rows[i].date
  {
    seq(|rows|, i requires 0 <= i < |rows| => rows[i].date)
  }

  /** The rows on date `d`, in order. */
  function RowsOn(rows: seq<Row>, d: string): seq<Row> {
    Filter(rows, OnDate(d))
  }

  /** `rows.forEach(item => { if (!g[item.date]) g[item.date] = [];
      g[item.date].push(item) })`. */
  function GroupByDate(rows: seq<Row>): Obj<seq<Row>> {
    if rows == [] then Obj([], map[])
    else
      var g := GroupByDate(rows[..|rows| - 1]);
      var x := rows[|rows| - 1];
      var bucket := if x.date in g.vals then g.vals[x.date] else [];
      Put(g, x.date, bucket + [x])
  }

  /** No row has a date that is not among the dates. */
  lemma RowsOnAbsent(rows: seq<Row>, d: string)
    requires d !in DatesOf(rows)
    ensures RowsOn(rows, d) == []
  {
    FilterNone(rows, OnDate(d));
  }

  lemma RowsOnSnoc(rows: seq<Row>, d: string)
    requires rows != []
    ensures RowsOn(rows, d) == RowsOn(rows[..|rows| - 1], d) +
      (if rows[|rows| - 1].date == d then [rows[|rows| - 1]] else [])
  {
  }

  lemma DatesOfSnoc(rows: seq<Row>)
    requires rows != []
    ensures DatesOf(rows)[..|rows| - 1] == DatesOf(rows[..|rows| - 1])
    ensures DatesOf(rows)[|rows| - 1] == rows[|rows| - 1].date
  {
  }

  /** The date keys are the distinct dates in order of first appearance. */
  lemma {:induction false} GroupByDateKeys(rows: seq<Row>)
    ensures Valid(GroupByDate(rows))
    ensures GroupByDate(rows).keys == Dedup(DatesOf(rows))
  {
    if rows != [] {
      GroupByDateKeys(rows[..|rows| - 1]);
      DatesOfSnoc(rows);
    }
  }

  lemma PutBucket(g: Obj<seq<Row>>, rows: seq<Row>)
    requires rows != []
    requires forall d :: d in g.vals ==> g.vals[d] == RowsOn(rows[..|rows| - 1], d)
    requires rows[|rows| - 1].date !in g.vals ==> RowsOn(rows[..|rows| - 1], rows[|rows| - 1].date) == []
    ensures var x := rows[|rows| - 1];
      var bucket := if x.date in g.vals then g.vals[x.date] else [];
      forall d :: d in Put(g, x.date, bucket + [x]).vals ==>
        Put(g, x.date, bucket + [x]).vals[d] == RowsOn(rows, d)
  {
    var x := rows[|rows| - 1];
    var bucket := if x.date in g.vals then g.vals[x.date] else [];
    var g' := Put(g, x.date, bucket + [x]);
    forall d | d in g'.vals
      ensures g'.vals[d] == RowsOn(rows, d)
    {
      RowsOnSnoc(rows, d);
    }
  }

  /** The bucket of each date holds that date's rows in input order. */
  lemma {:induction false} GroupByDateBuckets(rows: seq<Row>)
    ensures forall d :: d in GroupByDate(rows).vals ==> GroupByDate(rows).vals[d] == RowsOn(rows, d)
  {
    if rows != [] {
      var init := rows[..|rows| - 1];
      var x := rows[|rows| - 1];
      var g := GroupByDate(init);
      GroupByDateBuckets(init);
      var bucket := if x.date in g.vals then g.vals[x.date] else [];
      if x.date !in g.vals {
        GroupByDateKeys(init);
        RowsOnAbsent(init, x.date);
      }
      PutBucket(g, rows);
    }
  }

  /** The buckets in key order, concatenated (`Object.values(g).flat()`). */
  function Flatten(ks: seq<string>, g: map<string, seq<Row>>): seq<Row> {
    if ks == [] then []
    else Flatten(ks[..|ks| - 1], g) + (if ks[|ks| - 1] in g then g[ks[|ks| - 1]] else [])
  }

  lemma {:induction false} FlattenCount(ks: seq<string>, g: map<string, seq<Row>>, x: Row)
    requires NoDups(ks)
    requires forall d :: d in g ==> forall y :: y in g[d] ==> y.date == d
    ensures multiset(Flatten(ks, g))[x] ==
      if x.date in ks && x.date in g then multiset(g[x.date])[x] else 0
  {
    if ks != [] {
      var init := ks[..|ks| - 1];
      var d := ks[|ks| - 1];
      assert ks == init + [d];
      assert NoDups(init);
      FlattenCount(init, g, x);
      if d in g && x in g[d] {
        assert x.date == d;
      }
    }
  }

  /** Grouping loses no row and duplicates none: the buckets together are a
      permutation of the rows. */
  lemma GroupingIsAPermutation(rows: seq<Row>)
    ensures multiset(Flatten(GroupByDate(rows).keys, GroupByDate(rows).vals)) == multiset(rows)
  {
    var g := GroupByDate(rows);
    GroupByDateKeys(rows);
    GroupByDateBuckets(rows);
    forall x
      ensures multiset(Flatten(g.keys, g.vals))[x] == multiset(rows)[x]
    {
      FlattenCount(g.keys, g.vals, x);
      FilterCount(rows, OnDate(x.date));
      if x in rows {
        assert x.date in DatesOf(rows);
      }
    }
  }

  /** Rows of the same date stand next to each other. */
  ghost predicate DatesContiguous(rows: seq<Row>) {
    forall i, j, k :: 0 <= i < j < k < |rows| && rows[i].date == rows[k].date ==> rows[j].date == rows[i].date
  }

  /** Updating a key that is not listed leaves the concatenation alone. */
  lemma {:induction false} FlattenIgnores(ks: seq<string>, g: map<string, seq<Row>>, d: string, v: seq<Row>)
    requires d !in ks
    ensures Flatten(ks, g[d := v]) == Flatten(ks, g)
  {
    if ks != [] {
      FlattenIgnores(ks[..|ks| - 1], g, d, v);
    }
  }

  /** With contiguous dates, the last key is the date of the last row. */
  lemma {:induction false} LastKeyIsLastDate(rows: seq<Row>)
    requires rows != [] && DatesContiguous(rows)
    ensures GroupByDate(rows).keys != []
    ensures GroupByDate(rows).keys[|GroupByDate(rows).keys| - 1] == rows[|rows| - 1].date
  {
    var init := rows[..|rows| - 1];
    var x := rows[|rows| - 1];
    var g := GroupByDate(init);
    if x.date in g.vals {
      LastRowSharesDate(rows);
      LastKeyIsLastDate(init);
    }
  }

  /** With contiguous dates, a date seen before the last row is also the date
      of the row just before it. */
  lemma LastRowSharesDate(rows: seq<Row>)
    requires rows != [] && DatesContiguous(rows)
    requires rows[|rows| - 1].date in GroupByDate(rows[..|rows| - 1]).vals
    ensures |rows| >= 2 && rows[|rows| - 2].date == rows[|rows| - 1].date
    ensures DatesContiguous(rows[..|rows| - 1])
  {
    var init := rows[..|rows| - 1];
    var x := rows[|rows| - 1];
    ContiguousPrefix(rows);
    DateSeenBefore(init, x.date);
    var i :| 0 <= i < |init| && init[i].date == x.date;
    if i < |init| - 1 {
      assert rows[i] == init[i];
      ContiguousBetween(rows, i, |rows| - 2, |rows| - 1);
    }
  }

  /** A date that has a bucket is the date of some row. */
  lemma DateSeenBefore(rows: seq<Row>, d: string)
    requires d in GroupByDate(rows).vals
    ensures exists i :: 0 <= i < |rows| && rows[i].date == d
  {
    GroupByDateKeys(rows);
    assert d in DatesOf(rows);
  }

  lemma ContiguousPrefix(rows: seq<Row>)
    requires rows != [] && DatesContiguous(rows)
    ensures DatesContiguous(rows[..|rows| - 1])
  {
    var init := rows[..|rows| - 1];
    forall i, j, k | 0 <= i < j < k < |init| && init[i].date == init[k].date
      ensures init[j].date == init[i].date
    {
      ContiguousBetween(rows, i, j, k);
    }
  }

  lemma ContiguousBetween(rows: seq<Row>, i: nat, j: nat, k: nat)
    requires DatesContiguous(rows)
    requires i < j < k < |rows| && rows[i].date == rows[k].date
    ensures rows[j].date == rows[i].date
  {
  }

  lemma FlattenNewKey(ks: seq<string>, g: map<string, seq<Row>>, d: string, x: Row)
    requires d !in ks
    ensures Flatten(ks + [d], g[d := [x]]) == Flatten(ks, g) + [x]
  {
    assert (ks + [d])[..|ks|] == ks;
    FlattenIgnores(ks, g, d, [x]);
  }

  lemma FlattenExtendLast(ks: seq<string>, g: map<string, seq<Row>>, x: Row)
    requires ks != [] && NoDups(ks) && ks[|ks| - 1] in g
    ensures var d := ks[|ks| - 1];
      Flatten(ks, g[d := g[d] + [x]]) == Flatten(ks, g) + [x]
  {
    var d := ks[|ks| - 1];
    var ks0 := ks[..|ks| - 1];
    assert ks == ks0 + [d];
    assert d !in ks0;
    FlattenIgnores(ks0, g, d, g[d] + [x]);
  }

  /** With contiguous dates, concatenating the buckets in key order gives the
      rows back. */
  lemma {:induction false} FlattenOfContiguous(rows: seq<Row>)
    requires DatesContiguous(rows)
    ensures Flatten(GroupByDate(rows).keys, GroupByDate(rows).vals) == rows
  {
    if rows != [] {
      var init := rows[..|rows| - 1];
      assert DatesContiguous(init);
      FlattenOfContiguous(init);
      LastBucketIsLastKey(rows);
      FlattenStep(rows);
    }
  }

  /** With contiguous dates, a row whose date already has a bucket belongs to
      the last key. */
  lemma LastBucketIsLastKey(rows: seq<Row>)
    requires rows != [] && DatesContiguous(rows)
    ensures var g := GroupByDate(rows[..|rows| - 1]);
      rows[|rows| - 1].date in g.vals ==> g.keys != [] && g.keys[|g.keys| - 1] == rows[|rows| - 1].date
  {
    if rows[|rows| - 1].date in GroupByDate(rows[..|rows| - 1]).vals {
      LastRowSharesDate(rows);
      LastKeyIsLastDate(rows[..|rows| - 1]);
    }
  }

  /** One more row extends the concatenation of the buckets by that row,
      provided a row joining an existing bucket joins the last one. */
  lemma FlattenStep(rows: seq<Row>)
    requires rows != []
    requires var g := GroupByDate(rows[..|rows| - 1]);
      rows[|rows| - 1].date in g.vals ==> g.keys != [] && g.keys[|g.keys| - 1] == rows[|rows| - 1].date
    requires var g := GroupByDate(rows[..|rows| - 1]); Flatten(g.keys, g.vals) == rows[..|rows| - 1]
    ensures Flatten(GroupByDate(rows).keys, GroupByDate(rows).vals) == rows
  {
    var init := rows[..|rows| - 1];
    var x := rows[|rows| - 1];
    var g := GroupByDate(init);
    SplitLast(rows);
    GroupByDateValid(init);
    if x.date in g.vals {
      assert GroupByDate(rows) == Put(g, x.date, g.vals[x.date] + [x]);
      FlattenPutLast(g, x);
    } else {
      assert GroupByDate(rows) == Put(g, x.date, [] + [x]);
      FlattenPutNew(g, x);
    }
  }

  lemma GroupByDateValid(rows: seq<Row>)
    ensures Valid(GroupByDate(rows))
  {
    GroupByDateKeys(rows);
  }

  /** Appending to the bucket of the last key appends to the concatenation. */
  lemma FlattenPutLast(g: Obj<seq<Row>>, x: Row)
    requires Valid(g) && g.keys != [] && g.keys[|g.keys| - 1] == x.date
    ensures var o := Put(g, x.date, g.vals[x.date] + [x]);
      Flatten(o.keys, o.vals) == Flatten(g.keys, g.vals) + [x]
  {
    FlattenExtendLast(g.keys, g.vals, x);
  }

  /** Starting a bucket for a new key appends to the concatenation. */
  lemma FlattenPutNew(g: Obj<seq<Row>>, x: Row)
    requires Valid(g) && x.date !in g.vals
    ensures var o := Put(g, x.date, [] + [x]);
      Flatten(o.keys, o.vals) == Flatten(g.keys, g.vals) + [x]
  {
    assert [] + [x] == [x];
    FlattenNewKey(g.keys, g.vals, x.date, x);
  }

  /** When different dates never share a timestamp, the sorted rows keep each
      date together, so the buckets in key order are exactly the sorted rows. */
  lemma SortedBucketsConcatenate(rows: seq<Row>, ts: string -> int)
    requires forall r1, r2 :: r1 in rows && r2 in rows && ts(r1.date) == ts(r2.date) ==> r1.date == r2.date
    ensures var sorted := SortByDate(rows, ts);
      Flatten(GroupByDate(sorted).keys, GroupByDate(sorted).vals) == sorted
  {
    var sorted := SortByDate(rows, ts);
    forall i, j, k | 0 <= i < j < k < |sorted| && sorted[i].date == sorted[k].date
      ensures sorted[j].date == sorted[i].date
    {
      assert sorted[i] in multiset(rows) && sorted[j] in multiset(rows);
    }
    FlattenOfContiguous(sorted);
  }

  /** Without that hypothesis the claim fails: two dates that share a
      timestamp stay interleaved after the sort, and the buckets regroup them. */
  lemma SharedTimestampRegroups(ts: string -> int, d1: string, d2: string, c: string)
    requires d1 != d2 && ts(d1) == ts(d2)
    ensures var rows := [Row(d1, c, None), Row(d2, c, None), Row(d1, c, None)];
      var sorted := SortByDate(rows, ts);
      Flatten(GroupByDate(sorted).keys, GroupByDate(sorted).vals) != sorted
  {
    var a, b := Row(d1, c, None), Row(d2, c, None);
    SortOfOneTimestamp([a, b, a], ts);
    GroupOfInterleaved(a, b);
    var g := GroupByDate([a, b, a]);
    FlattenOfInterleaved(g.keys, g.vals, a, b);
  }

  /** Rows that all share one timestamp are already sorted. */
  lemma SortOfOneTimestamp(rows: seq<Row>, ts: string -> int)
    requires forall i, j :: 0 <= i < j < |rows| ==> ts(rows[i].date) == ts(rows[j].date)
    ensures SortByDate(rows, ts) == rows
  {
    SortByDateIsTheStableSort(rows, ts, rows);
  }

  lemma GroupOfInterleaved(a: Row, b: Row)
    requires a.date != b.date
    ensures var g := GroupByDate([a, b, a]);
      && g.keys == [a.date, b.date]
      && a.date in g.vals && g.vals[a.date] == [a, a]
      && b.date in g.vals && g.vals[b.date] == [b]
  {
    GroupOfTwo(a, b);
    GroupByDateSnoc([a, b], a);
    assert [a, b] + [a] == [a, b, a];
  }

  lemma GroupOfTwo(a: Row, b: Row)
    requires a.date != b.date
    ensures var g := GroupByDate([a, b]);
      && g.keys == [a.date, b.date]
      && a.date in g.vals && g.vals[a.date] == [a]
      && b.date in g.vals && g.vals[b.date] == [b]
  {
    GroupOfOne(a);
    var g1 := GroupByDate([a]);
    assert b.date !in g1.vals;
    GroupByDateSnoc([a], b);
    assert [a] + [b] == [a, b];
    assert GroupByDate([a, b]) == Put(g1, b.date, [] + [b]);
  }

  lemma GroupOfOne(a: Row)
    ensures var g := GroupByDate([a]);
      g.keys == [a.date] && g.vals == map[a.date := [a]]
  {
    GroupByDateSnoc([], a);
    assert [] + [a] == [a];
  }

  /** One more row goes into its date's bucket. */
  lemma GroupByDateSnoc(rows: seq<Row>, x: Row)
    ensures GroupByDate(rows + [x]) ==
      Put(GroupByDate(rows), x.date, Bucket(GroupByDate(rows), x.date) + [x])
  {
    assert (rows + [x])[..|rows|] == rows;
  }

  lemma FlattenOfInterleaved(ks: seq<string>, g: map<string, seq<Row>>, a: Row, b: Row)
    requires ks == [a.date, b.date]
    requires a.date in g && g[a.date] == [a, a] && b.date in g && g[b.date] == [b]
    ensures Flatten(ks, g) == [a, a, b]
  {
    assert ks[..1] == [a.date];
    assert [a.date][..0] == [];
    assert Flatten([a.date], g) == [] + [a, a];
    assert [] + [a, a] == [a, a];
    assert [a, a] + [b] == [a, a, b];
  }

  /** After sorting, the date keys come out in chronological order. */
  lemma DatesInChronologicalOrder(rows: seq<Row>, ts: string -> int)
    ensures var ks := GroupByDate(SortByDate(rows, ts)).keys;
      forall i, j :: 0 <= i < j < |ks| ==> ts(ks[i]) <= ts(ks[j])
  {
    var sorted := SortByDate(rows, ts);
    var dates := DatesOf(sorted);
    var ks := GroupByDate(sorted).keys;
    GroupByDateKeys(sorted);
    DedupKeepsFirstAppearanceOrder(dates);
    forall i, j | 0 <= i < j < |ks|
      ensures ts(ks[i]) <= ts(ks[j])
    {
      var a := IndexOf(dates, ks[i]);
      var b := IndexOf(dates, ks[j]);
      assert sorted[a].date == ks[i] && sorted[b].date == ks[j];
    }
  }

  // ---- averaging per candidate ----

  /** `v` times the number of values is their sum. */
  predicate IsMeanOf(v: real, xs: seq<real>) {
    v * (|xs| as real) == Sum(xs)
  }

  /** The arithmetic mean, 0 for no values. */
  function Mean(xs: seq<real>): (r: real)
    ensures xs == [] ==> r == 0.0
    ensures xs != [] ==> IsMeanOf(r, xs)
  {
    if |xs| > 0 then Sum(xs) / (|xs| as real) else 0.0
  }

  lemma MeanBounds(xs: seq<real>, lo: real, hi: real)
    requires xs != [] && forall i :: 0 <= i < |xs| ==> lo <= xs[i] <= hi
    ensures lo <= Mean(xs) <= hi
  {
    SumBounds(xs, lo, hi);
    QuotientBounds(Sum(xs), |xs| as real, lo, hi);
  }

  lemma QuotientBounds(s: real, n: real, lo: real, hi: real)
    requires n > 0.0 && n * lo <= s <= n * hi
    ensures lo <= s / n <= hi
  {
    assert s / n * n == s;
  }

  lemma MeanOfOne(xs: seq<real>)
    requires |xs| == 1
    ensures Mean(xs) == xs[0]
  {
    assert xs[..0] == [];
    assert Sum(xs) == Sum([]) + xs[0];
  }

  lemma MeanNonNegative(xs: seq<real>)
    requires forall i :: 0 <= i < |xs| ==> xs[i] >= 0.0
    ensures Mean(xs) >= 0.0
  {
    SumNonNegative(xs);
    if xs != [] {
      var n := |xs| as real;
      assert Mean(xs) == Sum(xs) / n;
    }
  }

  function CandidatesOf(items: seq<Row>): (r: seq<string>)
    ensures |r| == |items| && forall i :: 0 <= i < |items| ==> r[i] == items[i].candidate
  {
    seq(|items|, i requires 0 <= i < |items| => items[i].candidate)
  }

  /** The shares reported for candidate `c`, in row order. */
  function SharesOf(items: seq<Row>, c: string): seq<real> {
    Shares(Filter(items, ForCandidate(c)))
  }

  /** `rs.map(i => i.percentage || 0)` */
  function Shares(rs: seq<Row>): (r: seq<real>)
    ensures |r| == |rs|
    ensures forall i :: 0 <= i < |rs| ==> r[i] == Share(rs[i])
  {
    if rs == [] then [] else Shares(rs[..|rs| - 1]) + [Share(rs[|rs| - 1])]
  }

  /** `valores.length > 0 ? valores.reduce((a, b) => a + b, 0) / valores.length : 0`
      for the candidate's shares. */
  function MeanShareOf(items: seq<Row>): string -> real {
    c => Mean(SharesOf(items, c))
  }

  /** `promedios`: per candidate, in order of first appearance, the mean of
      the shares reported for that candidate on one date. */
  function Averages(items: seq<Row>): Obj<real> {
    Assign(Dedup(CandidatesOf(items)), MeanShareOf(items))
  }

  /** The averaged candidates are exactly those in the rows, in order of
      first appearance, each with the mean of its shares. */
  lemma AveragesContents(items: seq<Row>)
    ensures Valid(Averages(items))
    ensures Averages(items).keys == Dedup(CandidatesOf(items))
    ensures forall c :: c in Averages(items).vals ==> Averages(items).vals[c] == Mean(SharesOf(items, c))
  {
    AssignContents(Dedup(CandidatesOf(items)), MeanShareOf(items));
  }

  /** A candidate that appears in the rows has at least one share. */
  lemma SharesOfPresent(items: seq<Row>, c: string)
    requires c in CandidatesOf(items)
    ensures SharesOf(items, c) != []
  {
    var i :| 0 <= i < |items| && items[i].candidate == c;
    assert items[i] in Filter(items, ForCandidate(c));
  }

  lemma AverageIsMean(items: seq<Row>, c: string)
    requires c in Averages(items).vals
    ensures SharesOf(items, c) != []
    ensures Averages(items).vals[c] == Mean(SharesOf(items, c))
  {
    AveragesContents(items);
    assert c in Dedup(CandidatesOf(items));
    SharesOfPresent(items, c);
  }

  /** Each candidate's average times the number of its rows is the sum of
      its shares, and a candidate reported once keeps its share. */
  lemma AverageOfCandidate(items: seq<Row>, c: string)
    requires c in Averages(items).vals
    ensures SharesOf(items, c) != []
    ensures IsMeanOf(Averages(items).vals[c], SharesOf(items, c))
    ensures |SharesOf(items, c)| == 1 ==> Averages(items).vals[c] == SharesOf(items, c)[0]
  {
    AverageIsMean(items, c);
    if |SharesOf(items, c)| == 1 {
      MeanOfOne(SharesOf(items, c));
    }
  }

  lemma SharesNonNegative(items: seq<Row>, c: string)
    requires forall i :: 0 <= i < |items| ==> Share(items[i]) >= 0.0
    ensures forall i :: 0 <= i < |SharesOf(items, c)| ==> SharesOf(items, c)[i] >= 0.0
  {
    var rs := Filter(items, ForCandidate(c));
    forall i | 0 <= i < |rs|
      ensures Share(rs[i]) >= 0.0
    {
      assert rs[i] in rs;
      var j :| 0 <= j < |items| && items[j] == rs[i];
    }
  }

  /** With no negative percentage, every average is non-negative. */
  lemma AveragesNonNegative(items: seq<Row>)
    requires forall i :: 0 <= i < |items| ==> Share(items[i]) >= 0.0
    ensures forall c :: c in Averages(items).vals ==> Averages(items).vals[c] >= 0.0
  {
    AveragesContents(items);
    forall c | c in Averages(items).vals
      ensures Averages(items).vals[c] >= 0.0
    {
      SharesNonNegative(items, c);
      MeanNonNegative(SharesOf(items, c));
    }
  }

  // ---- normalising to 100 ----

  /** `suma > 0 ? (valor / suma) * 100 : 0` for the value at key `k`. */
  function NormalizedOf(o: Obj<real>, s: real): string -> real {
    k => if s > 0.0 then Get(o.vals, k) / s * 100.0 else 0.0
  }

  /** `normalizados`: each entry of `o` rescaled by its total `suma`. */
  function Normalize(o: Obj<real>): Obj<real> {
    Assign(o.keys, NormalizedOf(o, Total(o)))
  }

  /** The factor `Normalize` multiplies every value by. */
  function Factor(total: real): real {
    if total > 0.0 then 100.0 / total else 0.0
  }

  lemma TotalTimesFactor(s: real)
    ensures s > 0.0 ==> s * Factor(s) == 100.0
    ensures s <= 0.0 ==> s * Factor(s) == 0.0
  {
  }

  lemma DivideThenScale(x: real, s: real)
    ensures (if s > 0.0 then x / s * 100.0 else 0.0) == x * Factor(s)
  {
  }

  /** The value `Normalize` gives key `k`. */
  lemma ScaledByFactor(x: real, s: real, y: real)
    requires y == x * Factor(s)
    ensures y == if s > 0.0 then x / s * 100.0 else 0.0
  {
    DivideThenScale(x, s);
  }

  lemma NormalizeAt(o: Obj<real>, k: string)
    requires NoDups(o.keys) && k in o.keys
    ensures k in Normalize(o).vals
    ensures Normalize(o).vals[k] == if Total(o) > 0.0 then Get(o.vals, k) / Total(o) * 100.0 else 0.0
  {
    AssignContents(o.keys, NormalizedOf(o, Total(o)));
  }

  lemma NormalizeKeys(o: Obj<real>)
    requires NoDups(o.keys)
    ensures Valid(Normalize(o)) && Normalize(o).keys == o.keys
  {
    AssignContents(o.keys, NormalizedOf(o, Total(o)));
  }

  lemma NormalizeScalesAt(o: Obj<real>, k: string)
    requires NoDups(o.keys) && k in o.keys
    ensures Get(Normalize(o).vals, k) == Get(o.vals, k) * Factor(Total(o))
  {
    NormalizeAt(o, k);
    DivideThenScale(Get(o.vals, k), Total(o));
  }

  /** Normalising keeps the keys and rescales every value by the same factor
      `100 / total`, or sets every value to 0 when the total is not positive. */
  lemma NormalizeScales(o: Obj<real>)
    requires NoDups(o.keys)
    ensures Valid(Normalize(o)) && Normalize(o).keys == o.keys
    ensures ScaledOn(o.keys, o.vals, Normalize(o).vals, Factor(Total(o)))
  {
    NormalizeKeys(o);
    forall k | k in o.keys
      ensures Get(Normalize(o).vals, k) == Get(o.vals, k) * Factor(Total(o))
    {
      NormalizeScalesAt(o, k);
    }
  }

  lemma NormalizeTotalScales(o: Obj<real>)
    requires NoDups(o.keys)
    ensures Total(Normalize(o)) == Total(o) * Factor(Total(o))
  {
    NormalizeScales(o);
    TotalOfScaled(o, Normalize(o), Factor(Total(o)));
  }

  /** Scaling every value of an object scales its total. */
  lemma TotalOfScaled(o: Obj<real>, n: Obj<real>, c: real)
    requires n.keys == o.keys && ScaledOn(o.keys, o.vals, n.vals, c)
    ensures Total(n) == Total(o) * c
  {
    SumAtScaled(o.keys, o.vals, n.vals, c);
  }

  /** After normalising, the values add up to 100 when the original total
      was positive, and to 0 otherwise. */
  lemma NormalizeTotal(o: Obj<real>)
    requires NoDups(o.keys)
    ensures Total(o) > 0.0 ==> Total(Normalize(o)) == 100.0
    ensures Total(o) <= 0.0 ==> Total(Normalize(o)) == 0.0
  {
    NormalizeTotalScales(o);
    TotalTimesFactor(Total(o));
  }

  /** With no negative value, every normalised value lies in [0, 100]. */
  lemma ShareOfTotalInRange(v: real, s: real)
    requires 0.0 <= v <= s && s > 0.0
    ensures 0.0 <= v / s * 100.0 <= 100.0
  {
    assert v / s <= 1.0;
  }

  lemma NormalizeRange(o: Obj<real>)
    requires NoDups(o.keys)
    requires forall k :: k in o.keys ==> Get(o.vals, k) >= 0.0
    ensures forall k :: k in o.keys ==> 0.0 <= Get(Normalize(o).vals, k) <= 100.0
  {
    var s := Total(o);
    forall k | k in o.keys
      ensures 0.0 <= Get(Normalize(o).vals, k) <= 100.0
    {
      NormalizeAt(o, k);
      if s > 0.0 {
        SumAtAtLeastMember(o.keys, o.vals, k);
        ShareOfTotalInRange(Get(o.vals, k), s);
      }
    }
  }

  /** Normalising preserves ratios: any two values keep their proportion. */
  lemma NormalizeKeepsRatios(o: Obj<real>, a: string, b: string)
    requires NoDups(o.keys) && a in o.keys && b in o.keys
    ensures Get(Normalize(o).vals, a) * Get(o.vals, b) == Get(Normalize(o).vals, b) * Get(o.vals, a)
  {
    NormalizeScalesAt(o, a);
    NormalizeScalesAt(o, b);
    SameFactor(Get(o.vals, a), Get(o.vals, b), Factor(Total(o)));
  }

  lemma SameFactor(x: real, y: real, f: real)
    ensures (x * f) * y == (y * f) * x
  {
  }

  // ---- per-date shares ----

  /** One date of the chart with each candidate's normalised share. */
  datatype Day = Day(date: string, shares: Obj<real>)

  /** The rows grouped under date `d`, or none. */
  function Bucket(g: Obj<seq<Row>>, d: string): seq<Row> {
    if d in g.vals then g.vals[d] else []
  }

  /** `fechasNormalizadas`: the dates of the rows in chronological order,
      each with its normalised per-candidate averages. */
  function Days(rows: seq<Row>, ts: string -> int): seq<Day> {
    var g := GroupByDate(SortByDate(rows, ts));
    seq(|g.keys|, i requires 0 <= i < |g.keys| =>
      Day(g.keys[i], Normalize(Averages(Bucket(g, g.keys[i])))))
  }

  /** The days are the distinct dates, chronologically, and each day holds
      the normalised averages of exactly the rows on that date, taken in
      sorted order. */
  lemma DaysAt(rows: seq<Row>, ts: string -> int, i: nat)
    requires i < |Days(rows, ts)|
    ensures var sorted := SortByDate(rows, ts);
      var d := Days(rows, ts)[i].date;
      && |Days(rows, ts)| == |Dedup(DatesOf(sorted))|
      && d == Dedup(DatesOf(sorted))[i]
      && Days(rows, ts)[i].shares == Normalize(Averages(RowsOn(sorted, d)))
  {
    var sorted := SortByDate(rows, ts);
    GroupByDateKeys(sorted);
    GroupByDateBuckets(sorted);
  }

  /** Each day's shares add up to 100, or to 0 when every average on that
      date was 0. */
  lemma DayShares(rows: seq<Row>, ts: string -> int, i: nat)
    requires i < |Days(rows, ts)|
    ensures var o := Days(rows, ts)[i].shares;
      var a := Averages(RowsOn(SortByDate(rows, ts), Days(rows, ts)[i].date));
      && Valid(o)
      && (Total(a) > 0.0 ==> Total(o) == 100.0)
      && (Total(a) <= 0.0 ==> Total(o) == 0.0)
  {
    var sorted := SortByDate(rows, ts);
    DaysAt(rows, ts, i);
    var items := RowsOn(sorted, Days(rows, ts)[i].date);
    AveragesContents(items);
    NormalizeScales(Averages(items));
    NormalizeTotal(Averages(items));
  }

  /** The rows of one date come from the input. */
  lemma DayRowsFromInput(rows: seq<Row>, ts: string -> int, d: string)
    ensures forall r :: r in RowsOn(SortByDate(rows, ts), d) ==> r in rows
  {
    var sorted := SortByDate(rows, ts);
    forall r | r in RowsOn(sorted, d)
      ensures r in rows
    {
      assert r in multiset(sorted);
    }
  }

  /** With no negative share among the rows, every normalised average lies
      in [0, 100]. */
  lemma NormalizedAveragesInRange(items: seq<Row>)
    requires forall j :: 0 <= j < |items| ==> Share(items[j]) >= 0.0
    ensures var o := Normalize(Averages(items));
      forall k :: k in o.keys ==> 0.0 <= Get(o.vals, k) <= 100.0
  {
    var a := Averages(items);
    AveragesNonNegative(items);
    AveragesContents(items);
    NormalizeRange(a);
    NormalizeKeys(a);
  }

  /** With no negative percentage, each day's shares lie in [0, 100]. */
  lemma DaySharesInRange(rows: seq<Row>, ts: string -> int, i: nat)
    requires i < |Days(rows, ts)|
    requires forall j :: 0 <= j < |rows| ==> Share(rows[j]) >= 0.0
    ensures var o := Days(rows, ts)[i].shares;
      forall k :: k in o.keys ==> 0.0 <= Get(o.vals, k) <= 100.0
  {
    DaysAt(rows, ts, i);
    var items := RowsOn(SortByDate(rows, ts), Days(rows, ts)[i].date);
    DayRowsFromInput(rows, ts, Days(rows, ts)[i].date);
    forall j | 0 <= j < |items|
      ensures Share(items[j]) >= 0.0
    {
      assert items[j] in items;
    }
    NormalizedAveragesInRange(items);
  }
}
