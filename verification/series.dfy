/** The tracking chart drawn from the per-date shares: one series for the own
    candidate with all of its aliases added up, one series per opponent, one
    for the undecided answer; the own candidate's latest share; and the own
    candidate's average over all dates. */
module Series {
  import opened Seqs
  import opened Aliases
  import opened Tracking
  import opened Text

  /** The label of the merged own-candidate series. */
  const OwnLabel: string := "CANDIDATO PROPIO"

  /** The label of the undecided answer. */
  const Undecided: string := "NO SABE/NO CONTEST\U{D3}"

  // ---- the own candidate's share on one date ----

  predicate NotOwn(name: string) {
    !IsOwnCandidate(name)
  }

  /** The shares of every alias of the own candidate on one date, added up. */
  function OwnTotal(o: Obj<real>): real {
    SharesWhere(o, IsOwnCandidate)
  }

  /** The shares of the names satisfying `p` on one date, added up. */
  function SharesWhere(o: Obj<real>, p: string -> bool): real {
    SumAt(Filter(o.keys, p), o.vals)
  }

  /** With no negative share, the own candidate's total lies between 0 and the
      date's total. */
  lemma OwnTotalBounds(o: Obj<real>)
    requires forall k :: k in o.keys ==> Get(o.vals, k) >= 0.0
    ensures 0.0 <= OwnTotal(o) <= Total(o)
  {
    SumAtPartition(o.keys, o.vals, IsOwnCandidate, NotOwn);
    SumAtNonNegative(Filter(o.keys, IsOwnCandidate), o.vals);
    SumAtNonNegative(Filter(o.keys, NotOwn), o.vals);
  }

  /** With no negative share, no alias's share exceeds the own total. */
  lemma OwnTotalCountsEveryAlias(o: Obj<real>, k: string)
    requires k in o.keys && IsOwnCandidate(k)
    requires forall j :: j in o.keys ==> Get(o.vals, j) >= 0.0
    ensures Get(o.vals, k) <= OwnTotal(o)
  {
    SumAtAtLeastMember(Filter(o.keys, IsOwnCandidate), o.vals, k);
  }

  /** Each alias present adds its whole share to the own total, on top of
      what the other aliases add: the aliases are summed, not overwritten. */
  lemma OwnTotalSplitsAtAlias(o: Obj<real>, k: string)
    requires Valid(o) && k in o.keys && IsOwnCandidate(k)
    ensures OwnTotal(o) == Get(o.vals, k) + SharesWhere(o, OtherAlias(k))
  {
    var f := Filter(o.keys, IsOwnCandidate);
    FilterNoDups(o.keys, IsOwnCandidate);
    var atK, notK := (n: string) => n == k, (n: string) => n != k;
    SumAtPartition(f, o.vals, atK, notK);
    var here, rest := Filter(f, atK), Filter(f, notK);
    FilterNoDups(f, atK);
    FilterNoDups(f, notK);
    SumAtSameKeys([k], here, o.vals);
    assert SumAt([k], o.vals) == SumAt([], o.vals) + Get(o.vals, k);
    var others := Filter(o.keys, OtherAlias(k));
    FilterNoDups(o.keys, OtherAlias(k));
    SumAtSameKeys(rest, others, o.vals);
  }

  /** The aliases of the own candidate other than `k`. */
  function OtherAlias(k: string): string -> bool {
    (n: string) => IsOwnCandidate(n) && n != k
  }

  /** A date without any alias of the own candidate gives it 0. */
  lemma OwnTotalWithoutAlias(o: Obj<real>)
    requires forall k :: k in o.keys ==> !IsOwnCandidate(k)
    ensures OwnTotal(o) == 0.0
  {
    FilterNone(o.keys, IsOwnCandidate);
  }

  /** A date whose only alias is `k` gives the own candidate the share at `k`. */
  lemma OwnTotalOfSingleAlias(o: Obj<real>, k: string)
    requires Valid(o) && k in o.keys && IsOwnCandidate(k)
    requires forall j :: j in o.keys && j != k ==> !IsOwnCandidate(j)
    ensures OwnTotal(o) == Get(o.vals, k)
  {
    var f := Filter(o.keys, IsOwnCandidate);
    FilterNoDups(o.keys, IsOwnCandidate);
    SumAtSameKeys([k], f, o.vals);
    assert SumAt([k], o.vals) == SumAt([], o.vals) + Get(o.vals, k);
  }

  /** The aliases stay separate keys through normalisation and are added up
      afterwards; by linearity that is the same as normalising their added-up
      averages against the date's total. The same holds for any kind of name:
      `OwnTotal` is the case `p == IsOwnCandidate`. */
  lemma {:induction false} MergeAfterNormalizing(o: Obj<real>, p: string -> bool)
    requires NoDups(o.keys)
    ensures SharesWhere(Normalize(o), p) ==
      if Total(o) > 0.0 then SharesWhere(o, p) / Total(o) * 100.0 else 0.0
  {
    NormalizeScales(o);
    SharesWhereRescaled(o, Normalize(o), p);
  }

  /** Rescaling every share of a date by the normalising factor rescales the
      total of any kind of name the same way. */
  lemma {:induction false} SharesWhereRescaled(o: Obj<real>, n: Obj<real>, p: string -> bool)
    requires n.keys == o.keys && ScaledOn(o.keys, o.vals, n.vals, Factor(Total(o)))
    ensures SharesWhere(n, p) ==
      if Total(o) > 0.0 then SharesWhere(o, p) / Total(o) * 100.0 else 0.0
  {
    SharesWhereScaled(o, n, p, Factor(Total(o)));
    ScaledByFactor(SharesWhere(o, p), Total(o), SharesWhere(n, p));
  }

  /** Scaling every share of a date by `c` scales the total of any kind of
      name by `c`. */
  lemma {:induction false} SharesWhereScaled(o: Obj<real>, n: Obj<real>, p: string -> bool, c: real)
    requires n.keys == o.keys && ScaledOn(o.keys, o.vals, n.vals, c)
    ensures SharesWhere(n, p) == SharesWhere(o, p) * c
  {
    SumOfPartScaled(o.keys, Filter(o.keys, p), o.vals, n.vals, c);
  }

  // ---- the series ----

  /** A date's value in the series of `c`: the merged own total for the own
      label, otherwise the share at `c`, with 0 for a missing name. */
  function ValueOn(day: Day, c: string): real {
    if c == OwnLabel then OwnTotal(day.shares) else Get(day.shares.vals, c)
  }

  /** `getCandidateData(c)`: one value per date, in date order. */
  function CandidateData(days: seq<Day>, c: string): (r: seq<real>)
    ensures |r| == |days|
    ensures forall i :: 0 <= i < |days| ==> r[i] == ValueOn(days[i], c)
  {
    seq(|days|, i requires 0 <= i < |days| => ValueOn(days[i], c))
  }

  // ---- the opponents ----

  /** Every date's names, date after date, each date's in key order. */
  function AllNames(days: seq<Day>): seq<string> {
    if days == [] then [] else AllNames(days[..|days| - 1]) + days[|days| - 1].shares.keys
  }

  lemma {:induction false} AllNamesMembers(days: seq<Day>)
    ensures forall n :: n in AllNames(days) <==> exists i :: 0 <= i < |days| && n in days[i].shares.keys
  {
    if days != [] {
      var init := days[..|days| - 1];
      AllNamesMembers(init);
      forall n | n in AllNames(days)
        ensures exists i :: 0 <= i < |days| && n in days[i].shares.keys
      {
        if n in AllNames(init) {
          var i :| 0 <= i < |init| && n in init[i].shares.keys;
          assert days[i] == init[i];
        }
      }
      forall n, i | 0 <= i < |days| && n in days[i].shares.keys
        ensures n in AllNames(days)
      {
        if i < |init| {
          assert init[i] == days[i];
        }
      }
    }
  }

  /** A name that is neither an alias of the own candidate nor the undecided
      answer. */
  predicate IsOpponent(name: string) {
    !IsOwnCandidate(name) && name != Undecided
  }

  /** `opositorNames`: the distinct opponents, in order of first appearance. */
  function Opponents(days: seq<Day>): seq<string> {
    Dedup(Filter(AllNames(days), IsOpponent))
  }

  /** The opponents are exactly the names on some date that are neither an
      alias nor the undecided answer, each listed once. */
  lemma OpponentsMembers(days: seq<Day>)
    ensures NoDups(Opponents(days))
    ensures forall n :: n in Opponents(days) <==>
      IsOpponent(n) && exists i :: 0 <= i < |days| && n in days[i].shares.keys
  {
    AllNamesMembers(days);
  }

  /** The opponents come in the order in which they first appear. */
  lemma OpponentsInFirstAppearanceOrder(days: seq<Day>)
    ensures var ns := AllNames(days); var os := Opponents(days);
      forall i, j :: 0 <= i < j < |os| ==> IndexOf(ns, os[i]) < IndexOf(ns, os[j])
  {
    var ns := AllNames(days);
    var f := Filter(ns, IsOpponent);
    var os := Opponents(days);
    DedupKeepsFirstAppearanceOrder(f);
    forall i, j | 0 <= i < j < |os|
      ensures IndexOf(ns, os[i]) < IndexOf(ns, os[j])
    {
      assert os[i] in f && os[j] in f;
      FilterKeepsFirstAppearanceOrder(ns, IsOpponent, os[i], os[j]);
    }
  }

  /** A blank name, the empty one included, counts as an opponent. */
  lemma BlankNameIsOpponent(name: string)
    requires AllSpace(name)
    ensures IsOpponent(name)
  {
    BlankIsNotOwnCandidate(name);
  }

  /** The undecided answer is not taken for an alias of the own candidate. */
  lemma UndecidedIsNotOwn()
    ensures !IsOwnCandidate(Undecided)
  {
    NotOwnWithout(Undecided, 'y', 'p');
  }

  // ---- one date split by kind of name ----

  predicate IsUndecided(name: string) {
    name == Undecided
  }

  predicate NotUndecided(name: string) {
    name != Undecided
  }

  /** One date's shares split into the own total, the opponents and the
      undecided answer. */
  lemma DayPartition(o: Obj<real>, opps: seq<string>)
    requires Valid(o) && NoDups(opps)
    requires forall n :: n in opps ==> IsOpponent(n)
    requires forall k :: k in o.keys && IsOpponent(k) ==> k in opps
    ensures OwnTotal(o) + SumAt(opps, o.vals) + Get(o.vals, Undecided) == Total(o)
  {
    UndecidedIsNotOwn();
    var rest := Filter(o.keys, NotOwn);
    SumAtPartition(o.keys, o.vals, IsOwnCandidate, NotOwn);
    SumAtPartition(rest, o.vals, IsUndecided, NotUndecided);
    FilterNoDups(o.keys, NotOwn);
    FilterNoDups(rest, IsUndecided);
    FilterNoDups(rest, NotUndecided);
    SumAtSameKeys(opps, Filter(rest, NotUndecided), o.vals);
    SumAtSameKeys([Undecided], Filter(rest, IsUndecided), o.vals);
    assert SumAt([Undecided], o.vals) == SumAt([], o.vals) + Get(o.vals, Undecided);
  }

  // ---- the chart ----

  /** One line of the chart: its label and one value per date. */
  datatype Dataset = Dataset(title: string, values: seq<real>)

  /** The chart: one label per date and the lines. */
  datatype Chart = Chart(labels: seq<string>, datasets: seq<Dataset>)

  /** One line per name, each with that name's series. */
  function Lines(days: seq<Day>, names: seq<string>): (r: seq<Dataset>)
    ensures |r| == |names|
  {
    if names == [] then []
    else
      var c := names[|names| - 1];
      Lines(days, names[..|names| - 1]) + [Dataset(c, CandidateData(days, c))]
  }

  /** The `j`-th line is the series of the `j`-th name. */
  lemma {:induction false} LinesAt(days: seq<Day>, names: seq<string>, j: nat)
    requires j < |names|
    ensures Lines(days, names)[j] == Dataset(names[j], CandidateData(days, names[j]))
  {
    var init := names[..|names| - 1];
    if j < |init| {
      LinesAt(days, init, j);
    }
  }

  lemma {:induction false} LinesAppend(days: seq<Day>, a: seq<string>, b: seq<string>)
    ensures Lines(days, a + b) == Lines(days, a) + Lines(days, b)
    decreases |b|
  {
    if b != [] {
      var binit := b[..|b| - 1];
      assert (a + b)[..|a + b| - 1] == a + binit;
      assert (a + b)[|a + b| - 1] == b[|b| - 1];
      LinesAppend(days, a, binit);
    } else {
      assert a + b == a;
    }
  }

  /** The lines' labels, in order: the own label, the opponents, the
      undecided answer. */
  function Titles(days: seq<Day>): seq<string> {
    [OwnLabel] + Opponents(days) + [Undecided]
  }

  /** The chart's data, with the dates labelling the columns. */
  function BuildChart(days: seq<Day>): (r: Chart)
    ensures |r.labels| == |days|
    ensures |r.datasets| == |Opponents(days)| + 2
  {
    Chart(seq(|days|, i requires 0 <= i < |days| => days[i].date), Lines(days, Titles(days)))
  }

  /** Line `j` is labelled with the `j`-th title, so the own line comes
      first, then the opponents in order, then the undecided answer; every
      line has one value per date, that of the name it is labelled with. */
  lemma ChartShape(days: seq<Day>, j: nat)
    requires j < |BuildChart(days).datasets|
    ensures BuildChart(days).datasets[j].title == Titles(days)[j]
    ensures j == 0 ==> Titles(days)[j] == OwnLabel
    ensures 0 < j <= |Opponents(days)| ==> Titles(days)[j] == Opponents(days)[j - 1]
    ensures j == |Opponents(days)| + 1 ==> Titles(days)[j] == Undecided
    ensures BuildChart(days).datasets[j].values == CandidateData(days, Titles(days)[j])
    ensures |BuildChart(days).datasets[j].values| == |days|
  {
    LinesAt(days, Titles(days), j);
  }

  /** Neither the own label nor the undecided answer is an opponent. */
  lemma OpponentsExcludeLabels(days: seq<Day>)
    ensures forall n :: n in Opponents(days) ==> n != OwnLabel && n != Undecided
  {
    OpponentsMembers(days);
    OwnLabelIsOwnCandidate();
  }

  /** Framing distinct names that are neither label keeps them distinct. */
  lemma FramedDistinct(os: seq<string>)
    requires NoDups(os)
    requires forall n :: n in os ==> n != OwnLabel && n != Undecided
    ensures NoDups([OwnLabel] + os + [Undecided])
  {
    var t := [OwnLabel] + os + [Undecided];
    forall a, b | 0 <= a < b < |t|
      ensures t[a] != t[b]
    {
      if 0 < a && b < |t| - 1 {
        assert t[a] == os[a - 1] && t[b] == os[b - 1];
      } else if a == 0 && b < |t| - 1 {
        assert t[b] == os[b - 1] && os[b - 1] in os;
      } else if 0 < a {
        assert t[a] == os[a - 1] && os[a - 1] in os;
      } else {
        assert |OwnLabel| != |Undecided|;
      }
    }
  }

  /** No two lines of the chart share a label. */
  lemma TitlesDistinct(days: seq<Day>)
    ensures NoDups(Titles(days))
  {
    OpponentsExcludeLabels(days);
    FramedDistinct(Opponents(days));
  }

  lemma ChartLabelsDistinct(days: seq<Day>)
    ensures var ds := BuildChart(days).datasets;
      forall a, b :: 0 <= a < b < |ds| ==> ds[a].title != ds[b].title
  {
    TitlesDistinct(days);
    var ds := BuildChart(days).datasets;
    forall a, b | 0 <= a < b < |ds|
      ensures ds[a].title != ds[b].title
    {
      ChartShape(days, a);
      ChartShape(days, b);
    }
  }

  /** A line's value in column `i`, 0 past its end. */
  function ValueAt(d: Dataset, i: nat): real {
    if i < |d.values| then d.values[i] else 0.0
  }

  /** The values of the lines `ds` in column `i`, added up. */
  function ColumnSum(ds: seq<Dataset>, i: nat): real {
    if ds == [] then 0.0 else ColumnSum(ds[..|ds| - 1], i) + ValueAt(ds[|ds| - 1], i)
  }

  lemma {:induction false} ColumnSumAppend(a: seq<Dataset>, b: seq<Dataset>, i: nat)
    ensures ColumnSum(a + b, i) == ColumnSum(a, i) + ColumnSum(b, i)
    decreases |b|
  {
    if b != [] {
      var binit := b[..|b| - 1];
      assert (a + b)[..|a + b| - 1] == a + binit;
      ColumnSumAppend(a, binit, i);
    } else {
      assert a + b == a;
    }
  }

  /** The lines of names other than the own label add up, in each column, to
      those names' shares on that date. */
  lemma {:induction false} LinesColumn(days: seq<Day>, names: seq<string>, i: nat)
    requires i < |days|
    requires forall n :: n in names ==> n != OwnLabel
    ensures ColumnSum(Lines(days, names), i) == SumAt(names, days[i].shares.vals)
  {
    if names != [] {
      var init := names[..|names| - 1];
      var c := names[|names| - 1];
      assert c in names;
      assert forall n :: n in init ==> n in names;
      var line := Dataset(c, CandidateData(days, c));
      ColumnSumAppend(Lines(days, init), [line], i);
      assert ColumnSum([line], i) == ColumnSum([], i) + ValueAt(line, i);
      LinesColumn(days, init, i);
    }
  }

  /** In every column the lines add up to the date's total. */
  lemma ColumnTotal(days: seq<Day>, i: nat)
    requires i < |days| && Valid(days[i].shares)
    ensures ColumnSum(BuildChart(days).datasets, i) == Total(days[i].shares)
  {
    var os := Opponents(days);
    var own := Dataset(OwnLabel, CandidateData(days, OwnLabel));
    var und := Dataset(Undecided, CandidateData(days, Undecided));
    OpponentsMembers(days);
    OwnLabelIsOwnCandidate();
    LinesAppend(days, [OwnLabel] + os, [Undecided]);
    LinesAppend(days, [OwnLabel], os);
    assert Lines(days, [OwnLabel]) == [own];
    assert Lines(days, [Undecided]) == [und];
    ColumnSumAppend([own] + Lines(days, os), [und], i);
    ColumnSumAppend([own], Lines(days, os), i);
    assert ColumnSum([own], i) == ColumnSum([], i) + ValueAt(own, i);
    assert ColumnSum([und], i) == ColumnSum([], i) + ValueAt(und, i);
    LinesColumn(days, os, i);
    DayPartition(days[i].shares, os);
  }

  // ---- the latest value and the own average ----

  /** `getLatestData(c).percentage`: the value of `c` on the last date, 0
      when there is no date. */
  function Latest(days: seq<Day>, c: string): real {
    if days == [] then 0.0 else ValueOn(days[|days| - 1], c)
  }

  /** The latest value is the last point of the chart's series. */
  lemma LatestIsLastOfSeries(days: seq<Day>, c: string)
    ensures days == [] ==> Latest(days, c) == 0.0
    ensures days != [] ==> Latest(days, c) == CandidateData(days, c)[|days| - 1]
  {
  }

  /** `promedioPropio`: the mean of the own series when some date gives the
      own candidate a positive share, otherwise 0. */
  function OwnAverage(days: seq<Day>): (r: real)
    ensures (exists i :: 0 <= i < |days| && ValueOn(days[i], OwnLabel) > 0.0) ==>
      IsMeanOf(r, CandidateData(days, OwnLabel))
    ensures (forall i :: 0 <= i < |days| ==> ValueOn(days[i], OwnLabel) <= 0.0) ==> r == 0.0
  {
    var xs := CandidateData(days, OwnLabel);
    if |xs| > 0 && exists i :: 0 <= i < |xs| && xs[i] > 0.0 then Mean(xs) else 0.0
  }

  /** Own values within [0, 100] on every date keep the average there. */
  lemma OwnAverageInRange(days: seq<Day>)
    requires forall i :: 0 <= i < |days| ==> 0.0 <= ValueOn(days[i], OwnLabel) <= 100.0
    ensures 0.0 <= OwnAverage(days) <= 100.0
  {
    var xs := CandidateData(days, OwnLabel);
    if xs != [] {
      MeanBounds(xs, 0.0, 100.0);
    }
  }

  // ---- the chart of the tracking rows ----

  /** With no negative percentage, the own candidate's value on each date of
      the tracking rows lies in [0, 100]. */
  lemma OwnShareInRange(rows: seq<Row>, ts: string -> int, i: nat)
    requires i < |Days(rows, ts)|
    requires forall j :: 0 <= j < |rows| ==> Share(rows[j]) >= 0.0
    ensures 0.0 <= ValueOn(Days(rows, ts)[i], OwnLabel) <= 100.0
  {
    var o := Days(rows, ts)[i].shares;
    DaySharesInRange(rows, ts, i);
    DayShares(rows, ts, i);
    OwnTotalBounds(o);
  }

  /** Each column of the chart of the tracking rows adds up to 100 when the
      averages on that date add up to more than 0, and to 0 otherwise. */
  lemma ChartColumnsAddUp(rows: seq<Row>, ts: string -> int, i: nat)
    requires i < |Days(rows, ts)|
    ensures var s := ColumnSum(BuildChart(Days(rows, ts)).datasets, i);
      var a := Averages(RowsOn(SortByDate(rows, ts), Days(rows, ts)[i].date));
      && (Total(a) > 0.0 ==> s == 100.0)
      && (Total(a) <= 0.0 ==> s == 0.0)
  {
    DayShares(rows, ts, i);
    ColumnTotal(Days(rows, ts), i);
  }

  /** With no negative percentage, the latest own value lies in [0, 100]. */
  lemma LatestOwnInRange(rows: seq<Row>, ts: string -> int)
    requires forall j :: 0 <= j < |rows| ==> Share(rows[j]) >= 0.0
    ensures 0.0 <= Latest(Days(rows, ts), OwnLabel) <= 100.0
  {
    var days := Days(rows, ts);
    if days != [] {
      OwnShareInRange(rows, ts, |days| - 1);
    }
  }

  /** With no negative percentage, the own average lies in [0, 100]. */
  lemma OwnAverageOfRowsInRange(rows: seq<Row>, ts: string -> int)
    requires forall j :: 0 <= j < |rows| ==> Share(rows[j]) >= 0.0
    ensures 0.0 <= OwnAverage(Days(rows, ts)) <= 100.0
  {
    var days := Days(rows, ts);
    forall i | 0 <= i < |days|
      ensures 0.0 <= ValueOn(days[i], OwnLabel) <= 100.0
    {
      OwnShareInRange(rows, ts, i);
    }
    OwnAverageInRange(days);
  }
}
