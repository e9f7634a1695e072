/** The data wrangling of the "rental units occupied percentage" line chart:
    the Riverside series (one point per row of the Riverside census tract),
    the statewide "Delaware" series (rows grouped by year, with the mean
    occupied percentage and the total of reported units per year), and the
    placement of one circle per point of either series. */
module OccupiedPercentage {
  import Scales

  /** A CSV field once parsed: the empty string, or a number. */
  datatype Field = Empty | Num(value: real)

  /** One row of the combined HUD table. A year is a four-digit calendar
      year, written without leading zeros. The JavaScript engine treats such a
      key as an array index, so this model keeps it as a natural number. */
  datatype Row = Row(code: string, year: nat, pctOccupied: Field, totalUnits: Field, numberReported: Field)

  /** A point of the Riverside series: [year, pct_occupied / 100, total_units]. */
  datatype RiversidePoint = RiversidePoint(year: nat, value: real, totalUnits: Field)

  /** One [pct_occupied, number_reported] pair kept in a year's group. */
  datatype Pair = Pair(pct: real, units: real)

  /** A point of the statewide series: [year, mean percentage / 100, unit total]. */
  datatype YearAggregate = YearAggregate(year: nat, average: real, unitSum: real)

  /** A circle drawn for one point of a series. */
  datatype Circle = Circle(cx: real, cy: real, radius: real, fill: string)

  /** The census tract code of Riverside. */
  const RIVERSIDE_CODE: string := "10003003002"

  const RIVERSIDE_FILL: string := "#a8ddb5"
  const DELAWARE_FILL: string := "#e7298a"
  const CIRCLE_RADIUS: real := 5.0

  // ---------------------------------------------------------------------
  // The Riverside series
  // ---------------------------------------------------------------------

  /** Number coercion of a field: JavaScript turns the empty string into 0. */
  function AsNumber(f: Field): real
  {
    match f
    case Empty => 0.0
    case Num(v) => v
  }

  /** The point a Riverside row becomes. No field is checked for emptiness. */
  function ToRiversidePoint(r: Row): RiversidePoint
  {
    RiversidePoint(r.year, AsNumber(r.pctOccupied) / 100.0, r.totalUnits)
  }

  /** The Riverside series of a table: its Riverside rows, in order, as points. */
  function RiversideSeries(data: seq<Row>): seq<RiversidePoint>
  {
    if data == [] then []
    else
      var last := data[|data| - 1];
      RiversideSeries(data[..|data| - 1]) + (if last.code == RIVERSIDE_CODE then [ToRiversidePoint(last)] else [])
  }

  ghost predicate StrictlyIncreasing(s: seq<nat>)
  {
    forall i, j :: 0 <= i < j < |s| ==> s[i] < s[j]
  }

  /** The positions of the Riverside rows of a table, in increasing order. */
  function RiversideIndices(data: seq<Row>): (idx: seq<nat>)
    ensures StrictlyIncreasing(idx)
    ensures forall k :: 0 <= k < |idx| ==> idx[k] < |data| && data[idx[k]].code == RIVERSIDE_CODE
    ensures forall i :: 0 <= i < |data| && data[i].code == RIVERSIDE_CODE ==> i in idx
  {
    if data == [] then []
    else
      var n := |data| - 1;
      var front := RiversideIndices(data[..n]);
      assert forall k :: 0 <= k < |front| ==> data[front[k]] == data[..n][front[k]];
      assert forall i :: 0 <= i < n ==> data[i] == data[..n][i];
      front + (if data[n].code == RIVERSIDE_CODE then [n] else [])
  }

  /** The Riverside series is exactly the rows with the Riverside code, in
      input order, each turned into its point. */
  lemma {:induction false} RiversideSeriesIsFilter(data: seq<Row>)
    ensures |RiversideSeries(data)| == |RiversideIndices(data)|
    ensures forall k :: 0 <= k < |RiversideIndices(data)| ==>
      RiversideSeries(data)[k] == ToRiversidePoint(data[RiversideIndices(data)[k]])
  {
    if data != [] {
      var n := |data| - 1;
      RiversideSeriesIsFilter(data[..n]);
      var series, idx := RiversideSeries(data), RiversideIndices(data);
      var front, frontIdx := RiversideSeries(data[..n]), RiversideIndices(data[..n]);
      assert series == front + (if data[n].code == RIVERSIDE_CODE then [ToRiversidePoint(data[n])] else []);
      assert idx == frontIdx + (if data[n].code == RIVERSIDE_CODE then [n] else []);
      forall k | 0 <= k < |idx| ensures series[k] == ToRiversidePoint(data[idx[k]]) {
        if k < |frontIdx| {
          assert series[k] == front[k] && idx[k] == frontIdx[k];
          assert data[frontIdx[k]] == data[..n][frontIdx[k]];
        }
      }
    }
  }

  /** The first loop of the drawing routine: push the point of every Riverside row. */
  method BuildRiversideSeries(data: seq<Row>) returns (dataset: seq<RiversidePoint>)
    ensures dataset == RiversideSeries(data)
  {
    dataset := [];
    for i := 0 to |data|
      invariant dataset == RiversideSeries(data[..i])
    {
      assert data[..i + 1][..i] == data[..i];
      var obj := data[i];
      if obj.code == RIVERSIDE_CODE {
        dataset := dataset + [ToRiversidePoint(obj)];
      }
    }
    assert data[..|data|] == data;
  }

  // ---------------------------------------------------------------------
  // Grouping by year
  // ---------------------------------------------------------------------

  /** A row takes part in the statewide series unless its occupied
      percentage or its reported unit count is empty. The code is not read. */
  predicate Kept(r: Row)
  {
    !r.pctOccupied.Empty? && !r.numberReported.Empty?
  }

  function PairOf(r: Row): Pair
    requires Kept(r)
  {
    Pair(r.pctOccupied.value, r.numberReported.value)
  }

  /** The pairs of the kept rows of year y, in input order. */
  function YearPairs(data: seq<Row>, y: nat): seq<Pair>
  {
    if data == [] then []
    else
      var last := data[|data| - 1];
      YearPairs(data[..|data| - 1], y) + (if Kept(last) && last.year == y then [PairOf(last)] else [])
  }

  /** The pairs of all kept rows, in input order. */
  function KeptPairs(data: seq<Row>): seq<Pair>
  {
    if data == [] then []
    else
      var last := data[|data| - 1];
      KeptPairs(data[..|data| - 1]) + (if Kept(last) then [PairOf(last)] else [])
  }

  /** The years of the kept rows. */
  ghost function KeptYears(data: seq<Row>): set<nat>
  {
    set i | 0 <= i < |data| && Kept(data[i]) :: data[i].year
  }

  lemma KeptYearsSnoc(data: seq<Row>, r: Row)
    ensures KeptYears(data + [r]) == KeptYears(data) + (if Kept(r) then {r.year} else {})
  {
    var d := data + [r];
    assert forall i :: 0 <= i < |data| ==> d[i] == data[i];
    assert d[|data|] == r;
  }

  /** A year has a non-empty group exactly when some kept row has that year:
      a group only comes into being with its first pair. */
  lemma {:induction false} GroupNonEmptyIffKeptYear(data: seq<Row>, y: nat)
    ensures |YearPairs(data, y)| > 0 <==> y in KeptYears(data)
  {
    if data != [] {
      var n := |data| - 1;
      GroupNonEmptyIffKeptYear(data[..n], y);
      assert data == data[..n] + [data[n]];
      KeptYearsSnoc(data[..n], data[n]);
    }
  }

  /** The group of a year over two concatenated tables is the group over the
      first followed by the group over the second. */
  lemma {:induction false} YearPairsAppend(a: seq<Row>, b: seq<Row>, y: nat)
    ensures YearPairs(a + b, y) == YearPairs(a, y) + YearPairs(b, y)
  {
    if b == [] {
      assert a + b == a;
    } else {
      var n := |b| - 1;
      YearPairsAppend(a, b[..n], y);
      assert (a + b)[..|a + b| - 1] == a + b[..n];
    }
  }

  /** Where one row lands: a kept row's pair is appended to its own year's
      group, after the pairs of the rows before it and before those of the
      rows after it; a row with an empty percentage or count adds nothing. */
  lemma RowPlacement(a: seq<Row>, r: Row, b: seq<Row>, y: nat)
    ensures YearPairs(a + [r] + b, y) ==
      YearPairs(a, y) + (if Kept(r) && r.year == y then [PairOf(r)] else []) + YearPairs(b, y)
  {
    YearPairsAppend(a + [r], b, y);
    assert (a + [r])[..|a + [r]| - 1] == a;
  }

  /** The code of a row plays no part in the grouping: Riverside rows count
      towards the statewide series like any other row. */
  lemma CodeNotConsulted(data: seq<Row>, i: nat, c: string, y: nat)
    requires i < |data|
    ensures YearPairs(data[i := data[i].(code := c)], y) == YearPairs(data, y)
  {
    var r := data[i];
    var e := data[i := r.(code := c)];
    assert data == data[..i] + [r] + data[i + 1..];
    assert e == data[..i] + [r.(code := c)] + data[i + 1..];
    RowPlacement(data[..i], r, data[i + 1..], y);
    RowPlacement(data[..i], r.(code := c), data[i + 1..], y);
  }

  /** The second loop of the drawing routine: build the year-to-pairs
      dictionary. A year's entry is created holding its first pair, and every
      later pair of that year is appended to it. */
  method GroupByYear(data: seq<Row>) returns (yearGroup: map<nat, seq<Pair>>)
    ensures yearGroup.Keys == KeptYears(data)
    ensures forall y :: y in yearGroup ==> yearGroup[y] == YearPairs(data, y)
    ensures forall y :: y in yearGroup ==> |yearGroup[y]| > 0
  {
    yearGroup := map[];
    for i := 0 to |data|
      invariant yearGroup.Keys == KeptYears(data[..i])
      invariant forall y :: y in yearGroup ==> yearGroup[y] == YearPairs(data[..i], y)
    {
      var obj := data[i];
      assert data[..i + 1] == data[..i] + [obj];
      assert data[..i + 1][..i] == data[..i];
      KeptYearsSnoc(data[..i], obj);
      if !Kept(obj) {
        // an empty percentage or count: the row is skipped
      } else {
        var year := obj.year;
        // `if (yearGroup[year])`: an array is truthy even when empty, so the
        // test is whether the year already has an entry
        if year in yearGroup {
          yearGroup := yearGroup[year := yearGroup[year] + [PairOf(obj)]];
        } else {
          GroupNonEmptyIffKeptYear(data[..i], year);
          yearGroup := yearGroup[year := [PairOf(obj)]];
        }
      }
    }
    assert data[..|data|] == data;
    forall y | y in yearGroup ensures |yearGroup[y]| > 0 {
      GroupNonEmptyIffKeptYear(data, y);
    }
  }

  // ---------------------------------------------------------------------
  // Folding each group
  // ---------------------------------------------------------------------

  /** The sum of the percentages of a group. */
  function SumPct(g: seq<Pair>): real
  {
    if g == [] then 0.0 else SumPct(g[..|g| - 1]) + g[|g| - 1].pct
  }

  /** The sum of the unit counts of a group. */
  function SumUnits(g: seq<Pair>): real
  {
    if g == [] then 0.0 else SumUnits(g[..|g| - 1]) + g[|g| - 1].units
  }

  lemma SumUnitsSnoc(g: seq<Pair>, extra: seq<Pair>)
    requires |extra| <= 1
    ensures SumUnits(g + extra) == SumUnits(g) + (if extra == [] then 0.0 else extra[0].units)
  {
    if extra != [] {
      assert (g + extra)[..|g + extra| - 1] == g;
    } else {
      assert g + extra == g;
    }
  }

  /** The mean percentage of a non-empty group. */
  function MeanPct(g: seq<Pair>): real
    requires |g| > 0
  {
    SumPct(g) / (|g| as real)
  }

  /** The inner loop of the fold: accumulate the percentages and the units. */
  method SumGroup(group: seq<Pair>) returns (percentageSum: real, unitSum: real)
    ensures percentageSum == SumPct(group)
    ensures unitSum == SumUnits(group)
  {
    percentageSum, unitSum := 0.0, 0.0;
    for i := 0 to |group|
      invariant percentageSum == SumPct(group[..i])
      invariant unitSum == SumUnits(group[..i])
    {
      assert group[..i + 1][..i] == group[..i];
      var p := group[i];
      percentageSum := percentageSum + p.pct;
      unitSum := unitSum + p.units;
    }
    assert group[..|group|] == group;
  }

  /** The years of a series, in series order. */
  function YearsOf(ds: seq<YearAggregate>): seq<nat>
  {
    seq(|ds|, i requires 0 <= i < |ds| => ds[i].year)
  }

  /** What the point of a year says about that year's group. */
  ghost predicate Summarizes(a: YearAggregate, g: seq<Pair>)
  {
    |g| > 0 && a.average == MeanPct(g) / 100.0 && a.unitSum == SumUnits(g)
  }

  /** Every non-empty set of years has a least element. */
  lemma {:induction false} Least(s: set<nat>) returns (m: nat)
    requires s != {}
    ensures m in s && forall z :: z in s ==> m <= z
  {
    var x :| x in s;
    var rest := s - {x};
    if rest == {} {
      assert s == {x};
      m := x;
    } else {
      var r := Least(rest);
      m := if x < r then x else r;
      forall z | z in s ensures m <= z {
        if z != x { assert z in rest; }
      }
    }
  }

  /** Progress of the fold over the keys: the years done so far are the keys
      no longer remaining, in ascending order and each below every remaining
      key, and each point summarizes its year's group. */
  ghost predicate FoldedSoFar(yearGroup: map<nat, seq<Pair>>, ds: seq<YearAggregate>, remaining: set<nat>)
  {
    && remaining <= yearGroup.Keys
    && StrictlyIncreasing(YearsOf(ds))
    && (forall y :: y in yearGroup ==> (y in YearsOf(ds) <==> y !in remaining))
    && (forall i, y :: 0 <= i < |ds| && y in remaining ==> ds[i].year < y)
    && (forall i :: 0 <= i < |ds| ==> ds[i].year in yearGroup && Summarizes(ds[i], yearGroup[ds[i].year]))
  }

  /** One step of the fold: pushing the point of the least remaining key. */
  lemma FoldStep(yearGroup: map<nat, seq<Pair>>, ds: seq<YearAggregate>, remaining: set<nat>, point: YearAggregate)
    requires FoldedSoFar(yearGroup, ds, remaining)
    requires point.year in remaining && forall z :: z in remaining ==> point.year <= z
    requires Summarizes(point, yearGroup[point.year])
    ensures FoldedSoFar(yearGroup, ds + [point], remaining - {point.year})
  {
    var ds' := ds + [point];
    assert YearsOf(ds') == YearsOf(ds) + [point.year];
    assert forall i :: 0 <= i < |ds| ==> ds'[i] == ds[i];
    assert forall y :: y in YearsOf(ds') <==> y in YearsOf(ds) || y == point.year;
  }

  /** The third loop of the drawing routine: `for (let key in yearGroup)`
      visits integer-index keys in ascending numeric order (section 10.1.11.1
      of ECMA-262, OrdinaryOwnPropertyKeys), so each step takes the least key
      not yet visited, folds its group and pushes the year's point. */
  method AggregateByYear(yearGroup: map<nat, seq<Pair>>) returns (delawareDataset: seq<YearAggregate>)
    requires forall y :: y in yearGroup ==> |yearGroup[y]| > 0
    ensures StrictlyIncreasing(YearsOf(delawareDataset))
    ensures forall y :: y in YearsOf(delawareDataset) <==> y in yearGroup
    ensures forall i :: 0 <= i < |delawareDataset| ==>
      delawareDataset[i].year in yearGroup && Summarizes(delawareDataset[i], yearGroup[delawareDataset[i].year])
  {
    delawareDataset := [];
    var remaining := yearGroup.Keys;
    while remaining != {}
      invariant FoldedSoFar(yearGroup, delawareDataset, remaining)
      decreases remaining
    {
      ghost var least := Least(remaining);
      var key :| key in remaining && forall z :: z in remaining ==> key <= z;
      var percentageSum, unitSum := SumGroup(yearGroup[key]);
      var percentageAverage := percentageSum / (|yearGroup[key]| as real) / 100.0;
      var point := YearAggregate(key, percentageAverage, unitSum);
      FoldStep(yearGroup, delawareDataset, remaining, point);
      delawareDataset := delawareDataset + [point];
      remaining := remaining - {key};
    }
  }

  /** The statewide series of a table: one point per year of a kept row and
      no other, in ascending year order, each summarizing its year's group. */
  ghost predicate IsStatewideSeries(data: seq<Row>, ds: seq<YearAggregate>)
  {
    && StrictlyIncreasing(YearsOf(ds))
    && (forall y :: y in YearsOf(ds) <==> y in KeptYears(data))
    && (forall i :: 0 <= i < |ds| ==> Summarizes(ds[i], YearPairs(data, ds[i].year)))
  }

  /** The whole dataset-building part of the drawing routine. */
  method BuildDatasets(data: seq<Row>) returns (dataset: seq<RiversidePoint>, delawareDataset: seq<YearAggregate>)
    ensures dataset == RiversideSeries(data)
    ensures IsStatewideSeries(data, delawareDataset)
  {
    dataset := BuildRiversideSeries(data);
    var yearGroup := GroupByYear(data);
    delawareDataset := AggregateByYear(yearGroup);
  }

  // ---------------------------------------------------------------------
  // Properties of the statewide series
  // ---------------------------------------------------------------------

  lemma {:induction false} SortedWithSameElementsEqual(a: seq<nat>, b: seq<nat>)
    requires StrictlyIncreasing(a) && StrictlyIncreasing(b)
    requires forall y :: y in a <==> y in b
    ensures a == b
    decreases |a|
  {
    // A non-empty side would lend its first element to the other side.
    assert a != [] ==> a[0] in a;
    assert b != [] ==> b[0] in b;
    if a == [] || b == [] {
    } else {
      assert a[0] in b;
      assert b[0] in a;
      assert a[0] == b[0];
      forall y ensures y in a[1..] <==> y in b[1..] {
        assert y in a[1..] <==> y in a && y != a[0];
        assert y in b[1..] <==> y in b && y != b[0];
      }
      SortedWithSameElementsEqual(a[1..], b[1..]);
      assert a == [a[0]] + a[1..];
      assert b == [b[0]] + b[1..];
    }
  }

  /** The statewide series is determined by the table: no two series meet
      its description, so the output order is fixed. */
  lemma StatewideSeriesUnique(data: seq<Row>, ds1: seq<YearAggregate>, ds2: seq<YearAggregate>)
    requires IsStatewideSeries(data, ds1) && IsStatewideSeries(data, ds2)
    ensures ds1 == ds2
  {
    SortedWithSameElementsEqual(YearsOf(ds1), YearsOf(ds2));
    assert |ds1| == |YearsOf(ds1)| == |YearsOf(ds2)| == |ds2|;
    forall i | 0 <= i < |ds1| ensures ds1[i] == ds2[i] {
      assert YearsOf(ds1)[i] == YearsOf(ds2)[i];
      var g := YearPairs(data, ds1[i].year);
      assert Summarizes(ds1[i], g) && Summarizes(ds2[i], g);
    }
  }

  /** Each year of a kept row appears exactly once in the statewide series. */
  lemma EachKeptYearOnce(data: seq<Row>, ds: seq<YearAggregate>, y: nat)
    requires IsStatewideSeries(data, ds)
    requires y in KeptYears(data)
    ensures exists i :: 0 <= i < |ds| && ds[i].year == y
    ensures forall i, j :: 0 <= i < |ds| && 0 <= j < |ds| && ds[i].year == y && ds[j].year == y ==> i == j
  {
    var ys := YearsOf(ds);
    assert y in ys;
    var i :| 0 <= i < |ys| && ys[i] == y;
    assert ds[i].year == y;
    forall i, j | 0 <= i < |ds| && 0 <= j < |ds| && ds[i].year == y && ds[j].year == y ensures i == j {
      assert ys[i] == ys[j];
    }
  }

  lemma {:induction false} SumPctStrictLowerBound(g: seq<Pair>, lo: real)
    requires |g| > 0
    requires forall k :: 0 <= k < |g| ==> lo < g[k].pct
    ensures (|g| as real) * lo < SumPct(g)
  {
    var n := |g| - 1;
    if n > 0 { SumPctStrictLowerBound(g[..n], lo); }
  }

  lemma {:induction false} SumPctStrictUpperBound(g: seq<Pair>, hi: real)
    requires |g| > 0
    requires forall k :: 0 <= k < |g| ==> g[k].pct < hi
    ensures SumPct(g) < (|g| as real) * hi
  {
    var n := |g| - 1;
    if n > 0 { SumPctStrictUpperBound(g[..n], hi); }
  }

  /** The mean of a group lies between the smallest and the largest of its
      percentages: some element is at most the mean and some is at least it. */
  lemma MeanWithinBounds(g: seq<Pair>)
    requires |g| > 0
    ensures exists k :: 0 <= k < |g| && g[k].pct <= MeanPct(g)
    ensures exists k :: 0 <= k < |g| && MeanPct(g) <= g[k].pct
  {
    var n := |g| as real;
    var m := MeanPct(g);
    assert SumPct(g) == n * m;
    if forall k :: 0 <= k < |g| ==> m < g[k].pct {
      SumPctStrictLowerBound(g, m);
      assert false;
    }
    if forall k :: 0 <= k < |g| ==> g[k].pct < m {
      SumPctStrictUpperBound(g, m);
      assert false;
    }
  }

  /** Every point of the statewide series has an average between the lowest
      and the highest pct_occupied / 100 of the rows of its year. */
  lemma AverageWithinYearRange(data: seq<Row>, ds: seq<YearAggregate>, i: nat)
    requires IsStatewideSeries(data, ds)
    requires i < |ds|
    ensures exists k :: (0 <= k < |YearPairs(data, ds[i].year)| &&
      YearPairs(data, ds[i].year)[k].pct / 100.0 <= ds[i].average)
    ensures exists k :: (0 <= k < |YearPairs(data, ds[i].year)| &&
      ds[i].average <= YearPairs(data, ds[i].year)[k].pct / 100.0)
  {
    var g := YearPairs(data, ds[i].year);
    MeanWithinBounds(g);
    var a :| 0 <= a < |g| && g[a].pct <= MeanPct(g);
    var b :| 0 <= b < |g| && MeanPct(g) <= g[b].pct;
    assert g[a].pct / 100.0 <= ds[i].average;
    assert ds[i].average <= g[b].pct / 100.0;
  }

  /** The sum, over a list of years, of the unit totals of their groups. */
  function YearTotals(data: seq<Row>, ys: seq<nat>): real
  {
    if ys == [] then 0.0 else YearTotals(data, ys[..|ys| - 1]) + SumUnits(YearPairs(data, ys[|ys| - 1]))
  }

  /** The sum of the unit totals of a series. */
  function SeriesUnitTotal(ds: seq<YearAggregate>): real
  {
    if ds == [] then 0.0 else SeriesUnitTotal(ds[..|ds| - 1]) + ds[|ds| - 1].unitSum
  }

  ghost predicate Distinct(s: seq<nat>)
  {
    forall i, j :: 0 <= i < |s| && 0 <= j < |s| && i != j ==> s[i] != s[j]
  }

  lemma {:induction false} YearTotalsOfEmptyTable(ys: seq<nat>)
    ensures YearTotals([], ys) == 0.0
  {
    if ys != [] { YearTotalsOfEmptyTable(ys[..|ys| - 1]); }
  }

  /** Adding one row adds its unit count to the total of the listed years
      when it is kept and its year is listed once. */
  lemma {:induction false} YearTotalsSnoc(data: seq<Row>, r: Row, ys: seq<nat>)
    requires Distinct(ys)
    ensures YearTotals(data + [r], ys) ==
      YearTotals(data, ys) + (if Kept(r) && r.year in ys then r.numberReported.value else 0.0)
  {
    if ys != [] {
      var n := |ys| - 1;
      var zs := ys[..n];
      assert Distinct(zs);
      YearTotalsSnoc(data, r, zs);
      assert ys == zs + [ys[n]];
      assert (data + [r])[..|data + [r]| - 1] == data;
      var extra := if Kept(r) && r.year == ys[n] then [PairOf(r)] else [];
      assert YearPairs(data + [r], ys[n]) == YearPairs(data, ys[n]) + extra;
      SumUnitsSnoc(YearPairs(data, ys[n]), extra);
      assert r.year in ys <==> r.year in zs || r.year == ys[n];
      assert r.year in zs ==> r.year != ys[n] by {
        if r.year in zs {
          var k :| 0 <= k < |zs| && zs[k] == r.year;
          assert ys[k] == zs[k];
        }
      }
    }
  }

  /** Over any duplicate-free list of years that covers every kept year, the
      unit totals add up to the total over all kept rows. */
  lemma {:induction false} YearTotalsConserved(data: seq<Row>, ys: seq<nat>)
    requires Distinct(ys)
    requires forall y :: y in KeptYears(data) ==> y in ys
    ensures YearTotals(data, ys) == SumUnits(KeptPairs(data))
  {
    if data == [] {
      YearTotalsOfEmptyTable(ys);
    } else {
      var n := |data| - 1;
      var r := data[n];
      assert data == data[..n] + [r];
      KeptYearsSnoc(data[..n], r);
      YearTotalsConserved(data[..n], ys);
      YearTotalsSnoc(data[..n], r, ys);
      SumUnitsSnoc(KeptPairs(data[..n]), if Kept(r) then [PairOf(r)] else []);
    }
  }

  lemma {:induction false} SeriesUnitTotalIsYearTotals(data: seq<Row>, ds: seq<YearAggregate>)
    requires forall i :: 0 <= i < |ds| ==> ds[i].unitSum == SumUnits(YearPairs(data, ds[i].year))
    ensures SeriesUnitTotal(ds) == YearTotals(data, YearsOf(ds))
  {
    if ds != [] {
      var n := |ds| - 1;
      SeriesUnitTotalIsYearTotals(data, ds[..n]);
      assert YearsOf(ds)[..n] == YearsOf(ds[..n]);
    }
  }

  /** The unit totals of the statewide series add up to the sum of
      number_reported over all kept rows: no reported unit is lost or counted
      twice. */
  lemma UnitTotalConserved(data: seq<Row>, ds: seq<YearAggregate>)
    requires IsStatewideSeries(data, ds)
    ensures SeriesUnitTotal(ds) == SumUnits(KeptPairs(data))
  {
    SeriesUnitTotalIsYearTotals(data, ds);
    var ys := YearsOf(ds);
    assert Distinct(ys) by {
      forall i, j | 0 <= i < |ys| && 0 <= j < |ys| && i != j ensures ys[i] != ys[j] {
        if i < j { assert ys[i] < ys[j]; } else { assert ys[j] < ys[i]; }
      }
    }
    YearTotalsConserved(data, ys);
  }

  // ---------------------------------------------------------------------
  // Circles
  // ---------------------------------------------------------------------

  /** The y scale of the chart: domain [0.75, 1] onto [h - padding, padding]. */
  function OccupancyY(v: real): (y: real)
    ensures v == 0.75 ==> y == Scales.BASELINE
    ensures v == 1.0 ==> y == Scales.PADDING
  {
    Scales.Linear(0.75, 1.0, Scales.H - Scales.PADDING, Scales.PADDING, v)
  }

  /** A higher occupancy is drawn strictly higher. */
  lemma OccupancyYDecreasing(v: real, w: real)
    requires v < w
    ensures OccupancyY(w) < OccupancyY(v)
  {
    Scales.LinearReversedIsDecreasing(0.75, 1.0, Scales.H - Scales.PADDING, Scales.PADDING, v, w);
  }

  /** One circle per Riverside point, at (xScale(year), yScale(value)). The
      band scale is left as an arbitrary function of the year. */
  function RiversideCircles(dataset: seq<RiversidePoint>, xScale: nat -> real): (circles: seq<Circle>)
    ensures |circles| == |dataset|
    ensures forall i :: 0 <= i < |dataset| ==>
      circles[i] == Circle(xScale(dataset[i].year), OccupancyY(dataset[i].value), CIRCLE_RADIUS, RIVERSIDE_FILL)
  {
    seq(|dataset|, i requires 0 <= i < |dataset| =>
      Circle(xScale(dataset[i].year), OccupancyY(dataset[i].value), CIRCLE_RADIUS, RIVERSIDE_FILL))
  }

  /** One circle per statewide point, at (xScale(year), yScale(average)). */
  function DelawareCircles(delawareDataset: seq<YearAggregate>, xScale: nat -> real): (circles: seq<Circle>)
    ensures |circles| == |delawareDataset|
    ensures forall i :: 0 <= i < |delawareDataset| ==>
      circles[i] == Circle(xScale(delawareDataset[i].year), OccupancyY(delawareDataset[i].average), CIRCLE_RADIUS, DELAWARE_FILL)
  {
    seq(|delawareDataset|, i requires 0 <= i < |delawareDataset| =>
      Circle(xScale(delawareDataset[i].year), OccupancyY(delawareDataset[i].average), CIRCLE_RADIUS, DELAWARE_FILL))
  }

  /** The Riverside circles are one per Riverside row, in input order; of two
      of them, the one with the larger value is drawn higher. */
  lemma RiversideCirclesPerRow(data: seq<Row>, xScale: nat -> real, i: nat, j: nat)
    requires i < |RiversideSeries(data)| && j < |RiversideSeries(data)|
    ensures |RiversideCircles(RiversideSeries(data), xScale)| == |RiversideIndices(data)|
    ensures RiversideCircles(RiversideSeries(data), xScale)[i].cx == xScale(data[RiversideIndices(data)[i]].year)
    ensures RiversideSeries(data)[i].value < RiversideSeries(data)[j].value ==>
      RiversideCircles(RiversideSeries(data), xScale)[j].cy < RiversideCircles(RiversideSeries(data), xScale)[i].cy
  {
    RiversideSeriesIsFilter(data);
    if RiversideSeries(data)[i].value < RiversideSeries(data)[j].value {
      OccupancyYDecreasing(RiversideSeries(data)[i].value, RiversideSeries(data)[j].value);
    }
  }

  /** The statewide circles: exactly one per year of a kept row, left to
      right in the series' ascending year order. */
  lemma DelawareCirclesPerYear(data: seq<Row>, ds: seq<YearAggregate>, xScale: nat -> real, y: nat)
    requires IsStatewideSeries(data, ds)
    ensures y in KeptYears(data) <==>
      exists i :: 0 <= i < |DelawareCircles(ds, xScale)| && ds[i].year == y
  {
    var c := DelawareCircles(ds, xScale);
    if y in KeptYears(data) {
      EachKeptYearOnce(data, ds, y);
    }
    if exists i :: 0 <= i < |c| && ds[i].year == y {
      var i :| 0 <= i < |c| && ds[i].year == y;
      assert YearsOf(ds)[i] == y;
    }
  }
}
