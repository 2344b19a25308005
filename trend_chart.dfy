/**
 * The pivot behind the price/demand trend chart: the per-locality series of
 * the payload become one row per year, in ascending year order, carrying
 * `<name>_price` and `<name>_demand` for every series that has a point in
 * that year.
 */
module TrendChart {
  import opened Wrappers
  import opened Insight
  import opened Text

  /** `series.points || []`. */
  function PointsOf(s: Series): seq<Point>
  {
    if s.points.Some? then s.points.value else []
  }

  /** JavaScript truthiness of a year: `null`, `undefined` and `0` are falsy. */
  predicate Truthy(year: Option<int>)
  {
    year.Some? && year.value != 0
  }

  /** Some point of some series carries `year`. */
  ghost predicate HasYear(chart: seq<Series>, year: int)
  {
    exists i, j :: 0 <= i < |chart| && 0 <= j < |PointsOf(chart[i])| &&
      PointsOf(chart[i])[j].year == Some(year)
  }

  predicate Increasing(xs: seq<int>)
  {
    forall i, j :: 0 <= i < j < |xs| ==> xs[i] < xs[j]
  }

  // ---------------------------------------------------------------------------
  // The years: `Array.from(new Set(chart.flatMap(...).map(...).filter(Boolean))).sort(...)`

  /** The truthy years of `ps`, in order. */
  function PointYears(ps: seq<Point>): seq<int>
  {
    if ps == [] then []
    else (if Truthy(ps[0].year) then [ps[0].year.value] else []) + PointYears(ps[1..])
  }

  /** The truthy years of every point of every series, in encounter order. */
  function AllYears(chart: seq<Series>): seq<int>
  {
    if chart == [] then [] else PointYears(PointsOf(chart[0])) + AllYears(chart[1..])
  }

  /** Adds `y` to an increasing sequence unless it is already there. */
  function Insert(xs: seq<int>, y: int): (r: seq<int>)
    requires Increasing(xs)
    ensures Increasing(r)
    ensures forall z :: z in r <==> z in xs || z == y
  {
    if xs == [] then [y]
    else if y < xs[0] then [y] + xs
    else if y == xs[0] then xs
    else
      var t := Insert(xs[1..], y);
      TailAboveHead(xs);
      forall k | 0 <= k < |t| ensures t[k] > xs[0] {
        assert t[k] in t;
      }
      [xs[0]] + t
  }

  /** The distinct values of `ys` in ascending numeric order (a `Set` followed
      by a numeric `sort`). */
  function SortedDistinct(ys: seq<int>): (r: seq<int>)
    ensures Increasing(r)
    ensures forall y :: y in r <==> y in ys
  {
    if ys == [] then []
    else Insert(SortedDistinct(ys[..|ys| - 1]), ys[|ys| - 1])
  }

  /** The years that become rows. */
  function Years(chart: seq<Series>): seq<int>
  {
    SortedDistinct(AllYears(chart))
  }

  lemma {:induction false} PointYearsMembers(ps: seq<Point>, y: int)
    ensures y in PointYears(ps) <==>
            y != 0 && exists j :: 0 <= j < |ps| && ps[j].year == Some(y)
  {
    if ps != [] {
      PointYearsMembers(ps[1..], y);
      if exists j :: 0 <= j < |ps[1..]| && ps[1..][j].year == Some(y) {
        var j :| 0 <= j < |ps[1..]| && ps[1..][j].year == Some(y);
        assert ps[j + 1].year == Some(y);
      }
      if exists j :: 0 <= j < |ps| && ps[j].year == Some(y) {
        var j :| 0 <= j < |ps| && ps[j].year == Some(y);
        if j > 0 {
          assert ps[1..][j - 1].year == Some(y);
        }
      }
    }
  }

  lemma {:induction false} AllYearsMembers(chart: seq<Series>, y: int)
    ensures y in AllYears(chart) <==> y != 0 && HasYear(chart, y)
  {
    if chart != [] {
      AllYearsMembers(chart[1..], y);
      PointYearsMembers(PointsOf(chart[0]), y);
      if HasYear(chart[1..], y) {
        var i, j :| 0 <= i < |chart[1..]| && 0 <= j < |PointsOf(chart[1..][i])| &&
          PointsOf(chart[1..][i])[j].year == Some(y);
        assert PointsOf(chart[i + 1])[j].year == Some(y);
      }
      if HasYear(chart, y) {
        var i, j :| 0 <= i < |chart| && 0 <= j < |PointsOf(chart[i])| &&
          PointsOf(chart[i])[j].year == Some(y);
        if i > 0 {
          assert PointsOf(chart[1..][i - 1])[j].year == Some(y);
        }
      }
    }
  }

  /** The rows' years are strictly ascending, and a year is among them exactly
      when it is non-zero and some point of some series carries it. */
  lemma YearsSpec(chart: seq<Series>)
    ensures Increasing(Years(chart))
    ensures forall y :: y in Years(chart) <==> y != 0 && HasYear(chart, y)
  {
    forall y ensures y in Years(chart) <==> y != 0 && HasYear(chart, y) {
      AllYearsMembers(chart, y);
    }
  }

  lemma TailAboveHead(xs: seq<int>)
    requires Increasing(xs) && xs != []
    ensures forall z :: z in xs[1..] ==> z > xs[0]
  {
  }

  /** Two strictly increasing sequences with the same elements are equal. */
  lemma {:induction false} IncreasingUnique(xs: seq<int>, ys: seq<int>)
    requires Increasing(xs) && Increasing(ys)
    requires forall z :: z in xs <==> z in ys
    ensures xs == ys
  {
    HeadIn(ys);
    if xs != [] {
      assert xs[0] in xs;
      assert ys != [] && ys[0] in ys;
      TailAboveHead(xs);
      TailAboveHead(ys);
      assert xs[0] == ys[0];
      assert xs == [xs[0]] + xs[1..] && ys == [ys[0]] + ys[1..];
      forall z ensures z in xs[1..] <==> z in ys[1..] {
        assert z in xs[1..] ==> z in xs;
        assert z in ys[1..] ==> z in ys;
      }
      IncreasingUnique(xs[1..], ys[1..]);
    }
  }

  /** The rows' years depend only on which years occur, not on the order of
      the series or of their points. */
  lemma YearsOrderIndependent(c1: seq<Series>, c2: seq<Series>)
    requires forall y :: HasYear(c1, y) <==> HasYear(c2, y)
    ensures Years(c1) == Years(c2)
  {
    YearsSpec(c1);
    YearsSpec(c2);
    IncreasingUnique(Years(c1), Years(c2));
  }

  // ---------------------------------------------------------------------------
  // One row: `const row = { year }; chart.forEach(series => ...)`

  /** A pivot row: its `year` and the `<name>_price` / `<name>_demand` fields. */
  datatype PivotRow = PivotRow(year: int, fields: map<string, Option<real>>)

  /** `points.find(p => p.year === year)`. */
  function FindPoint(ps: seq<Point>, year: int): (r: Option<Point>)
    ensures r.None? <==> forall k :: 0 <= k < |ps| ==> ps[k].year != Some(year)
    ensures r.Some? ==> exists k :: 0 <= k < |ps| && ps[k] == r.value && ps[k].year == Some(year) &&
                          forall m :: 0 <= m < k ==> ps[m].year != Some(year)
  {
    if ps == [] then None
    else if ps[0].year == Some(year) then Some(ps[0])
    else
      var r := FindPoint(ps[1..], year);
      assert forall k :: 0 < k < |ps| ==> ps[k] == ps[1..][k - 1];
      if r.Some? then
        var k :| 0 <= k < |ps[1..]| && ps[1..][k] == r.value && ps[1..][k].year == Some(year) &&
          forall m :: 0 <= m < k ==> ps[1..][m].year != Some(year);
        assert ps[k + 1] == r.value;
        r
      else r
  }

  function PriceKey(name: string): string { name + "_price" }
  function DemandKey(name: string): string { name + "_demand" }

  /** The fields one series writes into the row for `year`. */
  function Entry(s: Series, year: int): map<string, Option<real>>
  {
    match FindPoint(PointsOf(s), year)
    case None => map[]
    case Some(p) => map[PriceKey(s.name) := p.price, DemandKey(s.name) := p.demand]
  }

  /** The row's fields after the series of `chart` have written theirs in
      order, a later write replacing an earlier one. */
  function RowFields(chart: seq<Series>, year: int): map<string, Option<real>>
  {
    if chart == [] then map[]
    else RowFields(chart[..|chart| - 1], year) + Entry(chart[|chart| - 1], year)
  }

  /** Builds the row for `year` by letting each series in turn add its fields. */
  method BuildRow(chart: seq<Series>, year: int) returns (row: PivotRow)
    ensures row == PivotRow(year, RowFields(chart, year))
  {
    var fields: map<string, Option<real>> := map[];
    for i := 0 to |chart|
      invariant fields == RowFields(chart[..i], year)
    {
      var series := chart[i];
      var point := FindPoint(PointsOf(series), year);
      RowFieldsSnoc(chart, i, year);
      if point.Some? {
        AddEntry(fields, series.name, point.value);
        fields := fields[series.name + "_price" := point.value.price];
        fields := fields[series.name + "_demand" := point.value.demand];
      } else {
        assert Entry(series, year) == map[];
        assert fields + map[] == fields;
      }
    }
    assert chart[..|chart|] == chart;
    row := PivotRow(year, fields);
  }

  /** Writing a point's two fields is adding its entry. */
  lemma AddEntry(m: map<string, Option<real>>, name: string, p: Point)
    ensures m[name + "_price" := p.price][name + "_demand" := p.demand] ==
            m + map[PriceKey(name) := p.price, DemandKey(name) := p.demand]
  {
  }

  lemma RowFieldsSnoc(chart: seq<Series>, i: int, year: int)
    requires 0 <= i < |chart|
    ensures RowFields(chart[..i + 1], year) == RowFields(chart[..i], year) + Entry(chart[i], year)
  {
    assert chart[..i + 1][..i] == chart[..i];
  }

  /** Different names give different keys, and a price key is never a
      demand key. */
  lemma KeysDistinct(a: string, b: string)
    ensures PriceKey(a) == PriceKey(b) ==> a == b
    ensures DemandKey(a) == DemandKey(b) ==> a == b
    ensures PriceKey(a) != DemandKey(b)
  {
    if PriceKey(a) == PriceKey(b) {
      assert |a| == |b|;
      assert a == PriceKey(a)[..|a|];
    }
    if DemandKey(a) == DemandKey(b) {
      assert |a| == |b|;
      assert a == DemandKey(a)[..|a|];
    }
    var p, d := PriceKey(a), DemandKey(b);
    assert p[|p| - 1] == 'e' && d[|d| - 1] == 'd';
  }

  /** A key is in the row exactly when some series wrote it. */
  lemma {:induction false} RowFieldsKeys(chart: seq<Series>, year: int, k: string)
    ensures k in RowFields(chart, year) <==> exists i :: 0 <= i < |chart| && k in Entry(chart[i], year)
  {
    if chart != [] {
      var init := chart[..|chart| - 1];
      RowFieldsKeys(init, year, k);
      if exists i :: 0 <= i < |init| && k in Entry(init[i], year) {
        var i :| 0 <= i < |init| && k in Entry(init[i], year);
        assert chart[i] == init[i];
      }
      if exists i :: 0 <= i < |chart| && k in Entry(chart[i], year) {
        var i :| 0 <= i < |chart| && k in Entry(chart[i], year);
        if i < |chart| - 1 {
          assert init[i] == chart[i];
        }
      }
    }
  }

  /** A key holds the value written by the last series that wrote it. */
  lemma {:induction false} RowFieldsLastWriter(chart: seq<Series>, year: int, i: nat, k: string)
    requires i < |chart| && k in Entry(chart[i], year)
    requires forall j :: i < j < |chart| ==> k !in Entry(chart[j], year)
    ensures k in RowFields(chart, year) && RowFields(chart, year)[k] == Entry(chart[i], year)[k]
  {
    var init := chart[..|chart| - 1];
    if i < |chart| - 1 {
      assert init[i] == chart[i];
      forall j | i < j < |init| ensures k !in Entry(init[j], year) {
        assert init[j] == chart[j];
      }
      RowFieldsLastWriter(init, year, i, k);
    }
  }

  /** A series' point at `year` lands in the row under its name: the first
      such point of the series, unless a later series of the same name also
      has a point at `year`. */
  lemma SeriesFieldsInRow(chart: seq<Series>, year: int, i: nat, p: Point)
    requires i < |chart| && FindPoint(PointsOf(chart[i]), year) == Some(p)
    requires forall j :: i < j < |chart| && chart[j].name == chart[i].name ==>
               FindPoint(PointsOf(chart[j]), year).None?
    ensures PriceKey(chart[i].name) in RowFields(chart, year)
    ensures RowFields(chart, year)[PriceKey(chart[i].name)] == p.price
    ensures DemandKey(chart[i].name) in RowFields(chart, year)
    ensures RowFields(chart, year)[DemandKey(chart[i].name)] == p.demand
  {
    var name := chart[i].name;
    forall j | i < j < |chart|
      ensures PriceKey(name) !in Entry(chart[j], year) && DemandKey(name) !in Entry(chart[j], year)
    {
      KeysDistinct(name, chart[j].name);
      KeysDistinct(chart[j].name, name);
    }
    RowFieldsLastWriter(chart, year, i, PriceKey(name));
    RowFieldsLastWriter(chart, year, i, DemandKey(name));
  }

  /** A name none of whose series has a point at `year` has no keys in that
      row: missing data is absent, not zero or null. */
  lemma AbsentSeriesHasNoKeys(chart: seq<Series>, year: int, name: string)
    requires forall j :: 0 <= j < |chart| && chart[j].name == name ==>
               FindPoint(PointsOf(chart[j]), year).None?
    ensures PriceKey(name) !in RowFields(chart, year)
    ensures DemandKey(name) !in RowFields(chart, year)
  {
    forall j | 0 <= j < |chart|
      ensures PriceKey(name) !in Entry(chart[j], year) && DemandKey(name) !in Entry(chart[j], year)
    {
      KeysDistinct(name, chart[j].name);
      KeysDistinct(chart[j].name, name);
    }
    RowFieldsKeys(chart, year, PriceKey(name));
    RowFieldsKeys(chart, year, DemandKey(name));
  }

  // ---------------------------------------------------------------------------
  // The whole frame

  /** The pivoted frame: one row per year of `Years(chart)`. */
  function Frame(chart: seq<Series>): (rows: seq<PivotRow>)
    ensures |rows| == |Years(chart)|
    ensures forall i :: 0 <= i < |rows| ==>
              rows[i].year == Years(chart)[i] && rows[i].fields == RowFields(chart, Years(chart)[i])
  {
    var ys := Years(chart);
    seq(|ys|, i requires 0 <= i < |ys| => PivotRow(ys[i], RowFields(chart, ys[i])))
  }

  /** The chart data, or `None` when the chart is empty and nothing is drawn. */
  method PivotChart(chart: seq<Series>) returns (data: Option<seq<PivotRow>>)
    ensures data.None? <==> chart == []
    ensures chart != [] ==> data == Some(Frame(chart))
  {
    if |chart| == 0 {
      return None;
    }
    var years := Years(chart);
    var rows: seq<PivotRow> := [];
    for i := 0 to |years|
      invariant |rows| == i
      invariant forall k :: 0 <= k < i ==> rows[k] == PivotRow(years[k], RowFields(chart, years[k]))
    {
      var row := BuildRow(chart, years[i]);
      rows := rows + [row];
    }
    assert rows == Frame(chart);
    data := Some(rows);
  }

  /** Every point with a truthy year is represented: its year has a row, and
      that row carries the series' values for it when the point is the
      series' first at that year and no later same-named series overrides
      them. */
  lemma FrameComplete(chart: seq<Series>, i: nat, j: nat)
    requires i < |chart| && j < |PointsOf(chart[i])|
    requires Truthy(PointsOf(chart[i])[j].year)
    requires forall m :: 0 <= m < j ==> PointsOf(chart[i])[m].year != PointsOf(chart[i])[j].year
    requires forall k :: i < k < |chart| && chart[k].name == chart[i].name ==>
               FindPoint(PointsOf(chart[k]), PointsOf(chart[i])[j].year.value).None?
    ensures exists r :: 0 <= r < |Frame(chart)| && Frame(chart)[r].year == PointsOf(chart[i])[j].year.value &&
              PriceKey(chart[i].name) in Frame(chart)[r].fields &&
              Frame(chart)[r].fields[PriceKey(chart[i].name)] == PointsOf(chart[i])[j].price &&
              DemandKey(chart[i].name) in Frame(chart)[r].fields &&
              Frame(chart)[r].fields[DemandKey(chart[i].name)] == PointsOf(chart[i])[j].demand
  {
    var ps := PointsOf(chart[i]);
    var y := ps[j].year.value;
    YearsSpec(chart);
    assert HasYear(chart, y);
    var r :| 0 <= r < |Years(chart)| && Years(chart)[r] == y;
    var p := FindPoint(ps, y);
    var k :| 0 <= k < |ps| && ps[k] == p.value && ps[k].year == Some(y) &&
      forall m :: 0 <= m < k ==> ps[m].year != Some(y);
    assert k == j;
    SeriesFieldsInRow(chart, y, i, ps[j]);
    assert Frame(chart)[r].year == y;
  }

  /** Falsy years never become rows. */
  lemma FrameExcludesFalsy(chart: seq<Series>)
    ensures forall r :: 0 <= r < |Frame(chart)| ==> Frame(chart)[r].year != 0
    ensures forall r :: 0 <= r < |Frame(chart)| ==> HasYear(chart, Frame(chart)[r].year)
  {
    YearsSpec(chart);
    forall r | 0 <= r < |Frame(chart)|
      ensures Frame(chart)[r].year != 0 && HasYear(chart, Frame(chart)[r].year)
    {
      assert Years(chart)[r] in Years(chart);
    }
  }
}
