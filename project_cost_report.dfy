/** The yearly cost report of one project: a resource × month (1..12) matrix
    of costs, filled from the monthly cost facts the server returns, with a
    total per resource, a total per month and a grand total. */
module ProjectCostReport {
  import opened Common
  import opened Text

  /** The display fields of a resource; each may be absent. */
  datatype ResourceInfo = ResourceInfo(fullName: Option<string>, nombre: Option<string>, apellido: Option<string>)

  /** One cost fact of a month: the resource it belongs to and its amount
      (`None` when `totalCost` is missing, null or NaN). */
  datatype Cost = Cost(resourceId: string, totalCost: Option<real>)

  /** The facts of one month; `costs` may be absent. */
  datatype MonthData = MonthData(month: int, costs: Option<seq<Cost>>)

  /** What `renderReport` shows: the "no data" view, or the matrix (one row
      per resource, one column per month) with its totals. */
  datatype CostReport =
    | NoData
    | Table(cells: seq<seq<real>>, resourceTotals: seq<real>, monthTotals: seq<real>, grandTotal: real)

  /** The months of the year shown as columns. */
  const MonthCount: nat := 12

  /** `c.totalCost || 0`. */
  function Amount(c: Cost): real
  {
    if c.totalCost.Some? then c.totalCost.value else 0.0
  }

  /** `mData.costs || []`. */
  function CostsOf(d: MonthData): seq<Cost>
  {
    if d.costs.Some? then d.costs.value else []
  }

  /** The keys of `report.resources`, in entry order. */
  function Ids(resources: seq<(string, ResourceInfo)>): (ids: seq<string>)
    ensures |ids| == |resources| && forall k :: 0 <= k < |ids| ==> ids[k] == resources[k].0
  {
    seq(|resources|, k requires 0 <= k < |resources| => resources[k].0)
  }

  /** Object keys are unique. */
  predicate Distinct(ids: seq<string>)
  {
    forall i, j :: 0 <= i < j < |ids| ==> ids[i] != ids[j]
  }

  // ---------------------------------------------------------------------
  // The specification of a cell

  /** What the facts in `costs` add up to for resource `id`. */
  function CostsFor(costs: seq<Cost>, id: string): real
  {
    if costs == [] then 0.0
    else CostsFor(costs[..|costs| - 1], id) + (if costs[|costs| - 1].resourceId == id then Amount(costs[|costs| - 1]) else 0.0)
  }

  /** What all facts of month `m` add up to for resource `id`. */
  function Cell(months: seq<MonthData>, id: string, m: int): real
  {
    if months == [] then 0.0
    else
      var d := months[|months| - 1];
      Cell(months[..|months| - 1], id, m) + (if d.month == m then CostsFor(CostsOf(d), id) else 0.0)
  }

  /** The matrix the report should show: row `k` is resource `ids[k]`,
      column `c` is month `c + 1`. */
  function SpecGrid(months: seq<MonthData>, ids: seq<string>): (g: seq<seq<real>>)
    ensures |g| == |ids| && IsGrid(g, MonthCount)
    ensures forall k, c :: 0 <= k < |ids| && 0 <= c < MonthCount ==> g[k][c] == Cell(months, ids[k], c + 1)
  {
    seq(|ids|, k requires 0 <= k < |ids| => seq(MonthCount, c => Cell(months, ids[k], c + 1)))
  }

  /** Index of `id` among the resource keys: the lookup
      `costByResourceAndMonth[c.resourceId]`. */
  function Lookup(ids: seq<string>, id: string): (r: Option<nat>)
    ensures r.Some? ==> r.value < |ids| && ids[r.value] == id
    ensures r.None? ==> id !in ids
  {
    if ids == [] then None
    else if ids[0] == id then Some(0)
    else
      var rest := Lookup(ids[1..], id);
      if rest.Some? then Some(rest.value + 1) else None
  }

  // ---------------------------------------------------------------------
  // renderReport

  /** The report view. With no resources, or no (or an empty) list of
      months, it is the "no data" view; otherwise the cost matrix and its
      subtotals. */
  method RenderReport(resources: seq<(string, ResourceInfo)>, months: Option<seq<MonthData>>) returns (r: CostReport)
    requires Distinct(Ids(resources))
    ensures r.NoData? <==> |resources| == 0 || months.None? || |months.value| == 0
    ensures r.Table? ==> r.cells == SpecGrid(months.value, Ids(resources))
    ensures r.Table? ==> r.resourceTotals == RowTotals(r.cells)
    ensures r.Table? ==> r.monthTotals == ColumnTotals(r.cells, MonthCount)
    ensures r.Table? ==> r.grandTotal == Sum(r.resourceTotals) == Sum(r.monthTotals)
  {
    if |resources| == 0 || months.None? || |months.value| == 0 {
      return NoData;
    }
    var cells := FillCosts(Ids(resources), months.value);
    var resourceTotals, monthTotals, grandTotal := GridTotals(cells, MonthCount);
    r := Table(cells, resourceTotals, monthTotals, grandTotal);
  }

  /** `costByResourceAndMonth`: every (resource, month) cell starts at 0 and
      each fact is added to the cell of its resource and month. A fact whose
      resource is not a key of the resources, or whose month is outside
      1..12, lands in no cell the report reads. */
  method FillCosts(ids: seq<string>, ms: seq<MonthData>) returns (cells: seq<seq<real>>)
    requires Distinct(ids)
    ensures cells == SpecGrid(ms, ids)
  {
    var n := |ids|;
    cells := [];
    while |cells| < n
      invariant |cells| <= n && IsGrid(cells, MonthCount)
      invariant forall k, c :: 0 <= k < |cells| && 0 <= c < MonthCount ==> cells[k][c] == 0.0
    {
      cells := cells + [seq(MonthCount, c => 0.0)];
    }

    var i := 0;
    while i < |ms|
      invariant 0 <= i <= |ms|
      invariant |cells| == n && IsGrid(cells, MonthCount)
      invariant forall k, c :: 0 <= k < n && 0 <= c < MonthCount ==> cells[k][c] == Cell(ms[..i], ids[k], c + 1)
    {
      var d := ms[i];
      var costs := CostsOf(d);
      var j := 0;
      while j < |costs|
        invariant 0 <= j <= |costs|
        invariant |cells| == n && IsGrid(cells, MonthCount)
        invariant forall k, c :: 0 <= k < n && 0 <= c < MonthCount ==>
          cells[k][c] == Cell(ms[..i], ids[k], c + 1) + (if d.month == c + 1 then CostsFor(costs[..j], ids[k]) else 0.0)
      {
        var cost := costs[j];
        assert costs[..j + 1][..j] == costs[..j];
        var k := Lookup(ids, cost.resourceId);
        if k.Some? && 1 <= d.month <= MonthCount {
          var row := cells[k.value];
          cells := cells[k.value := row[d.month - 1 := row[d.month - 1] + Amount(cost)]];
        }
        j := j + 1;
      }
      assert costs[..j] == costs;
      assert ms[..i + 1][..i] == ms[..i];
      i := i + 1;
    }
    assert ms[..i] == ms;
    forall k | 0 <= k < n ensures cells[k] == SpecGrid(ms, ids)[k] {
    }
  }

  // ---------------------------------------------------------------------
  // Properties of the specification

  /** A fact is added to what is already in its cell: two facts for the same
      resource and month both count, and a missing amount counts as 0. */
  lemma DuplicateFactsAdd(months: seq<MonthData>, id: string, m: int, a: Option<real>, b: Option<real>)
    ensures Cell(months + [MonthData(m, Some([Cost(id, a), Cost(id, b)]))], id, m)
         == Cell(months, id, m) + Amount(Cost(id, a)) + Amount(Cost(id, b))
  {
    var d := MonthData(m, Some([Cost(id, a), Cost(id, b)]));
    assert (months + [d])[..|months|] == months;
    var costs := CostsOf(d);
    assert costs[..1] == [Cost(id, a)];
    assert costs[..1][..0] == [];
    assert CostsFor(costs[..1], id) == Amount(Cost(id, a));
    assert CostsFor(costs, id) == Amount(Cost(id, a)) + Amount(Cost(id, b));
  }

  /** A month's facts for other resources, and all facts of other months,
      leave a cell unchanged. */
  lemma OtherFactsIgnored(months: seq<MonthData>, d: MonthData, id: string, m: int)
    requires d.month != m || forall j :: 0 <= j < |CostsOf(d)| ==> CostsOf(d)[j].resourceId != id
    ensures Cell(months + [d], id, m) == Cell(months, id, m)
  {
    assert (months + [d])[..|months|] == months;
    if d.month == m {
      NoCostsFor(CostsOf(d), id);
    }
  }

  lemma {:induction false} NoCostsFor(costs: seq<Cost>, id: string)
    requires forall j :: 0 <= j < |costs| ==> costs[j].resourceId != id
    ensures CostsFor(costs, id) == 0.0
  {
    if costs != [] {
      NoCostsFor(costs[..|costs| - 1], id);
    }
  }

  /** The sum over all facts of those that belong to a known resource and to
      a month 1..12. */
  function KnownCosts(costs: seq<Cost>, ids: seq<string>): real
  {
    if costs == [] then 0.0
    else
      var c := costs[|costs| - 1];
      KnownCosts(costs[..|costs| - 1], ids) + (if c.resourceId in ids then Amount(c) else 0.0)
  }

  function KnownTotal(months: seq<MonthData>, ids: seq<string>): real
  {
    if months == [] then 0.0
    else
      var d := months[|months| - 1];
      KnownTotal(months[..|months| - 1], ids) + (if 1 <= d.month <= MonthCount then KnownCosts(CostsOf(d), ids) else 0.0)
  }

  /** The grand total counts every fact of a known resource and a month
      1..12 exactly once, and no other fact. */
  lemma {:induction false} GrandTotalOfFacts(months: seq<MonthData>, ids: seq<string>)
    requires Distinct(ids)
    ensures Sum(RowTotals(SpecGrid(months, ids))) == KnownTotal(months, ids)
  {
    if months == [] {
      forall k | 0 <= k < |ids| ensures RowTotals(SpecGrid(months, ids))[k] == 0.0 {
        SumZeros(SpecGrid(months, ids)[k]);
      }
      SumZeros(RowTotals(SpecGrid(months, ids)));
    } else {
      var p := months[..|months| - 1];
      var d := months[|months| - 1];
      GrandTotalOfFacts(p, ids);
      var extra := MonthExtra(d, ids);
      forall k | 0 <= k < |ids|
        ensures RowTotals(SpecGrid(months, ids))[k] == AddPointwise(RowTotals(SpecGrid(p, ids)), extra)[k]
      {
        RowOfNextMonth(months, ids, k);
      }
      assert RowTotals(SpecGrid(months, ids)) == AddPointwise(RowTotals(SpecGrid(p, ids)), extra);
      SumAddPointwise(RowTotals(SpecGrid(p, ids)), extra);
      if 1 <= d.month <= MonthCount {
        SumPerResource(CostsOf(d), ids);
        assert extra == PerResource(CostsOf(d), ids);
      } else {
        SumZeros(extra);
      }
    }
  }

  /** What one month's facts add to each resource's row total. */
  function MonthExtra(d: MonthData, ids: seq<string>): (e: seq<real>)
    ensures |e| == |ids|
    ensures forall k :: 0 <= k < |ids| ==> e[k] == if 1 <= d.month <= MonthCount then CostsFor(CostsOf(d), ids[k]) else 0.0
  {
    seq(|ids|, k requires 0 <= k < |ids| => if 1 <= d.month <= MonthCount then CostsFor(CostsOf(d), ids[k]) else 0.0)
  }

  /** Adding the last month to the facts adds its costs to one cell of each
      row. */
  lemma RowOfNextMonth(months: seq<MonthData>, ids: seq<string>, k: int)
    requires months != [] && 0 <= k < |ids|
    ensures Sum(SpecGrid(months, ids)[k])
         == Sum(SpecGrid(months[..|months| - 1], ids)[k]) + MonthExtra(months[|months| - 1], ids)[k]
  {
    var p := months[..|months| - 1];
    var d := months[|months| - 1];
    var v := CostsFor(CostsOf(d), ids[k]);
    var hot := seq(MonthCount, c => if d.month == c + 1 then v else 0.0);
    assert SpecGrid(months, ids)[k] == AddPointwise(SpecGrid(p, ids)[k], hot);
    SumAddPointwise(SpecGrid(p, ids)[k], hot);
    if 1 <= d.month <= MonthCount {
      SumOneHot(hot, d.month - 1);
    } else {
      SumZeros(hot);
    }
  }

  /** A list with at most one nonzero element sums to that element. */
  lemma {:induction false} SumOneHot(s: seq<real>, i: int)
    requires 0 <= i < |s| && forall j :: 0 <= j < |s| && j != i ==> s[j] == 0.0
    ensures Sum(s) == s[i]
  {
    var n := |s| - 1;
    if i == n {
      SumZeros(s[..n]);
    } else {
      SumOneHot(s[..n], i);
    }
  }

  /** What the facts in `costs` add up to for each resource. */
  function PerResource(costs: seq<Cost>, ids: seq<string>): (per: seq<real>)
    ensures |per| == |ids| && forall k :: 0 <= k < |ids| ==> per[k] == CostsFor(costs, ids[k])
  {
    seq(|ids|, k requires 0 <= k < |ids| => CostsFor(costs, ids[k]))
  }

  /** Each fact of a known resource lands in exactly one row. */
  lemma {:induction false} SumPerResource(costs: seq<Cost>, ids: seq<string>)
    requires Distinct(ids)
    ensures Sum(PerResource(costs, ids)) == KnownCosts(costs, ids)
  {
    var per := PerResource(costs, ids);
    if costs == [] {
      SumZeros(per);
    } else {
      var p := costs[..|costs| - 1];
      var c := costs[|costs| - 1];
      SumPerResource(p, ids);
      var prev := PerResource(p, ids);
      var hit := seq(|ids|, k requires 0 <= k < |ids| => if ids[k] == c.resourceId then Amount(c) else 0.0);
      assert per == AddPointwise(prev, hit);
      SumAddPointwise(prev, hit);
      var at := Lookup(ids, c.resourceId);
      if at.Some? {
        SumOneHot(hit, at.value);
      } else {
        SumZeros(hit);
      }
    }
  }

  // ---------------------------------------------------------------------
  // Labels and year options

  /** `x || ''` for an optional string. */
  function OrEmpty(s: Option<string>): string
  {
    if s.Some? then s.value else ""
  }

  /** The row label: `fullName` when it is a non-empty string; otherwise the
      trimmed `"nombre apellido"` when that is non-empty; otherwise the
      resource id. */
  function RowLabel(resourceId: string, info: ResourceInfo): (shown: string)
    ensures info.fullName.Some? && info.fullName.value != "" ==> shown == info.fullName.value
    ensures !(info.fullName.Some? && info.fullName.value != "") ==>
      var joined := Trim(OrEmpty(info.nombre) + " " + OrEmpty(info.apellido));
      shown == if joined != "" then joined else resourceId
    ensures shown == "" ==> resourceId == ""
  {
    if info.fullName.Some? && info.fullName.value != "" then info.fullName.value
    else
      var joined := Trim(OrEmpty(info.nombre) + " " + OrEmpty(info.apellido));
      if joined != "" then joined else resourceId
  }

  /** A resource without `fullName` whose name parts are blank is labelled
      by its id. */
  lemma BlankNameShowsId(resourceId: string, nombre: Option<string>, apellido: Option<string>)
    requires forall i :: 0 <= i < |OrEmpty(nombre)| ==> IsWhitespace(OrEmpty(nombre)[i])
    requires forall i :: 0 <= i < |OrEmpty(apellido)| ==> IsWhitespace(OrEmpty(apellido)[i])
    ensures RowLabel(resourceId, ResourceInfo(None, nombre, apellido)) == resourceId
  {
    var joined := OrEmpty(nombre) + " " + OrEmpty(apellido);
    forall i | 0 <= i < |joined| ensures IsWhitespace(joined[i]) {
      if i < |OrEmpty(nombre)| {
        assert joined[i] == OrEmpty(nombre)[i];
      } else if i > |OrEmpty(nombre)| {
        assert joined[i] == OrEmpty(apellido)[i - |OrEmpty(nombre)| - 1];
      }
    }
    TrimEmptyIff(joined);
  }

  /** The year options: the current year and the four before it, newest
      first. */
  method YearOptions(currentYear: int) returns (years: seq<int>)
    ensures |years| == 5 && years[0] == currentYear
    ensures forall i :: 0 <= i < 5 ==> years[i] == currentYear - i
    ensures forall i :: 0 < i < 5 ==> years[i] == years[i - 1] - 1
  {
    years := [];
    var i := 0;
    while i < 5
      invariant 0 <= i <= 5 && |years| == i
      invariant forall q :: 0 <= q < i ==> years[q] == currentYear - q
    {
      var y := currentYear - i;
      years := years + [y];
      i := i + 1;
    }
  }
}
