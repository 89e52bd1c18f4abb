/** The monthly cost calculator of app.js: pricing one model for a usage
    profile (`calculateCost`, lines 217-238), comparing every model of a
    region (`compareAllModels`, lines 822-874) and comparing a checked subset
    (`compareSelectedModels`, lines 980-1040). */
module Calculator {
  import opened Common
  import opened Models

  /** The three numeric fields of the calculator form. */
  datatype Usage = Usage(inputTokens: real, outputTokens: real, requests: real)

  /** The figures the page shows for one model. */
  datatype Breakdown = Breakdown(
    totalInputTokens: real,
    totalOutputTokens: real,
    monthlyInputCost: real,
    monthlyOutputCost: real,
    totalCost: real)

  /** The monthly bill of one model (`calculateCost` lines 233-237, repeated
      per row in both comparisons). */
  function Price(m: Model, u: Usage): Breakdown {
    var tin := u.inputTokens * u.requests;
    var tout := u.outputTokens * u.requests;
    var cin := (m.inputCost / 1000.0) * tin;
    var cout := (m.outputCost / 1000.0) * tout;
    Breakdown(tin, tout, cin, cout, cin + cout)
  }

  /** What the bill means: tokens per request times requests, each side priced
      per 1,000 tokens, the two sides added. */
  lemma PricePerThousand(m: Model, u: Usage)
    ensures var b := Price(m, u);
      && b.totalInputTokens == u.inputTokens * u.requests
      && b.totalOutputTokens == u.outputTokens * u.requests
      && b.monthlyInputCost * 1000.0 == m.inputCost * b.totalInputTokens
      && b.monthlyOutputCost * 1000.0 == m.outputCost * b.totalOutputTokens
      && b.totalCost == b.monthlyInputCost + b.monthlyOutputCost
  {
  }

  /** An example: 500 input and 300 output tokens per request,
      1,000 requests, at 0.003 and 0.015 USD per 1,000 tokens. */
  lemma PriceExample(provider: string, name: string, region: string, tier: Tier)
    ensures var b := Price(Model(provider, name, region, 0.003, 0.015, tier), Usage(500.0, 300.0, 1000.0));
      && b.totalInputTokens == 500000.0 && b.totalOutputTokens == 300000.0
      && b.monthlyInputCost == 1.5 && b.monthlyOutputCost == 4.5 && b.totalCost == 6.0
  {
  }

  /** The bill is linear in the number of requests. */
  lemma PriceScalesWithRequests(m: Model, u: Usage, k: real)
    ensures Price(m, u.(requests := k * u.requests)).totalCost == k * Price(m, u).totalCost
  {
    var b := Price(m, u);
    var c := Price(m, u.(requests := k * u.requests));
    assert c.totalInputTokens == k * b.totalInputTokens;
    assert c.totalOutputTokens == k * b.totalOutputTokens;
    assert c.monthlyInputCost == k * b.monthlyInputCost;
    assert c.monthlyOutputCost == k * b.monthlyOutputCost;
  }

  /** With non-negative usage, a model that is no dearer on either side is no
      dearer in total. */
  lemma CheaperRatesCheaperBill(m1: Model, m2: Model, u: Usage)
    requires u.inputTokens >= 0.0 && u.outputTokens >= 0.0 && u.requests >= 0.0
    requires m1.inputCost <= m2.inputCost && m1.outputCost <= m2.outputCost
    ensures Price(m1, u).totalCost <= Price(m2, u).totalCost
  {
    var tin := u.inputTokens * u.requests;
    var tout := u.outputTokens * u.requests;
    assert tin >= 0.0 && tout >= 0.0;
    assert m1.inputCost * tin <= m2.inputCost * tin;
    assert m1.outputCost * tout <= m2.outputCost * tout;
  }

  // ----- calculateCost -----

  datatype CalcError = NoModelSelected

  /** `calculateCost`: the dropdown holds a merged-view position or nothing. */
  function Calculate(all: seq<Model>, selected: Option<nat>, u: Usage): (r: Result<Breakdown, CalcError>)
    requires selected.Some? ==> selected.value < |all|
    ensures r.Failure? <==> selected.None?
    ensures r.Success? ==> r.value == Price(all[selected.value], u)
    ensures r.Success? ==>
              && r.value.totalInputTokens == u.inputTokens * u.requests
              && r.value.totalOutputTokens == u.outputTokens * u.requests
              && r.value.totalCost == r.value.monthlyInputCost + r.value.monthlyOutputCost
              && r.value.monthlyInputCost * 1000.0 == all[selected.value].inputCost * u.inputTokens * u.requests
              && r.value.monthlyOutputCost * 1000.0 == all[selected.value].outputCost * u.outputTokens * u.requests
  {
    match selected
    case None => Failure(NoModelSelected)
    case Some(i) =>
      PricePerThousand(all[i], u);
      Success(Price(all[i], u))
  }

  // ----- comparison rows and the stable sort -----

  /** One line of a comparison: the model's merged-view position, the model
      and its bill. */
  datatype Row = Row(index: nat, model: Model, cost: Breakdown)

  function Total(r: Row): real {
    r.cost.totalCost
  }

  /** The positions of the merged view whose model is in `region`, ascending
      (`modelsStore.all.filter(m => m.region === selectedRegion)`). */
  function RegionIndices(all: seq<Model>, region: string): (r: seq<nat>)
    ensures forall k :: 0 <= k < |r| ==> r[k] < |all| && all[r[k]].region == region
    ensures forall i :: 0 <= i < |all| && all[i].region == region ==> i in r
    ensures forall k, l :: 0 <= k < l < |r| ==> r[k] < r[l]
    decreases |all|
  {
    if |all| == 0 then []
    else
      var n := |all| - 1;
      var prefix := RegionIndices(all[..n], region);
      assert forall i :: 0 <= i < n ==> all[..n][i] == all[i];
      if all[n].region == region then prefix + [n] else prefix
  }

  /** The rows for the given positions, in the given order. */
  function RowsAt(all: seq<Model>, ixs: seq<nat>, u: Usage): (r: seq<Row>)
    requires forall k :: 0 <= k < |ixs| ==> ixs[k] < |all|
    ensures |r| == |ixs|
    ensures forall k :: 0 <= k < |r| ==> r[k] == Row(ixs[k], all[ixs[k]], Price(all[ixs[k]], u))
  {
    seq(|ixs|, k requires 0 <= k < |ixs| => Row(ixs[k], all[ixs[k]], Price(all[ixs[k]], u)))
  }

  predicate SortedByCost(s: seq<Row>) {
    forall i, j :: 0 <= i < j < |s| ==> Total(s[i]) <= Total(s[j])
  }

  /** Cheapest first, equal bills in ascending merged-view position. */
  predicate SortedByCostThenIndex(s: seq<Row>) {
    forall i, j :: 0 <= i < j < |s| ==>
      Total(s[i]) < Total(s[j]) || (Total(s[i]) == Total(s[j]) && s[i].index < s[j].index)
  }

  predicate IndicesIncreasing(s: seq<Row>) {
    forall i, j :: 0 <= i < j < |s| ==> s[i].index < s[j].index
  }

  /** Where a stable insertion puts `x`: after every trailing row that is no
      dearer, before the run of dearer rows at the end. */
  function InsertPos(x: Row, s: seq<Row>): (p: nat)
    ensures p <= |s|
    ensures forall k :: p <= k < |s| ==> Total(x) < Total(s[k])
    ensures p > 0 ==> Total(s[p - 1]) <= Total(x)
    decreases |s|
  {
    if |s| == 0 then 0
    else if Total(s[|s| - 1]) <= Total(x) then |s|
    else InsertPos(x, s[..|s| - 1])
  }

  /** `x` placed at its stable insertion point. */
  function Insert(x: Row, s: seq<Row>): (r: seq<Row>)
    ensures |r| == |s| + 1
    ensures var p := InsertPos(x, s);
      && (forall k :: 0 <= k < p ==> r[k] == s[k])
      && r[p] == x
      && (forall k :: p < k < |r| ==> r[k] == s[k - 1])
  {
    var p := InsertPos(x, s);
    s[..p] + [x] + s[p..]
  }

  /** Insertion adds `x` and loses nothing. */
  lemma InsertPermutes(x: Row, s: seq<Row>)
    ensures multiset(Insert(x, s)) == multiset(s) + multiset{x}
  {
    var p := InsertPos(x, s);
    var front, back := s[..p], s[p..];
    assert s == front + back;
    assert Insert(x, s) == front + [x] + back;
  }

  /** Stable insertion keeps a cost-sorted list sorted. */
  lemma InsertSorted(x: Row, s: seq<Row>)
    requires SortedByCost(s)
    ensures SortedByCost(Insert(x, s))
  {
    var p := InsertPos(x, s);
    var r := Insert(x, s);
    forall i, j | 0 <= i < j < |r| ensures Total(r[i]) <= Total(r[j]) {
      if j < p {
        assert r[i] == s[i] && r[j] == s[j];
      } else if j == p {
        assert r[i] == s[i];
        assert Total(s[i]) <= Total(s[p - 1]);
      } else if i == p {
        assert r[j] == s[j - 1];
      } else if i < p {
        assert r[i] == s[i] && r[j] == s[j - 1];
      } else {
        assert r[i] == s[i - 1] && r[j] == s[j - 1];
      }
    }
  }

  /** `Array.prototype.sort` with `(a, b) => a.totalCost - b.totalCost`,
      which the language requires to be stable: insertion sort that keeps
      rows of equal bill in their original order. */
  function SortByCost(s: seq<Row>): (r: seq<Row>)
    ensures |r| == |s|
    ensures SortedByCost(r)
    ensures multiset(r) == multiset(s)
    decreases |s|
  {
    if |s| == 0 then []
    else
      var n := |s| - 1;
      assert s == s[..n] + [s[n]];
      InsertSorted(s[n], SortByCost(s[..n]));
      InsertPermutes(s[n], SortByCost(s[..n]));
      Insert(s[n], SortByCost(s[..n]))
  }

  /** Inserting a row whose position comes after every listed one keeps the
      list ordered by bill and then by position. */
  lemma InsertStable(x: Row, t: seq<Row>)
    requires SortedByCostThenIndex(t)
    requires forall k :: 0 <= k < |t| ==> t[k].index < x.index
    ensures SortedByCostThenIndex(Insert(x, t))
  {
    var p := InsertPos(x, t);
    var r := Insert(x, t);
    forall i, j | 0 <= i < j < |r|
      ensures Total(r[i]) < Total(r[j]) || (Total(r[i]) == Total(r[j]) && r[i].index < r[j].index)
    {
      if j < p {
        assert r[i] == t[i] && r[j] == t[j];
      } else if j == p {
        assert r[i] == t[i];
        assert Total(t[i]) <= Total(t[p - 1]);
      } else if i == p {
        assert r[j] == t[j - 1];
      } else if i < p {
        assert r[i] == t[i] && r[j] == t[j - 1];
      } else {
        assert r[i] == t[i - 1] && r[j] == t[j - 1];
      }
    }
  }

  /** Sorting keeps exactly the rows it was given. */
  lemma SortMembers(s: seq<Row>)
    ensures forall y :: y in SortByCost(s) <==> y in s
  {
    var r := SortByCost(s);
    assert forall y :: y in r <==> y in multiset(r);
    assert forall y :: y in s <==> y in multiset(s);
  }

  /** Stability: rows that arrive in merged-view order leave sorted by bill
      and, among equal bills, still in merged-view order. */
  lemma {:induction false} SortIsStable(s: seq<Row>)
    requires IndicesIncreasing(s)
    ensures SortedByCostThenIndex(SortByCost(s))
    decreases |s|
  {
    if |s| > 0 {
      var n := |s| - 1;
      var prefix := s[..n];
      assert IndicesIncreasing(prefix);
      SortIsStable(prefix);
      var t := SortByCost(prefix);
      SortMembers(prefix);
      forall k | 0 <= k < |t| ensures t[k].index < s[n].index {
        assert t[k] in prefix;
      }
      InsertStable(s[n], t);
    }
  }

  // ----- compareAllModels -----

  datatype CompareError = InvalidInput | NoModelsInRegion | TooFewChecked

  /** The rows in display order and the bill every row is measured against. */
  datatype Comparison = Comparison(rows: seq<Row>, base: real)

  /** The difference shown beside a row; zero is labelled "Base". */
  function PriceDiff(c: Comparison, k: nat): real
    requires k < |c.rows|
  {
    Total(c.rows[k]) - c.base
  }

  /** `comparisons.find(c => c.isSelected)`: the first row for the model the
      dropdown names. Models are distinct objects, so identity with
      `modelsStore.all[i]` is the row's position being `i`. */
  function FindSelected(rows: seq<Row>, selected: Option<nat>): (r: Option<nat>)
    ensures r.Some? ==> r.value < |rows| && selected == Some(rows[r.value].index)
    ensures r.Some? ==> forall k :: 0 <= k < r.value ==> selected != Some(rows[k].index)
    ensures r.None? ==> forall k :: 0 <= k < |rows| ==> selected != Some(rows[k].index)
    decreases |rows|
  {
    if |rows| == 0 then None
    else if selected == Some(rows[0].index) then Some(0)
    else
      match FindSelected(rows[1..], selected)
      case None => None
      case Some(k) => Some(k + 1)
  }

  /** The bill of the selected row, or of the first (cheapest) row. */
  function Baseline(rows: seq<Row>, selected: Option<nat>): real
    requires |rows| > 0
  {
    match FindSelected(rows, selected)
    case Some(k) => Total(rows[k])
    case None => Total(rows[0])
  }

  /** The dropdown names a model of this region. */
  predicate SelectedInRegion(all: seq<Model>, region: string, selected: Option<nat>) {
    selected.Some? && selected.value < |all| && all[selected.value].region == region
  }

  /** `compareAllModels`: validate, price every model of the region, sort
      cheapest first, and measure against the dropdown's model when it is in
      the region, otherwise against the cheapest. */
  function CompareAll(all: seq<Model>, region: string, selected: Option<nat>, u: Usage): (r: Result<Comparison, CompareError>)
    ensures r == Failure(InvalidInput) <==>
              region == [] || u.inputTokens <= 0.0 || u.outputTokens <= 0.0 || u.requests <= 0.0
    ensures r == Failure(NoModelsInRegion) <==>
              && !(region == [] || u.inputTokens <= 0.0 || u.outputTokens <= 0.0 || u.requests <= 0.0)
              && forall i :: 0 <= i < |all| ==> all[i].region != region
    ensures r.Success? <==>
              && !(region == [] || u.inputTokens <= 0.0 || u.outputTokens <= 0.0 || u.requests <= 0.0)
              && exists i :: 0 <= i < |all| && all[i].region == region
    ensures r.Success? ==> |r.value.rows| == |RegionIndices(all, region)| > 0
    ensures r.Success? ==> SortedByCostThenIndex(r.value.rows)
    ensures r.Success? && SelectedInRegion(all, region, selected) ==>
              r.value.base == Price(all[selected.value], u).totalCost
    ensures r.Success? && !SelectedInRegion(all, region, selected) ==>
              && r.value.base == Total(r.value.rows[0])
              && forall k :: 0 <= k < |r.value.rows| ==> r.value.base <= Total(r.value.rows[k])
  {
    if region == [] || u.inputTokens <= 0.0 || u.outputTokens <= 0.0 || u.requests <= 0.0 then
      Failure(InvalidInput)
    else
      var ixs := RegionIndices(all, region);
      RegionIndicesEmpty(all, region);
      if |ixs| == 0 then
        Failure(NoModelsInRegion)
      else
        assert ixs[0] < |all| && all[ixs[0]].region == region;
        var rows := RegionRows(all, region, u);
        RegionRowsStable(all, region, u);
        CheapestFirst(rows);
        SelectedRowFound(all, region, selected, u);
        Success(Comparison(rows, Baseline(rows, selected)))
  }

  /** A region has no positions exactly when no model is in it. */
  lemma RegionIndicesEmpty(all: seq<Model>, region: string)
    ensures |RegionIndices(all, region)| == 0 <==> forall i :: 0 <= i < |all| ==> all[i].region != region
  {
    var ixs := RegionIndices(all, region);
    if |ixs| > 0 {
      assert all[ixs[0]].region == region;
    }
  }

  /** In a list ordered by bill, the first row is the cheapest. */
  lemma CheapestFirst(rows: seq<Row>)
    requires SortedByCostThenIndex(rows)
    ensures forall k :: 0 < k < |rows| ==> Total(rows[0]) <= Total(rows[k])
  {
  }

  /** Rows built from ascending positions arrive in merged-view order. */
  lemma RowsAtIncreasing(all: seq<Model>, ixs: seq<nat>, u: Usage)
    requires forall k :: 0 <= k < |ixs| ==> ixs[k] < |all|
    requires forall k, l :: 0 <= k < l < |ixs| ==> ixs[k] < ixs[l]
    ensures IndicesIncreasing(RowsAt(all, ixs, u))
  {
  }

  /** The region's rows, once sorted, are ordered by bill and then position. */
  lemma RegionRowsStable(all: seq<Model>, region: string, u: Usage)
    ensures SortedByCostThenIndex(SortByCost(RowsAt(all, RegionIndices(all, region), u)))
  {
    var ixs := RegionIndices(all, region);
    RowsAtIncreasing(all, ixs, u);
    SortIsStable(RowsAt(all, ixs, u));
  }

  /** The dropdown's model has a row exactly when it is a model of the region. */
  lemma SelectedRowFound(all: seq<Model>, region: string, selected: Option<nat>, u: Usage)
    ensures var rows := SortByCost(RowsAt(all, RegionIndices(all, region), u));
      && (FindSelected(rows, selected).Some? <==> SelectedInRegion(all, region, selected))
      && (SelectedInRegion(all, region, selected) ==>
            Total(rows[FindSelected(rows, selected).value]) == Price(all[selected.value], u).totalCost)
  {
    if SelectedInRegion(all, region, selected) {
      SelectedHasRow(all, region, selected, u);
    }
    FoundRowIsSelected(all, region, selected, u);
  }

  /** A dropdown model of the region has a row. */
  lemma SelectedHasRow(all: seq<Model>, region: string, selected: Option<nat>, u: Usage)
    requires SelectedInRegion(all, region, selected)
    ensures FindSelected(SortByCost(RowsAt(all, RegionIndices(all, region), u)), selected).Some?
  {
    var ixs := RegionIndices(all, region);
    var unsorted := RowsAt(all, ixs, u);
    var rows := SortByCost(unsorted);
    SortMembers(unsorted);
    var k :| 0 <= k < |ixs| && ixs[k] == selected.value;
    assert unsorted[k] in rows;
    var j :| 0 <= j < |rows| && rows[j] == unsorted[k];
    assert selected == Some(rows[j].index);
  }

  /** The row found is the dropdown model's own, priced for the usage. */
  lemma FoundRowIsSelected(all: seq<Model>, region: string, selected: Option<nat>, u: Usage)
    ensures var rows := SortByCost(RowsAt(all, RegionIndices(all, region), u));
      FindSelected(rows, selected).Some? ==>
        && SelectedInRegion(all, region, selected)
        && Total(rows[FindSelected(rows, selected).value]) == Price(all[selected.value], u).totalCost
  {
    var ixs := RegionIndices(all, region);
    var unsorted := RowsAt(all, ixs, u);
    var rows := SortByCost(unsorted);
    var f := FindSelected(rows, selected);
    if f.Some? {
      SortMembers(unsorted);
      var row := rows[f.value];
      assert row in unsorted;
      var k :| 0 <= k < |unsorted| && unsorted[k] == row;
      assert row == Row(ixs[k], all[ixs[k]], Price(all[ixs[k]], u));
    }
  }

  /** With no model of the region in the dropdown, no row is cheaper than the
      baseline: every difference shown is zero or positive. */
  lemma CompareAllNoNegativeDiff(all: seq<Model>, region: string, selected: Option<nat>, u: Usage)
    requires CompareAll(all, region, selected, u).Success?
    requires !SelectedInRegion(all, region, selected)
    ensures var c := CompareAll(all, region, selected, u).value;
      forall k :: 0 <= k < |c.rows| ==> PriceDiff(c, k) >= 0.0
  {
  }

  /** The region's rows in comparison order. */
  function RegionRows(all: seq<Model>, region: string, u: Usage): seq<Row> {
    SortByCost(RowsAt(all, RegionIndices(all, region), u))
  }

  /** Every row is the model at its position, priced for the usage, and in the region. */
  lemma RegionRowsAreBills(all: seq<Model>, region: string, u: Usage)
    ensures var rows := RegionRows(all, region, u);
      forall k :: 0 <= k < |rows| ==>
        && rows[k].index < |all| && all[rows[k].index].region == region
        && rows[k] == Row(rows[k].index, all[rows[k].index], Price(all[rows[k].index], u))
  {
    var rows := RegionRows(all, region, u);
    var unsorted := RowsAt(all, RegionIndices(all, region), u);
    SortMembers(unsorted);
    forall k | 0 <= k < |rows|
      ensures rows[k].index < |all| && all[rows[k].index].region == region
      ensures rows[k] == Row(rows[k].index, all[rows[k].index], Price(all[rows[k].index], u))
    {
      assert rows[k] in unsorted;
    }
  }

  /** Every model of the region has a row. */
  lemma RegionRowsCover(all: seq<Model>, region: string, u: Usage, i: nat)
    requires i < |all| && all[i].region == region
    ensures exists k :: 0 <= k < |RegionRows(all, region, u)| && RegionRows(all, region, u)[k].index == i
  {
    var ixs := RegionIndices(all, region);
    var unsorted := RowsAt(all, ixs, u);
    SortMembers(unsorted);
    var j :| 0 <= j < |ixs| && ixs[j] == i;
    assert unsorted[j] in RegionRows(all, region, u);
  }

  /** No model is listed twice. */
  lemma RegionRowsDistinct(all: seq<Model>, region: string, u: Usage)
    ensures var rows := RegionRows(all, region, u);
      forall k, l :: 0 <= k < l < |rows| ==> rows[k].index != rows[l].index
  {
    RegionRowsAreBills(all, region, u);
    RegionRowsStable(all, region, u);
  }

  /** The comparison lists every model of the region, each once with its own
      bill, and nothing else. */
  lemma CompareAllCoversRegion(all: seq<Model>, region: string, selected: Option<nat>, u: Usage)
    requires CompareAll(all, region, selected, u).Success?
    ensures var rows := CompareAll(all, region, selected, u).value.rows;
      && (forall k :: 0 <= k < |rows| ==>
            rows[k].index < |all| && rows[k] == Row(rows[k].index, all[rows[k].index], Price(all[rows[k].index], u)))
      && (forall i :: 0 <= i < |all| && all[i].region == region <==> exists k :: 0 <= k < |rows| && rows[k].index == i)
      && (forall k, l :: 0 <= k < l < |rows| ==> rows[k].index != rows[l].index)
  {
    var rows := CompareAll(all, region, selected, u).value.rows;
    assert rows == RegionRows(all, region, u);
    RegionRowsAreBills(all, region, u);
    RegionRowsDistinct(all, region, u);
    forall i | 0 <= i < |all| && all[i].region == region
      ensures exists k :: 0 <= k < |rows| && rows[k].index == i
    {
      RegionRowsCover(all, region, u, i);
    }
  }

  // ----- compareSelectedModels -----

  /** `compareSelectedModels`: `checked` holds the ticked checkbox values,
      positions in the region's model list. The dropdown's model, when there
      is one, is the baseline even if it was not ticked and the rows keep
      checkbox order; otherwise the rows are sorted and the cheapest is the
      baseline. The token fields are not validated on this path. */
  function CompareSelected(all: seq<Model>, region: string, checked: seq<nat>, selected: Option<nat>, u: Usage): (r: Result<Comparison, CompareError>)
    requires forall k :: 0 <= k < |checked| ==> checked[k] < |RegionIndices(all, region)|
    ensures r.Failure? <==> |checked| < 2
    ensures r.Failure? ==> r.error == TooFewChecked
    ensures r.Success? ==> |r.value.rows| == |checked|
    ensures r.Success? && selected.Some? && selected.value < |all| ==>
              && r.value.base == Price(all[selected.value], u).totalCost
              && r.value.rows == CheckedRows(all, region, checked, u)
    ensures r.Success? && !(selected.Some? && selected.value < |all|) ==>
              && SortedByCost(r.value.rows)
              && multiset(r.value.rows) == multiset(CheckedRows(all, region, checked, u))
              && r.value.base == Total(r.value.rows[0])
              && forall k :: 0 <= k < |r.value.rows| ==> r.value.base <= Total(r.value.rows[k])
  {
    if |checked| < 2 then Failure(TooFewChecked)
    else
      var rows := CheckedRows(all, region, checked, u);
      if selected.Some? && selected.value < |all| then
        Success(Comparison(rows, Price(all[selected.value], u).totalCost))
      else
        var sorted := SortByCost(rows);
        Success(Comparison(sorted, Total(sorted[0])))
  }

  /** `selectedModels`: the region's models at the checked positions, in
      checkbox order, each with its bill. */
  function CheckedRows(all: seq<Model>, region: string, checked: seq<nat>, u: Usage): (r: seq<Row>)
    requires forall k :: 0 <= k < |checked| ==> checked[k] < |RegionIndices(all, region)|
    ensures |r| == |checked|
    ensures forall k :: 0 <= k < |r| ==> r[k].index == RegionIndices(all, region)[checked[k]]
    ensures forall k :: 0 <= k < |r| ==>
              && r[k].index < |all| && all[r[k].index].region == region
              && r[k] == Row(r[k].index, all[r[k].index], Price(all[r[k].index], u))
  {
    var ixs := RegionIndices(all, region);
    RowsAt(all, seq(|checked|, k requires 0 <= k < |checked| => ixs[checked[k]]), u)
  }

  /** Checkboxes are read in page order, which is ascending position in the
      region's list; the fallback sort then orders equal bills by merged-view
      position. */
  lemma CompareSelectedStable(all: seq<Model>, region: string, checked: seq<nat>, selected: Option<nat>, u: Usage)
    requires forall k :: 0 <= k < |checked| ==> checked[k] < |RegionIndices(all, region)|
    requires forall k, l :: 0 <= k < l < |checked| ==> checked[k] < checked[l]
    requires CompareSelected(all, region, checked, selected, u).Success?
    requires !(selected.Some? && selected.value < |all|)
    ensures SortedByCostThenIndex(CompareSelected(all, region, checked, selected, u).value.rows)
  {
    var rows := CheckedRows(all, region, checked, u);
    assert IndicesIncreasing(rows);
    SortIsStable(rows);
  }
}
