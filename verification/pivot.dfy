/**
  The pivot table both reports build from grouped rows (record/views.py:224-261
  for the flat report, 420-454 for one leaf of the hierarchical report): a
  dict of categories, each a dict from period label to amount; one row per
  category with a cell per period and a row total; and a final `'Жами'` row
  of column totals.
*/
module Pivot {
  import opened Common
  import opened Domain
  import opened Periods
  import opened Ledger

  /** `report_data[category]`: the amounts one category holds per period label. */
  datatype Cat = Cat(name: string, cells: map<Label, int>)

  /** `report_data`: the categories in the order they were first written. */
  type ReportData = seq<Cat>

  /** The title of the totals row. */
  const TotalTitle: string := "Жами"

  /** `period_data.get(label, 0)`. */
  function CellOf(c: Cat, l: Label): (v: int)
    ensures l !in c.cells ==> v == 0
    ensures l in c.cells ==> v == c.cells[l]
  {
    if l in c.cells then c.cells[l] else 0
  }

  function Names(d: ReportData): seq<string>
  {
    seq(|d|, i requires 0 <= i < |d| => d[i].name)
  }

  /** The amount `report_data` holds for a category and a label; 0 when either is absent. */
  function Get(d: ReportData, name: string, l: Label): int
  {
    if |d| == 0 then 0 else if d[0].name == name then CellOf(d[0], l) else Get(d[1..], name, l)
  }

  /** `report_data[name][l] = v` (record/views.py:235, 237). */
  function Assign(d: ReportData, name: string, l: Label, v: int): (r: ReportData)
    ensures Names(r) == if name in Names(d) then Names(d) else Names(d) + [name]
    ensures forall n, l' :: Get(r, n, l') == if n == name && l' == l then v else Get(d, n, l')
  {
    if |d| == 0 then [Cat(name, map[l := v])]
    else if d[0].name == name then
      var c := Cat(name, d[0].cells[l := v]);
      NamesReplaceHead(d, c);
      [c] + d[1..]
    else
      var rest := Assign(d[1..], name, l, v);
      NamesStep(d, rest, name);
      [d[0]] + rest
  }

  /** `report_data[name][l] += v` on a `defaultdict` (record/views.py:429). */
  function Accumulate(d: ReportData, name: string, l: Label, v: int): (r: ReportData)
    ensures Names(r) == if name in Names(d) then Names(d) else Names(d) + [name]
    ensures forall n, l' :: Get(r, n, l') == if n == name && l' == l then Get(d, n, l') + v else Get(d, n, l')
  {
    if |d| == 0 then [Cat(name, map[l := v])]
    else if d[0].name == name then
      var c := Cat(name, d[0].cells[l := CellOf(d[0], l) + v]);
      NamesReplaceHead(d, c);
      [c] + d[1..]
    else
      var rest := Accumulate(d[1..], name, l, v);
      NamesStep(d, rest, name);
      [d[0]] + rest
  }

  /** Replacing the first category by one of the same name keeps the names. */
  lemma NamesReplaceHead(d: ReportData, c: Cat)
    requires |d| > 0 && c.name == d[0].name
    ensures Names([c] + d[1..]) == Names(d) && Names(d)[0] == c.name
  {
  }

  /** Keeping a first category of another name in front of an updated tail keeps the update's effect on the names. */
  lemma NamesStep(d: ReportData, rest: ReportData, name: string)
    requires |d| > 0 && d[0].name != name
    requires Names(rest) == if name in Names(d[1..]) then Names(d[1..]) else Names(d[1..]) + [name]
    ensures Names([d[0]] + rest) == if name in Names(d) then Names(d) else Names(d) + [name]
  {
    assert Names(d) == [d[0].name] + Names(d[1..]);
    assert Names([d[0]] + rest) == [d[0].name] + Names(rest);
    assert name in Names(d) <==> name in Names(d[1..]);
    assert [d[0].name] + (Names(d[1..]) + [name]) == ([d[0].name] + Names(d[1..])) + [name];
  }

  // ----- Filling `report_data` from the grouped rows -----

  /** The flat report's loop: each group overwrites its cell with its signed total. */
  function FlatData(gs: seq<Group>): ReportData
  {
    if |gs| == 0 then []
    else
      var g := gs[|gs| - 1];
      Assign(FlatData(gs[..|gs| - 1]), g.key.category, g.key.bucket, FlatSigned(g.key.op, g.total))
  }

  /** The hierarchical report's loop: each group adds its signed total to its cell. */
  function LeafData(gs: seq<Group>): ReportData
  {
    if |gs| == 0 then []
    else
      var g := gs[|gs| - 1];
      Accumulate(LeafData(gs[..|gs| - 1]), g.key.category, g.key.bucket, LedgerSigned(g.key.op, g.total))
  }

  /** The category names of the groups, each once, in order of first appearance. */
  function NamesOf(gs: seq<Group>): (r: seq<string>)
  {
    if |gs| == 0 then []
    else
      var n := gs[|gs| - 1].key.category;
      if n in NamesOf(gs[..|gs| - 1]) then NamesOf(gs[..|gs| - 1]) else NamesOf(gs[..|gs| - 1]) + [n]
  }

  predicate Hits(g: Group, name: string, l: Label)
  {
    g.key.category == name && g.key.bucket == l
  }

  /** The flat-signed total of the last group for a category and a label, if any. */
  function LastHit(gs: seq<Group>, name: string, l: Label): (r: Option<int>)
    ensures r.Some? <==> exists i :: 0 <= i < |gs| && Hits(gs[i], name, l)
  {
    if |gs| == 0 then None
    else if Hits(gs[|gs| - 1], name, l) then Some(FlatSigned(gs[|gs| - 1].key.op, gs[|gs| - 1].total))
    else
      var r := LastHit(gs[..|gs| - 1], name, l);
      assert forall i :: 0 <= i < |gs| - 1 ==> gs[..|gs| - 1][i] == gs[i];
      r
  }

  /** The ledger-signed totals of every group for a category and a label, added up. */
  function HitSum(gs: seq<Group>, name: string, l: Label): int
  {
    if |gs| == 0 then 0
    else HitSum(gs[..|gs| - 1], name, l)
         + (if Hits(gs[|gs| - 1], name, l) then LedgerSigned(gs[|gs| - 1].key.op, gs[|gs| - 1].total) else 0)
  }

  /**
    The flat report keeps, for each cell, only the last group written to it,
    and lists the categories in order of first appearance.
  */
  lemma {:induction false} FlatDataCells(gs: seq<Group>)
    ensures Names(FlatData(gs)) == NamesOf(gs)
    ensures forall n, l :: Get(FlatData(gs), n, l) == (if LastHit(gs, n, l).Some? then LastHit(gs, n, l).value else 0)
    decreases |gs|
  {
    if |gs| > 0 {
      FlatDataCells(gs[..|gs| - 1]);
    }
  }

  /** The hierarchical report adds up every group written to a cell. */
  lemma {:induction false} LeafDataCells(gs: seq<Group>)
    ensures Names(LeafData(gs)) == NamesOf(gs)
    ensures forall n, l :: Get(LeafData(gs), n, l) == HitSum(gs, n, l)
    decreases |gs|
  {
    if |gs| > 0 {
      LeafDataCells(gs[..|gs| - 1]);
    }
  }

  /** No two groups land in the same cell. */
  predicate OneGroupPerCell(gs: seq<Group>)
  {
    forall i, j :: 0 <= i < j < |gs| && gs[i].key.category == gs[j].key.category ==> gs[i].key.bucket != gs[j].key.bucket
  }

  /** With one group per cell and only income and expense categories, `=` and `+=` agree. */
  lemma {:induction false} OverwriteMatchesSum(gs: seq<Group>, n: string, l: Label)
    requires OneGroupPerCell(gs)
    requires forall i :: 0 <= i < |gs| ==> gs[i].key.op != OtherOp
    ensures HitSum(gs, n, l) == (if LastHit(gs, n, l).Some? then LastHit(gs, n, l).value else 0)
    decreases |gs|
  {
    if |gs| > 0 {
      var init := gs[..|gs| - 1];
      var g := gs[|gs| - 1];
      assert forall i :: 0 <= i < |init| ==> init[i] == gs[i];
      OverwriteMatchesSum(init, n, l);
      SignRulesAgree(g.key.op, g.total);
    }
  }

  /** Under the same conditions the flat and the hierarchical filling hold the same table. */
  lemma FlatMatchesLeaf(gs: seq<Group>)
    requires OneGroupPerCell(gs)
    requires forall i :: 0 <= i < |gs| ==> gs[i].key.op != OtherOp
    ensures Names(FlatData(gs)) == Names(LeafData(gs))
    ensures forall n, l :: Get(FlatData(gs), n, l) == Get(LeafData(gs), n, l)
  {
    FlatDataCells(gs);
    LeafDataCells(gs);
    forall n, l
      ensures Get(FlatData(gs), n, l) == Get(LeafData(gs), n, l)
    {
      OverwriteMatchesSum(gs, n, l);
    }
  }

  // ----- The table -----

  /** A table row: a title, one cell per period, and a final total cell. */
  datatype Row = Row(title: string, values: seq<int>)

  function PeriodCells(c: Cat, periods: seq<Label>): (r: seq<int>)
    ensures |r| == |periods|
  {
    seq(|periods|, i requires 0 <= i < |periods| => CellOf(c, periods[i]))
  }

  /** `[category, cell per period…, category_sum]` (record/views.py:243-252). */
  function CategoryRow(c: Cat, periods: seq<Label>): Row
  {
    Row(c.name, PeriodCells(c, periods) + [Sum(PeriodCells(c, periods))])
  }

  function CategoryRows(d: ReportData, periods: seq<Label>): (rows: seq<Row>)
    ensures |rows| == |d|
  {
    seq(|d|, j requires 0 <= j < |d| => CategoryRow(d[j], periods))
  }

  function MapGet(t: map<Label, int>, l: Label): int
  {
    if l in t then t[l] else 0
  }

  /** `column_totals[label] += amount` for each label of the range, for one category. */
  function AddCells(t: map<Label, int>, periods: seq<Label>, c: Cat): map<Label, int>
    decreases |periods|
  {
    if |periods| == 0 then t
    else AddCells(t[periods[0] := MapGet(t, periods[0]) + CellOf(c, periods[0])], periods[1..], c)
  }

  /** `column_totals` after every category row has been built. */
  function ColumnTotals(d: ReportData, periods: seq<Label>): map<Label, int>
  {
    if |d| == 0 then map[] else AddCells(ColumnTotals(d[..|d| - 1], periods), periods, d[|d| - 1])
  }

  function TotalCells(d: ReportData, periods: seq<Label>): (r: seq<int>)
    ensures |r| == |periods|
  {
    seq(|periods|, i requires 0 <= i < |periods| => MapGet(ColumnTotals(d, periods), periods[i]))
  }

  /** `['Жами', column total per period…, overall_total]` (record/views.py:254-261). */
  function TotalRow(d: ReportData, periods: seq<Label>): Row
  {
    Row(TotalTitle, TotalCells(d, periods) + [Sum(TotalCells(d, periods))])
  }

  /** `table_data`: the category rows, then the totals row. */
  function Table(d: ReportData, periods: seq<Label>): (rows: seq<Row>)
  {
    CategoryRows(d, periods) + [TotalRow(d, periods)]
  }

  /**
    Every row has a title, one cell per period and a total; a category's cell
    is its amount for that label, 0 when it has none; its total is the sum of
    its cells; the totals row comes last.
  */
  lemma TableShape(d: ReportData, periods: seq<Label>)
    ensures |Table(d, periods)| == |d| + 1
    ensures Table(d, periods)[|d|].title == TotalTitle
    ensures forall j :: 0 <= j < |d| + 1 ==> |Table(d, periods)[j].values| == |periods| + 1
    ensures forall j :: 0 <= j < |d| ==> Table(d, periods)[j].title == d[j].name
    ensures forall j, i :: 0 <= j < |d| && 0 <= i < |periods| ==>
              Table(d, periods)[j].values[i] == CellOf(d[j], periods[i])
    ensures forall j :: 0 <= j < |d| + 1 ==>
              Table(d, periods)[j].values[|periods|] == Sum(Table(d, periods)[j].values[..|periods|])
  {
    var t := Table(d, periods);
    forall j | 0 <= j < |d| + 1
      ensures t[j].values[..|periods|] == (if j < |d| then PeriodCells(d[j], periods) else TotalCells(d, periods))
    {
    }
  }

  /** Adding one category's cells raises each label of the range by that category's amount. */
  lemma {:induction false} AddCellsEffect(t: map<Label, int>, periods: seq<Label>, c: Cat, l: Label)
    requires Distinct(periods)
    ensures MapGet(AddCells(t, periods, c), l) == MapGet(t, l) + (if l in periods then CellOf(c, l) else 0)
    decreases |periods|
  {
    if |periods| > 0 {
      var t' := t[periods[0] := MapGet(t, periods[0]) + CellOf(c, periods[0])];
      assert Distinct(periods[1..]);
      AddCellsEffect(t', periods[1..], c, l);
      if l == periods[0] {
        assert l !in periods[1..];
      } else {
        assert l in periods <==> l in periods[1..];
      }
    }
  }

  /** One category's amounts for a label, row by row. */
  function ColumnOf(d: ReportData, l: Label): (r: seq<int>)
    ensures |r| == |d|
  {
    seq(|d|, j requires 0 <= j < |d| => CellOf(d[j], l))
  }

  /** Over a range without repeated labels, each column total is the sum of that column. */
  lemma {:induction false} ColumnTotalIsColumnSum(d: ReportData, periods: seq<Label>, l: Label)
    requires Distinct(periods)
    ensures MapGet(ColumnTotals(d, periods), l) == if l in periods then Sum(ColumnOf(d, l)) else 0
    decreases |d|
  {
    if |d| > 0 {
      var init := d[..|d| - 1];
      ColumnTotalIsColumnSum(init, periods, l);
      AddCellsEffect(ColumnTotals(init, periods), periods, d[|d| - 1], l);
      assert ColumnOf(d, l) == ColumnOf(init, l) + [CellOf(d[|d| - 1], l)];
      SumAppend(ColumnOf(init, l), [CellOf(d[|d| - 1], l)]);
      SumSingleton(CellOf(d[|d| - 1], l));
    }
  }

  /** Each category row's total. */
  function RowTotals(d: ReportData, periods: seq<Label>): (r: seq<int>)
    ensures |r| == |d|
  {
    seq(|d|, j requires 0 <= j < |d| => Sum(PeriodCells(d[j], periods)))
  }

  /**
    The grand total, the sum of the column totals, equals the sum of the
    category rows' totals.
  */
  lemma {:induction false} GrandTotal(d: ReportData, periods: seq<Label>)
    requires Distinct(periods)
    ensures Sum(TotalCells(d, periods)) == Sum(RowTotals(d, periods))
    decreases |d|
  {
    if |d| == 0 {
      forall i | 0 <= i < |periods|
        ensures TotalCells(d, periods)[i] == 0
      {
      }
      SumZeros(TotalCells(d, periods));
    } else {
      var init := d[..|d| - 1];
      var last := d[|d| - 1];
      GrandTotal(init, periods);
      forall i | 0 <= i < |periods|
        ensures TotalCells(d, periods)[i] == TotalCells(init, periods)[i] + PeriodCells(last, periods)[i]
      {
        var l := periods[i];
        ColumnTotalIsColumnSum(d, periods, l);
        ColumnTotalIsColumnSum(init, periods, l);
        assert ColumnOf(d, l) == ColumnOf(init, l) + [CellOf(last, l)];
        SumAppend(ColumnOf(init, l), [CellOf(last, l)]);
        SumSingleton(CellOf(last, l));
      }
      SumPointwise(TotalCells(init, periods), PeriodCells(last, periods), TotalCells(d, periods));
      assert RowTotals(d, periods) == RowTotals(init, periods) + [Sum(PeriodCells(last, periods))];
      SumAppend(RowTotals(init, periods), [Sum(PeriodCells(last, periods))]);
      SumSingleton(Sum(PeriodCells(last, periods)));
    }
  }

  /**
    In the table, the totals row's cell for a period is the sum of that
    period's cells over the category rows, and its last cell is the sum of the
    category rows' totals.
  */
  lemma TotalRowSums(d: ReportData, periods: seq<Label>)
    requires Distinct(periods)
    ensures forall i :: 0 <= i < |periods| ==>
              TotalRow(d, periods).values[i] == Sum(ColumnOf(d, periods[i]))
    ensures TotalRow(d, periods).values[|periods|] == Sum(RowTotals(d, periods))
  {
    forall i | 0 <= i < |periods|
      ensures TotalRow(d, periods).values[i] == Sum(ColumnOf(d, periods[i]))
    {
      ColumnTotalIsColumnSum(d, periods, periods[i]);
    }
    GrandTotal(d, periods);
  }
}
