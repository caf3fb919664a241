/**
 * `plot_by_ca`: one small panel per region, laid out two to a row in a
 * grid of ⌈n/2⌉ rows.  The panel of the region at position `index` of the
 * region list goes to grid row `index / 2` and grid column `index % 2`
 * (the source calls these `column` and `row`); each panel plots its own
 * region's rows, with both confinement dates marked, under a title cut to
 * 15 characters; an odd region count leaves the last cell unused and it is
 * removed.  What is drawn is not modelled, only what goes where.
 */
module Grid {
  import opened Wrappers
  import opened Text
  import opened Dates
  import opened Frames
  import opened Variation
  import opened Subdivisions

  /** `n_columns`. */
  const Columns: nat := 2

  /** The longest title a panel gets: `ca_get_name(ca)[:15]`. */
  const TitleLength: nat := 15

  /** `DATE_INIT_CONFINEMENT` (14 March 2020) and `DATE_INIT_HARD_CONFINEMENT` (30 March 2020) as day numbers. */
  const ConfinementDay: int := DaysBeforeYear(2020) + DaysBeforeMonth(2020, 3) + 14
  const HardConfinementDay: int := DaysBeforeYear(2020) + DaysBeforeMonth(2020, 3) + 30

  /** A position in the grid of axes: `ax[row, col]`. */
  datatype Cell = Cell(row: nat, col: nat)

  /** What a panel plots: the daily variation (`plot_diff`) or the counts themselves. */
  datatype Values = Daily(changes: seq<Option<int>>) | Levels(counts: seq<int>)

  /** One region's axes: where they are, the title, the x values, the y values and the vertical markers. */
  datatype Panel = Panel(cell: Cell, region: string, title: string, days: seq<int>, values: Values, markers: seq<int>)

  /**
   * The figure: the number of grid rows, the panels in the order they are
   * drawn, the figure title, and the cell removed by `fig.delaxes`.
   */
  datatype Figure = Figure(gridRows: nat, panels: seq<Panel>, title: Option<string>, deleted: Option<Cell>)

  /**
   * Why the plot fails: `plt.subplots(0, 2)` rejects an empty grid, and with
   * a single grid row matplotlib hands back a one-dimensional array of axes
   * that `ax[column, row]` cannot index.
   */
  datatype PlotError = NoRegions | SingleRowOfAxes

  /** `df[SZ_COLUMN_CA].unique()`: each region once, in the order of its first row. */
  function Regions(rows: seq<Row>): (u: seq<string>)
    ensures forall g :: g in u <==> exists i :: 0 <= i < |rows| && rows[i].region == g
    ensures forall i, j :: 0 <= i < j < |u| ==> u[i] != u[j]
  {
    if rows == [] then []
    else
      var init := rows[..|rows| - 1];
      var before := Regions(init);
      var g := rows[|rows| - 1].region;
      assert forall i :: 0 <= i < |init| ==> init[i] == rows[i];
      if g in before then before else before + [g]
  }

  /** A region listed before another has its first row before every row of the other. */
  lemma {:induction false} RegionsInOrder(rows: seq<Row>, i: nat, j: nat)
    requires i < j < |Regions(rows)|
    ensures exists a :: 0 <= a < |rows| && rows[a].region == Regions(rows)[i]
                        && forall b :: 0 <= b < |rows| && rows[b].region == Regions(rows)[j] ==> a < b
  {
    var u := Regions(rows);
    var init := rows[..|rows| - 1];
    var before := Regions(init);
    var last := |rows| - 1;
    assert forall k :: 0 <= k < |init| ==> init[k] == rows[k];
    if j < |before| {
      assert u[i] == before[i] && u[j] == before[j];
      RegionsInOrder(init, i, j);
      var a :| 0 <= a < |init| && init[a].region == before[i]
               && forall b :: 0 <= b < |init| && init[b].region == before[j] ==> a < b;
      assert rows[a].region == u[i];
    } else {
      assert u == before + [rows[last].region] && u[j] == rows[last].region;
      assert u[i] == before[i] && u[i] in before;
      var a :| 0 <= a < |init| && init[a].region == u[i];
      assert rows[a].region == u[i];
      forall b | 0 <= b < last ensures rows[b].region != u[j] {
        assert init[b].region in before;
      }
    }
  }

  /** `lst_ca.index(ca)`: the first position of `x` in `xs`. */
  function IndexOf(xs: seq<string>, x: string): (k: nat)
    requires x in xs
    ensures k < |xs| && xs[k] == x
    ensures forall j :: 0 <= j < k ==> xs[j] != x
  {
    if xs[0] == x then 0 else 1 + IndexOf(xs[1..], x)
  }

  /** In a list without repeats, every entry is found at its own position. */
  lemma IndexOfDistinct(xs: seq<string>, k: nat)
    requires k < |xs| && forall i, j :: 0 <= i < j < |xs| ==> xs[i] != xs[j]
    ensures IndexOf(xs, xs[k]) == k
  {
  }

  /** `math.ceil(n / n_columns)`. */
  function GridRows(n: nat): (r: nat)
    ensures Columns * r >= n && Columns * r < n + Columns
  {
    (n + 1) / 2
  }

  /** The cell of the region at `index`. */
  function CellOf(index: nat): Cell {
    Cell(index / Columns, index % Columns)
  }

  /** The x values of a panel: the dates of its rows, in order. */
  function DaysOf(rows: seq<Row>): (d: seq<int>)
    ensures |d| == |rows| && forall i :: 0 <= i < |rows| ==> d[i] == rows[i].date
  {
    seq(|rows|, i requires 0 <= i < |rows| => rows[i].date)
  }

  /** The y values of a panel for the rows of one region. */
  function ValuesOf(regionRows: seq<Row>, plotDiff: bool): Values {
    if plotDiff then Daily(DailyVariation(Counts(regionRows))) else Levels(Counts(regionRows))
  }

  /** The panel for region `ca` at position `index`. */
  function PanelFor(rows: seq<Row>, ca: string, index: nat, plotDiff: bool, subs: seq<Subdivision>): Panel {
    var own := RegionRows(rows, ca);
    Panel(CellOf(index), ca, Take(CaGetName(ca, subs), TitleLength), DaysOf(own), ValuesOf(own, plotDiff),
          [ConfinementDay, HardConfinementDay])
  }

  /** The panels of the regions `lst`, in their order. */
  function Panels(rows: seq<Row>, lst: seq<string>, plotDiff: bool, subs: seq<Subdivision>): (ps: seq<Panel>)
    ensures |ps| == |lst|
    ensures forall k :: 0 <= k < |lst| ==> ps[k] == PanelFor(rows, lst[k], k, plotDiff, subs)
  {
    seq(|lst|, k requires 0 <= k < |lst| => PanelFor(rows, lst[k], k, plotDiff, subs))
  }

  /** The cell `fig.delaxes` removes: the last one, when the region count is odd. */
  function DeletedCell(n: nat): Option<Cell> {
    if n % 2 != 0 then Some(Cell(GridRows(n) - 1, Columns - 1)) else None
  }

  /** The figure `plot_by_ca(df, plot_diff, title=title)` builds for the cleaned rows. */
  function GridFigure(rows: seq<Row>, plotDiff: bool, subs: seq<Subdivision>, title: Option<string>): Result<Figure, PlotError> {
    var lst := Regions(rows);
    if |lst| == 0 then Err(NoRegions)
    else if GridRows(|lst|) == 1 then Err(SingleRowOfAxes)
    else Ok(Figure(GridRows(|lst|), Panels(rows, lst, plotDiff, subs), title, DeletedCell(|lst|)))
  }

  /**
   * `plot_by_ca`: a loop over the regions that finds each one's position
   * in the list, computes its cell and fills in its axes.
   */
  method PlotByCa(rows: seq<Row>, plotDiff: bool, subs: seq<Subdivision>, title: Option<string>)
    returns (r: Result<Figure, PlotError>)
    ensures r == GridFigure(rows, plotDiff, subs, title)
  {
    var lst := Regions(rows);
    var nRows := (|lst| + Columns - 1) / Columns;
    if nRows == 0 {
      return Err(NoRegions);
    }
    if nRows == 1 {
      return Err(SingleRowOfAxes);
    }
    var panels := DrawPanels(rows, lst, plotDiff, subs);
    var deleted := None;
    if |lst| % 2 != 0 {
      deleted := Some(Cell(nRows - 1, Columns - 1));
    }
    return Ok(Figure(nRows, panels, title, deleted));
  }

  /** The loop over the regions, drawing each one's panel in turn. */
  method DrawPanels(rows: seq<Row>, lst: seq<string>, plotDiff: bool, subs: seq<Subdivision>)
    returns (panels: seq<Panel>)
    requires forall i, j :: 0 <= i < j < |lst| ==> lst[i] != lst[j]
    ensures panels == Panels(rows, lst, plotDiff, subs)
  {
    panels := [];
    for k := 0 to |lst|
      invariant panels == Panels(rows, lst, plotDiff, subs)[..k]
    {
      var panel := DrawPanel(rows, lst, lst[k], plotDiff, subs);
      IndexOfDistinct(lst, k);
      PanelsPrefix(Panels(rows, lst, plotDiff, subs), k);
      panels := panels + [panel];
    }
    assert Panels(rows, lst, plotDiff, subs)[..|lst|] == Panels(rows, lst, plotDiff, subs);
  }

  /**
   * One turn of the loop: the region's position in the list, its cell,
   * its rows, and what its axes show.
   */
  method DrawPanel(rows: seq<Row>, lst: seq<string>, ca: string, plotDiff: bool, subs: seq<Subdivision>)
    returns (panel: Panel)
    requires ca in lst
    ensures panel == PanelFor(rows, ca, IndexOf(lst, ca), plotDiff, subs)
  {
    var index := IndexOf(lst, ca);
    var column := index / Columns;
    var row := index - column * Columns;
    var dfCa := RegionRows(rows, ca);
    var values := if plotDiff then Daily(DailyVariation(Counts(dfCa))) else Levels(Counts(dfCa));
    panel := Panel(Cell(column, row), ca, Take(CaGetName(ca, subs), TitleLength), DaysOf(dfCa), values,
                   [ConfinementDay, HardConfinementDay]);
  }

  lemma PanelsPrefix(ps: seq<Panel>, k: nat)
    requires k < |ps|
    ensures ps[..k + 1] == ps[..k] + [ps[k]]
  {
  }

  /**
   * The figure fails exactly when the table is empty (no regions) or holds
   * one or two regions (a single grid row); otherwise it has ⌈n/2⌉ grid
   * rows and one panel per region.
   */
  lemma GridFigureOutcome(rows: seq<Row>, plotDiff: bool, subs: seq<Subdivision>, title: Option<string>)
    ensures GridFigure(rows, plotDiff, subs, title) == Err(NoRegions) <==> rows == []
    ensures GridFigure(rows, plotDiff, subs, title) == Err(SingleRowOfAxes) <==> 1 <= |Regions(rows)| <= 2
    ensures GridFigure(rows, plotDiff, subs, title).Ok? <==> |Regions(rows)| >= 3
    ensures GridFigure(rows, plotDiff, subs, title).Ok? ==>
              var f := GridFigure(rows, plotDiff, subs, title).value;
              |f.panels| == |Regions(rows)| && 2 * f.gridRows - 1 <= |f.panels| <= 2 * f.gridRows && f.title == title
  {
    if rows != [] {
      assert rows[0].region in Regions(rows);
    }
  }

  /** Every panel's cell lies inside the grid, and no two panels share a cell. */
  lemma CellsFitGrid(rows: seq<Row>, plotDiff: bool, subs: seq<Subdivision>, title: Option<string>)
    requires GridFigure(rows, plotDiff, subs, title).Ok?
    ensures var f := GridFigure(rows, plotDiff, subs, title).value;
            (forall k :: 0 <= k < |f.panels| ==> f.panels[k].cell.row < f.gridRows && f.panels[k].cell.col < Columns)
            && (forall j, k :: 0 <= j < k < |f.panels| ==> f.panels[j].cell != f.panels[k].cell)
  {
    var f := GridFigure(rows, plotDiff, subs, title).value;
    forall j, k | 0 <= j < k < |f.panels| ensures f.panels[j].cell != f.panels[k].cell {
      CellOfInjective(j, k);
    }
  }

  lemma CellOfInjective(j: nat, k: nat)
    requires j != k
    ensures CellOf(j) != CellOf(k)
  {
    assert j == Columns * CellOf(j).row + CellOf(j).col;
    assert k == Columns * CellOf(k).row + CellOf(k).col;
  }

  /**
   * A cell is removed exactly when the region count is odd; the removed
   * cell is the last of the grid and holds no panel; the panels and the
   * removed cell together fill the grid.
   */
  lemma DeletedCellUnused(rows: seq<Row>, plotDiff: bool, subs: seq<Subdivision>, title: Option<string>)
    requires GridFigure(rows, plotDiff, subs, title).Ok?
    ensures var f := GridFigure(rows, plotDiff, subs, title).value;
            (f.deleted.Some? <==> |f.panels| % 2 == 1)
            && (f.deleted.Some? ==> f.deleted.value == Cell(f.gridRows - 1, Columns - 1)
                                    && forall k :: 0 <= k < |f.panels| ==> f.panels[k].cell != f.deleted.value)
            && forall c: Cell :: c.row < f.gridRows && c.col < Columns ==>
                 Some(c) == f.deleted || exists k :: 0 <= k < |f.panels| && f.panels[k].cell == c
  {
    var f := GridFigure(rows, plotDiff, subs, title).value;
    var n := |f.panels|;
    assert forall k :: 0 <= k < n ==> f.panels[k].cell == CellOf(k);
    DeletedCellFree(n);
    GridCovered(n);
  }

  /** No region's cell is the removed one. */
  lemma DeletedCellFree(n: nat)
    ensures DeletedCell(n).Some? ==> forall k :: 0 <= k < n ==> CellOf(k) != DeletedCell(n).value
  {
    if DeletedCell(n).Some? {
      forall k | 0 <= k < n ensures CellOf(k) != DeletedCell(n).value {
        assert k <= n - 1 == Columns * (GridRows(n) - 1);
      }
    }
  }

  /** The cells of `n` regions and the removed cell together fill the grid. */
  lemma GridCovered(n: nat)
    ensures forall c: Cell :: c.row < GridRows(n) && c.col < Columns ==>
              Some(c) == DeletedCell(n) || exists k :: 0 <= k < n && CellOf(k) == c
  {
    forall c: Cell | c.row < GridRows(n) && c.col < Columns
      ensures Some(c) == DeletedCell(n) || exists k :: 0 <= k < n && CellOf(k) == c
    {
      var k := Columns * c.row + c.col;
      if k < n {
        assert CellOf(k) == c;
      } else {
        assert c == Cell(GridRows(n) - 1, Columns - 1);
      }
    }
  }

  /**
   * Panel k shows the k-th region: the rows of that region and no others,
   * in table order, their daily variation when `plot_diff` is set and
   * their counts otherwise, under the region's resolved name cut to 15
   * characters, with both confinement dates marked.
   */
  lemma PanelContents(rows: seq<Row>, plotDiff: bool, subs: seq<Subdivision>, title: Option<string>, k: nat)
    requires GridFigure(rows, plotDiff, subs, title).Ok?
    requires k < |GridFigure(rows, plotDiff, subs, title).value.panels|
    ensures var p := GridFigure(rows, plotDiff, subs, title).value.panels[k];
            var own := RegionRows(rows, p.region);
            p.region == Regions(rows)[k]
            && p.cell == Cell(k / 2, k % 2)
            && (forall x :: multiset(own)[x] == if x.region == p.region then multiset(rows)[x] else 0)
            && p.days == DaysOf(own)
            && (plotDiff ==> p.values == Daily(DailyVariation(Counts(own))))
            && (!plotDiff ==> p.values == Levels(Counts(own)))
            && |p.title| <= TitleLength && p.title <= CaGetName(p.region, subs)
            && (|p.title| == TitleLength || p.title == CaGetName(p.region, subs))
            && p.markers == [ConfinementDay, HardConfinementDay]
  {
    var p := GridFigure(rows, plotDiff, subs, title).value.panels[k];
    RegionRowsCount(rows, p.region);
  }

  /** Three regions: two full grid rows, the third panel alone on the second, its neighbour removed. */
  lemma ThreeRegionsExample(d: int, subs: seq<Subdivision>)
    ensures var f := GridFigure([Row("AN", d, 1), Row("AR", d, 2), Row("GA", d, 3)], true, subs, None);
            f.Ok? && f.value.gridRows == 2 && |f.value.panels| == 3
            && f.value.panels[2].cell == Cell(1, 0) && f.value.deleted == Some(Cell(1, 1))
  {
    var rows := [Row("AN", d, 1), Row("AR", d, 2), Row("GA", d, 3)];
    assert rows[..2][..1][..0] == [];
    assert Regions(rows[..2][..1]) == ["AN"];
    assert Regions(rows[..2]) == ["AN", "AR"];
    assert Regions(rows) == ["AN", "AR", "GA"];
  }
}
