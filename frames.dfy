/**
 * `get_data`: the published CSV, once read, becomes three views of the
 * hospitalisation counts.  The cleaning adds a parsed Date column, fills
 * an empty Hospitalizados cell with 0 and drops every row still missing
 * a cell; the views are the cleaned table, its Galicia rows and the
 * national series (`groupby("Date").sum()`).
 *
 * main.py drops the last two lines of the file before all this
 * (`skipfooter=2`); gcloud/main.py and hospitalized.py keep every line.
 */
module Frames {
  import opened Wrappers
  import Dates

  /** One line of the file, cut to the CCAA, FECHA and Hospitalizados columns; None is an empty cell. */
  datatype CsvRow = CsvRow(region: Option<string>, fecha: Option<string>, count: Option<int>)

  /** A line once the Date column is added: FECHA as a day number, NaT when the cell was empty. */
  datatype DatedRow = DatedRow(region: Option<string>, date: Option<int>, count: Option<int>)

  /** A cleaned row: every cell present. */
  datatype Row = Row(region: string, date: int, count: int)

  /** One day of the national series: the sum of that day's counts over all regions. */
  datatype NationalRow = NationalRow(date: int, count: int)

  /** What `get_data` returns: `ldf`, `ldf_ga`, `ldf_es`. */
  datatype Views = Views(all: seq<Row>, galicia: seq<Row>, national: seq<NationalRow>)

  /** `pd.to_datetime` raised on the FECHA text of line `line` (0-based, after the footer cut). */
  datatype LoadError = UnparsableDate(line: nat, text: string)

  /** Lines main.py drops from the end of the file. */
  const MainFooterLines: nat := 2
  /** Lines gcloud/main.py and hospitalized.py drop: none. */
  const NoFooter: nat := 0
  /** The region code of Galicia. */
  const GaliciaCode: string := "GA"

  // ---------------------------------------------------------------- reading

  /** `skipfooter`: the lines of the file without its last `footer` lines. */
  function DropFooter(raw: seq<CsvRow>, footer: nat): (body: seq<CsvRow>)
    ensures body <= raw
    ensures |body| == if |raw| <= footer then 0 else |raw| - footer
  {
    if |raw| <= footer then [] else raw[..|raw| - footer]
  }

  /** A FECHA cell `pd.to_datetime` accepts: empty (it becomes NaT) or a valid day/month/year. */
  predicate FechaOk(c: CsvRow) {
    c.fecha.None? || Dates.ParseFecha(c.fecha.value).Some?
  }

  function AddDate(c: CsvRow): DatedRow
    requires FechaOk(c)
  {
    DatedRow(c.region, if c.fecha.None? then None else Dates.ParseFecha(c.fecha.value), c.count)
  }

  /** `ldf["Date"] = pd.to_datetime(ldf["FECHA"], format='%d/%m/%Y')`: all lines, or the first failure. */
  function ParseDates(rows: seq<CsvRow>): (r: Result<seq<DatedRow>, LoadError>)
    ensures r.Ok? <==> forall i :: 0 <= i < |rows| ==> FechaOk(rows[i])
    ensures r.Ok? ==> |r.value| == |rows|
                      && forall i :: 0 <= i < |rows| ==> r.value[i] == AddDate(rows[i])
  {
    match FirstFailing(rows, FechaOk)
    case Some(k) => Err(UnparsableDate(k, rows[k].fecha.value))
    case None => Ok(seq(|rows|, i requires 0 <= i < |rows| => AddDate(rows[i])))
  }

  // --------------------------------------------------------------- cleaning

  /** `fillna(0)` on the Hospitalizados column. */
  function FillCounts(rows: seq<DatedRow>): (r: seq<DatedRow>)
    ensures |r| == |rows|
    ensures forall i :: 0 <= i < |rows| ==>
              r[i] == rows[i].(count := Some(rows[i].count.GetOr(0)))
  {
    seq(|rows|, i requires 0 <= i < |rows| => rows[i].(count := Some(rows[i].count.GetOr(0))))
  }

  predicate Complete(d: DatedRow) {
    d.region.Some? && d.date.Some? && d.count.Some?
  }

  /** `dropna()`: the complete lines, in order, as cleaned rows. */
  function DropIncomplete(rows: seq<DatedRow>): (r: seq<Row>)
    ensures |r| <= |rows|
  {
    if rows == [] then []
    else
      var d := rows[|rows| - 1];
      DropIncomplete(rows[..|rows| - 1])
      + (if Complete(d) then [Row(d.region.value, d.date.value, d.count.value)] else [])
  }

  /**
   * What cleaning does to one line: it survives exactly when it has a
   * region and a date, and then keeps its count, or 0 for an empty cell.
   */
  function CleanRow(d: DatedRow): Option<Row> {
    if d.region.Some? && d.date.Some? then Some(Row(d.region.value, d.date.value, d.count.GetOr(0)))
    else None
  }

  /** The cleaned table, or the error `pd.to_datetime` raises. */
  function Clean(raw: seq<CsvRow>, footer: nat): Result<seq<Row>, LoadError> {
    match ParseDates(DropFooter(raw, footer))
    case Err(e) => Err(e)
    case Ok(dated) => Ok(DropIncomplete(FillCounts(dated)))
  }

  /**
   * `fillna(0)` then `dropna()` keep the lines that have a region and a
   * date, in their order, each with its count or 0: the two steps, line by
   * line, are `CleanRow`.
   */
  lemma {:induction false} CleaningIsRowwise(rows: seq<DatedRow>)
    ensures DropIncomplete(FillCounts(rows)) == CleanedRows(rows)
  {
    if rows != [] {
      var init := rows[..|rows| - 1];
      assert FillCounts(rows)[..|rows| - 1] == FillCounts(init);
      CleaningIsRowwise(init);
    }
  }

  /** The lines `CleanRow` keeps, in order. */
  function CleanedRows(rows: seq<DatedRow>): seq<Row> {
    if rows == [] then []
    else
      var d := rows[|rows| - 1];
      CleanedRows(rows[..|rows| - 1]) + (if CleanRow(d).Some? then [CleanRow(d).value] else [])
  }

  /** A cleaned row comes from a line of the file, and every line with a region and a date yields one. */
  lemma {:induction false} CleanedRowOrigin(rows: seq<DatedRow>, r: Row)
    ensures r in CleanedRows(rows) <==> exists i :: 0 <= i < |rows| && CleanRow(rows[i]) == Some(r)
  {
    if rows != [] {
      var init := rows[..|rows| - 1];
      CleanedRowOrigin(init, r);
      if exists i :: 0 <= i < |rows| && CleanRow(rows[i]) == Some(r) {
        var i :| 0 <= i < |rows| && CleanRow(rows[i]) == Some(r);
        if i < |rows| - 1 {
          assert init[i] == rows[i];
        }
      }
      if r in CleanedRows(init) {
        var i :| 0 <= i < |init| && CleanRow(init[i]) == Some(r);
        assert rows[i] == init[i];
      }
    }
  }

  /** Cleaning keeps the order of the file: cleaning two pieces is cleaning the whole. */
  lemma {:induction false} CleanedRowsConcat(a: seq<DatedRow>, b: seq<DatedRow>)
    ensures CleanedRows(a + b) == CleanedRows(a) + CleanedRows(b)
  {
    if b != [] {
      assert (a + b)[..|a + b| - 1] == a + b[..|b| - 1];
      CleanedRowsConcat(a, b[..|b| - 1]);
    } else {
      assert a + b == a;
    }
  }

  // ------------------------------------------------------------------ views

  /** `df[df["CCAA"] == g]`: the rows of region `g`, in their order. */
  function RegionRows(rows: seq<Row>, g: string): (r: seq<Row>)
    ensures forall i :: 0 <= i < |r| ==> r[i].region == g
  {
    if rows == [] then []
    else
      var x := rows[|rows| - 1];
      RegionRows(rows[..|rows| - 1], g) + (if x.region == g then [x] else [])
  }

  /**
   * A region's subset holds every row of that region, each as often as the
   * table does, and nothing else: M rows tagged `g` give exactly M rows.
   */
  lemma {:induction false} RegionRowsCount(rows: seq<Row>, g: string)
    ensures forall x :: multiset(RegionRows(rows, g))[x] == if x.region == g then multiset(rows)[x] else 0
  {
    if rows != [] {
      var init := rows[..|rows| - 1];
      var x := rows[|rows| - 1];
      assert rows == init + [x];
      RegionRowsCount(init, g);
    }
  }

  /** Selecting a region keeps the order of the table. */
  lemma {:induction false} RegionRowsConcat(a: seq<Row>, b: seq<Row>, g: string)
    ensures RegionRows(a + b, g) == RegionRows(a, g) + RegionRows(b, g)
  {
    if b != [] {
      var ab := a + b;
      assert ab[..|ab| - 1] == a + b[..|b| - 1];
      assert ab[|ab| - 1] == b[|b| - 1];
      RegionRowsConcat(a, b[..|b| - 1], g);
    } else {
      assert a + b == a;
    }
  }

  /** `ldf[ldf["CCAA"] == "GA"]`. */
  function GaliciaView(rows: seq<Row>): seq<Row> {
    RegionRows(rows, GaliciaCode)
  }

  /** The sum of the counts of the rows dated `d`. */
  function DayTotal(rows: seq<Row>, d: int): int {
    if rows == [] then 0
    else
      var x := rows[|rows| - 1];
      DayTotal(rows[..|rows| - 1], d) + (if x.date == d then x.count else 0)
  }

  /** The dates present in a table. */
  function RowDates(rows: seq<Row>): set<int> {
    set i | 0 <= i < |rows| :: rows[i].date
  }

  function SeriesDates(ns: seq<NationalRow>): set<int> {
    set i | 0 <= i < |ns| :: ns[i].date
  }

  /** Strictly increasing dates: sorted, and no date twice. */
  predicate Ascending(ns: seq<NationalRow>) {
    forall i, j :: 0 <= i < j < |ns| ==> ns[i].date < ns[j].date
  }

  /** What a series holds for date `d` (added over its rows for `d`, of which an ascending series has at most one). */
  function SeriesValue(ns: seq<NationalRow>, d: int): int {
    if ns == [] then 0 else (if ns[0].date == d then ns[0].count else 0) + SeriesValue(ns[1..], d)
  }

  lemma SeriesDatesCons(x: NationalRow, ns: seq<NationalRow>)
    ensures SeriesDates([x] + ns) == {x.date} + SeriesDates(ns)
  {
    var r := [x] + ns;
    forall d | d in SeriesDates(r) ensures d in {x.date} + SeriesDates(ns) {
      var i :| 0 <= i < |r| && r[i].date == d;
      if i > 0 { assert ns[i - 1].date == d; }
    }
    forall d | d in SeriesDates(ns) ensures d in SeriesDates(r) {
      var i :| 0 <= i < |ns| && ns[i].date == d;
      assert r[i + 1].date == d;
    }
    assert r[0].date == x.date;
  }

  /** One row's count added into an ascending series: into its date's entry, or as a new entry in place. */
  function AddToSeries(acc: seq<NationalRow>, d: int, c: int): (r: seq<NationalRow>)
    requires Ascending(acc)
    ensures Ascending(r)
    ensures SeriesDates(r) == SeriesDates(acc) + {d}
    ensures forall x :: SeriesValue(r, x) == SeriesValue(acc, x) + (if x == d then c else 0)
  {
    if acc == [] || d < acc[0].date then
      InsertFront(acc, d, c);
      [NationalRow(d, c)] + acc
    else if d == acc[0].date then
      MergeFront(acc, c);
      [NationalRow(d, acc[0].count + c)] + acc[1..]
    else
      assert Ascending(acc[1..]) by {
        forall i, j | 0 <= i < j < |acc| - 1 ensures acc[1..][i].date < acc[1..][j].date {
          assert acc[1..][i] == acc[i + 1] && acc[1..][j] == acc[j + 1];
        }
      }
      var rest := AddToSeries(acc[1..], d, c);
      AddBehind(acc, d, c, rest);
      [acc[0]] + rest
  }

  /** A date before every date of the series becomes its new first entry. */
  lemma InsertFront(acc: seq<NationalRow>, d: int, c: int)
    requires Ascending(acc) && (acc == [] || d < acc[0].date)
    ensures var r := [NationalRow(d, c)] + acc;
            Ascending(r) && SeriesDates(r) == SeriesDates(acc) + {d}
            && forall x :: SeriesValue(r, x) == SeriesValue(acc, x) + (if x == d then c else 0)
  {
    var r := [NationalRow(d, c)] + acc;
    assert r[1..] == acc;
    SeriesDatesCons(NationalRow(d, c), acc);
    forall i, j | 0 <= i < j < |r| ensures r[i].date < r[j].date {
      assert r[j] == acc[j - 1];
      if i > 0 {
        assert r[i] == acc[i - 1];
      } else if j > 1 {
        assert acc[0].date < acc[j - 1].date;
      }
    }
  }

  /** A date equal to the first entry's date adds into that entry. */
  lemma MergeFront(acc: seq<NationalRow>, c: int)
    requires Ascending(acc) && acc != []
    ensures var d := acc[0].date;
            var r := [NationalRow(d, acc[0].count + c)] + acc[1..];
            Ascending(r) && SeriesDates(r) == SeriesDates(acc) + {d}
            && forall x :: SeriesValue(r, x) == SeriesValue(acc, x) + (if x == d then c else 0)
  {
    var d := acc[0].date;
    var r := [NationalRow(d, acc[0].count + c)] + acc[1..];
    assert r[1..] == acc[1..];
    assert acc == [acc[0]] + acc[1..];
    SeriesDatesCons(NationalRow(d, acc[0].count + c), acc[1..]);
    SeriesDatesCons(acc[0], acc[1..]);
    forall i, j | 0 <= i < j < |r| ensures r[i].date < r[j].date {
      assert r[j] == acc[j];
      if i > 0 {
        assert r[i] == acc[i];
      }
    }
  }

  /** A date after the first entry's date goes into the rest of the series. */
  lemma AddBehind(acc: seq<NationalRow>, d: int, c: int, rest: seq<NationalRow>)
    requires Ascending(acc) && acc != [] && acc[0].date < d
    requires Ascending(rest) && SeriesDates(rest) == SeriesDates(acc[1..]) + {d}
    requires forall x :: SeriesValue(rest, x) == SeriesValue(acc[1..], x) + (if x == d then c else 0)
    ensures var r := [acc[0]] + rest;
            Ascending(r) && SeriesDates(r) == SeriesDates(acc) + {d}
            && forall x :: SeriesValue(r, x) == SeriesValue(acc, x) + (if x == d then c else 0)
  {
    var r := [acc[0]] + rest;
    assert r[1..] == rest;
    assert acc == [acc[0]] + acc[1..];
    SeriesDatesCons(acc[0], acc[1..]);
    SeriesDatesCons(acc[0], rest);
    AddBehindAscending(acc, d, rest);
  }

  lemma AddBehindAscending(acc: seq<NationalRow>, d: int, rest: seq<NationalRow>)
    requires Ascending(acc) && acc != [] && acc[0].date < d
    requires Ascending(rest) && SeriesDates(rest) == SeriesDates(acc[1..]) + {d}
    ensures Ascending([acc[0]] + rest)
  {
    forall y | y in SeriesDates(acc[1..]) ensures acc[0].date < y {
      var k :| 0 <= k < |acc[1..]| && acc[1..][k].date == y;
      assert acc[k + 1].date == y;
    }
    var r := [acc[0]] + rest;
    forall i, j | 0 <= i < j < |r| ensures r[i].date < r[j].date {
      assert r[j] == rest[j - 1];
      if i > 0 {
        assert r[i] == rest[i - 1];
      } else {
        assert rest[j - 1].date in SeriesDates(rest);
      }
    }
  }

  /**
   * `ldf.groupby("Date").sum()`: one row per date of the table, in
   * ascending date order, holding the sum of that date's counts.
   */
  function NationalView(rows: seq<Row>): (ns: seq<NationalRow>)
    ensures Ascending(ns)
    ensures SeriesDates(ns) == RowDates(rows)
    ensures forall d :: SeriesValue(ns, d) == DayTotal(rows, d)
  {
    if rows == [] then []
    else
      var init := rows[..|rows| - 1];
      var x := rows[|rows| - 1];
      var ns := AddToSeries(NationalView(init), x.date, x.count);
      assert RowDates(rows) == RowDates(init) + {x.date} by {
        forall d | d in RowDates(rows) ensures d in RowDates(init) + {x.date} {
          var i :| 0 <= i < |rows| && rows[i].date == d;
          if i < |init| { assert init[i].date == d; }
        }
        forall d | d in RowDates(init) ensures d in RowDates(rows) {
          var i :| 0 <= i < |init| && init[i].date == d;
          assert rows[i].date == d;
        }
      }
      ns
  }

  /** In an ascending series the value for a listed date is that date's own entry. */
  lemma {:induction false} SeriesValueAt(ns: seq<NationalRow>, i: nat)
    requires Ascending(ns) && i < |ns|
    ensures SeriesValue(ns, ns[i].date) == ns[i].count
  {
    var d := ns[i].date;
    if i == 0 {
      SeriesValueAbsent(ns[1..], d);
    } else {
      assert ns[1..][i - 1] == ns[i];
      SeriesValueAt(ns[1..], i - 1);
    }
  }

  lemma {:induction false} SeriesValueAbsent(ns: seq<NationalRow>, d: int)
    requires forall j :: 0 <= j < |ns| ==> d < ns[j].date
    ensures SeriesValue(ns, d) == 0
  {
    if ns != [] {
      SeriesValueAbsent(ns[1..], d);
    }
  }

  /**
   * The national view has exactly one row per distinct date of the table,
   * in ascending order, and each row's count is the sum of the counts of
   * all the table's rows on that date.
   */
  lemma NationalViewSpec(rows: seq<Row>)
    ensures Ascending(NationalView(rows))
    ensures forall d :: d in SeriesDates(NationalView(rows)) <==> exists i :: 0 <= i < |rows| && rows[i].date == d
    ensures forall i :: 0 <= i < |NationalView(rows)| ==>
              NationalView(rows)[i].count == DayTotal(rows, NationalView(rows)[i].date)
  {
    var ns := NationalView(rows);
    forall i | 0 <= i < |ns| ensures ns[i].count == DayTotal(rows, ns[i].date) {
      SeriesValueAt(ns, i);
    }
  }

  /** Three regions reporting 10, 20 and 30 on one day make 60 for that day. */
  lemma NationalSumExample(d: int)
    ensures NationalView([Row("AN", d, 10), Row("GA", d, 20), Row("MD", d, 30)]) == [NationalRow(d, 60)]
  {
    var rows := [Row("AN", d, 10), Row("GA", d, 20), Row("MD", d, 30)];
    assert rows[..2] == [Row("AN", d, 10), Row("GA", d, 20)];
    assert rows[..2][..1] == [Row("AN", d, 10)];
    assert rows[..2][..1][..0] == [];
    assert NationalView(rows[..2][..1]) == [NationalRow(d, 10)];
    assert NationalView(rows[..2]) == [NationalRow(d, 30)];
  }

  /** The whole of `get_data` after the download: the three views, or the date error. */
  function LoadViews(raw: seq<CsvRow>, footer: nat): Result<Views, LoadError> {
    match Clean(raw, footer)
    case Err(e) => Err(e)
    case Ok(rows) => Ok(Views(rows, GaliciaView(rows), NationalView(rows)))
  }

  /**
   * `get_data` past the download, as the scripts run it: the kept lines are
   * laid out as columns, the Date column is added (raising on the first
   * unreadable FECHA), the Hospitalizados column is overwritten by its
   * `fillna(0)`, and `dropna()` keeps the complete lines.
   */
  method GetData(raw: seq<CsvRow>, footer: nat) returns (r: Result<Views, LoadError>)
    ensures r == LoadViews(raw, footer)
  {
    var body := DropFooter(raw, footer);
    var n := |body|;
    var regions := new Option<string>[n](i requires 0 <= i < n => body[i].region);
    var counts := new Option<int>[n](i requires 0 <= i < n => body[i].count);
    var dates := new Option<int>[n];
    var failed := AddDateColumn(body, dates);
    if failed.Some? {
      LoadFailsAt(raw, footer, failed.value);
      return Err(UnparsableDate(failed.value, body[failed.value].fecha.value));
    }
    ghost var dated := ParseDates(body).value;
    FillNaColumn(counts);
    ghost var filled := FillCounts(dated);
    var cleaned := DropNaRows(regions, dates, counts, filled);
    r := Ok(Views(cleaned, GaliciaView(cleaned), NationalView(cleaned)));
  }

  /**
   * `ldf["Date"] = pd.to_datetime(ldf["FECHA"], ...)`: the Date column,
   * line by line, stopping at the first FECHA that cannot be read.
   */
  method AddDateColumn(body: seq<CsvRow>, dates: array<Option<int>>) returns (failed: Option<nat>)
    requires dates.Length == |body|
    modifies dates
    ensures failed == FirstFailing(body, FechaOk)
    ensures failed.None? ==> forall j :: 0 <= j < |body| ==> dates[j] == AddDate(body[j]).date
  {
    for i := 0 to |body|
      invariant forall j :: 0 <= j < i ==> FechaOk(body[j]) && dates[j] == AddDate(body[j]).date
    {
      match body[i].fecha
      case None =>
        dates[i] := None;
      case Some(text) =>
        var day := Dates.ParseFecha(text);
        if day.None? {
          FirstFailingAt(body, FechaOk, i);
          return Some(i);
        }
        dates[i] := day;
    }
    return None;
  }

  /** `ldf["Hospitalizados"] = ldf["Hospitalizados"].fillna(0)`, in place. */
  method FillNaColumn(counts: array<Option<int>>)
    modifies counts
    ensures forall j :: 0 <= j < counts.Length ==> counts[j] == Some(old(counts[j]).GetOr(0))
  {
    for i := 0 to counts.Length
      invariant forall j :: 0 <= j < i ==> counts[j] == Some(old(counts[j]).GetOr(0))
      invariant forall j :: i <= j < counts.Length ==> counts[j] == old(counts[j])
    {
      if counts[i].None? {
        counts[i] := Some(0);
      }
    }
  }

  /** `ldf.dropna()`: the lines whose three columns are all filled, in order. */
  method DropNaRows(regions: array<Option<string>>, dates: array<Option<int>>, counts: array<Option<int>>,
                    ghost lines: seq<DatedRow>) returns (cleaned: seq<Row>)
    requires regions.Length == |lines| && dates.Length == |lines| && counts.Length == |lines|
    requires forall j :: 0 <= j < |lines| ==> lines[j] == DatedRow(regions[j], dates[j], counts[j])
    ensures cleaned == DropIncomplete(lines)
  {
    cleaned := [];
    for i := 0 to regions.Length
      invariant cleaned == DropIncomplete(lines[..i])
    {
      assert lines[..i + 1][..i] == lines[..i];
      if regions[i].Some? && dates[i].Some? && counts[i].Some? {
        cleaned := cleaned + [Row(regions[i].value, dates[i].value, counts[i].value)];
      }
    }
    assert lines[..|lines|] == lines;
  }

  /** Loading fails exactly when a kept line has a FECHA `pd.to_datetime` cannot read. */
  lemma LoadViewsFails(raw: seq<CsvRow>, footer: nat)
    ensures LoadViews(raw, footer).Err? <==>
              exists i :: 0 <= i < |DropFooter(raw, footer)| && !FechaOk(DropFooter(raw, footer)[i])
  {
  }

  /**
   * When loading succeeds, `ldf` holds exactly what the kept lines become
   * once dated and cleaned, `ldf_ga` holds each Galicia row of `ldf` as
   * often as `ldf` does and nothing else, and `ldf_es` is the national
   * series of `ldf`.
   */
  lemma LoadViewsContents(raw: seq<CsvRow>, footer: nat, x: Row)
    requires LoadViews(raw, footer).Ok?
    ensures var v, body := LoadViews(raw, footer).value, DropFooter(raw, footer);
            (x in v.all <==> exists i :: 0 <= i < |body| && FechaOk(body[i]) && CleanRow(AddDate(body[i])) == Some(x))
            && multiset(v.galicia)[x] == (if x.region == GaliciaCode then multiset(v.all)[x] else 0)
            && v.national == NationalView(v.all)
  {
    var v, body := LoadViews(raw, footer).value, DropFooter(raw, footer);
    var dated := ParseDates(body).value;
    CleaningIsRowwise(dated);
    CleanedRowOrigin(dated, x);
    RegionRowsCount(v.all, GaliciaCode);
    if x in v.all {
      var i :| 0 <= i < |dated| && CleanRow(dated[i]) == Some(x);
      assert FechaOk(body[i]) && dated[i] == AddDate(body[i]);
    }
    if i :| 0 <= i < |body| && FechaOk(body[i]) && CleanRow(AddDate(body[i])) == Some(x) {
      assert CleanRow(dated[i]) == Some(x);
    }
  }

  lemma LoadFailsAt(raw: seq<CsvRow>, footer: nat, i: nat)
    requires i < |DropFooter(raw, footer)| && !FechaOk(DropFooter(raw, footer)[i])
    requires forall j :: 0 <= j < i ==> FechaOk(DropFooter(raw, footer)[j])
    ensures LoadViews(raw, footer) == Err(UnparsableDate(i, DropFooter(raw, footer)[i].fecha.value))
  {
    var body := DropFooter(raw, footer);
    assert FirstFailing(body, FechaOk) == Some(i);
  }

  /**
   * The date range the scripts report ("From ... to ..."): the earliest and
   * the latest date of the cleaned table, None for an empty table.
   */
  function DateSpan(rows: seq<Row>): (r: Option<(int, int)>)
    ensures r.None? <==> rows == []
    ensures r.Some? ==> r.value.0 <= r.value.1
    ensures r.Some? ==> exists i :: 0 <= i < |rows| && rows[i].date == r.value.0
    ensures r.Some? ==> exists i :: 0 <= i < |rows| && rows[i].date == r.value.1
    ensures r.Some? ==> forall i :: 0 <= i < |rows| ==> r.value.0 <= rows[i].date <= r.value.1
  {
    if rows == [] then None
    else
      var x := rows[|rows| - 1];
      var init := rows[..|rows| - 1];
      match DateSpan(init)
      case None => Some((x.date, x.date))
      case Some((lo, hi)) =>
        var lo', hi' := if x.date < lo then x.date else lo, if x.date > hi then x.date else hi;
        assert forall i :: 0 <= i < |init| ==> init[i] == rows[i];
        assert exists i :: 0 <= i < |rows| && rows[i].date == lo' by {
          if x.date >= lo {
            var k :| 0 <= k < |init| && init[k].date == lo;
            assert rows[k].date == lo;
          }
        }
        assert exists i :: 0 <= i < |rows| && rows[i].date == hi' by {
          if x.date <= hi {
            var k :| 0 <= k < |init| && init[k].date == hi;
            assert rows[k].date == hi;
          }
        }
        Some((lo', hi'))
  }

  /** `df["Date"].max()` on a table that has rows: its latest date. */
  function LatestDate(rows: seq<Row>): (d: int)
    requires rows != []
    ensures exists i :: 0 <= i < |rows| && rows[i].date == d
    ensures forall i :: 0 <= i < |rows| ==> rows[i].date <= d
  {
    DateSpan(rows).value.1
  }

  /** `df[df["Date"] == d]`: the rows dated `d`, in their order. */
  function RowsOn(rows: seq<Row>, d: int): (r: seq<Row>)
    ensures forall x :: x in r <==> x in rows && x.date == d
  {
    if rows == [] then []
    else
      var x := rows[|rows| - 1];
      var init := rows[..|rows| - 1];
      assert rows == init + [x];
      RowsOn(init, d) + (if x.date == d then [x] else [])
  }

  /** Selecting a date keeps every row of that date, each as often as the table holds it, and nothing else. */
  lemma {:induction false} RowsOnCount(rows: seq<Row>, d: int)
    ensures forall x :: multiset(RowsOn(rows, d))[x] == if x.date == d then multiset(rows)[x] else 0
  {
    if rows != [] {
      var init := rows[..|rows| - 1];
      var x := rows[|rows| - 1];
      assert rows == init + [x];
      RowsOnCount(init, d);
    }
  }

  /** Selecting a date keeps the order of the table. */
  lemma {:induction false} RowsOnConcat(a: seq<Row>, b: seq<Row>, d: int)
    ensures RowsOn(a + b, d) == RowsOn(a, d) + RowsOn(b, d)
  {
    if b != [] {
      var ab, init, x := a + b, b[..|b| - 1], b[|b| - 1];
      assert ab[..|ab| - 1] == a + init;
      assert ab[|ab| - 1] == x;
      assert RowsOn(ab, d) == RowsOn(a + init, d) + (if x.date == d then [x] else []);
      assert RowsOn(b, d) == RowsOn(init, d) + (if x.date == d then [x] else []);
      RowsOnConcat(a, init, d);
    } else {
      assert a + b == a;
    }
  }
}
