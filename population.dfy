/**
 * The population table (main.py): `load_ca_population_from_gs` past the
 * download, which reads each region's `Total` and resolves its name to a
 * region code, and `get_hospitalized_by_population`, which sets the
 * latest counts against it as cases per 10 000 inhabitants.
 */
module Population {
  import opened Wrappers
  import opened Text
  import opened Ratios
  import opened Frames
  import opened Join
  import opened Subdivisions
  import Weekly

  /** One line of the population file: the region as the file names it and its `Total` text. */
  datatype PopulationCell = PopulationCell(description: string, total: string)

  /** A line once loaded: the `Total` as a number and the `Code` column. */
  datatype PopulationRow = PopulationRow(description: string, total: nat, code: Option<string>)

  /** Why loading raised: a `Total` `pd.to_numeric` rejects, or a name `get_code` fails on. */
  datatype PopulationError = BadTotal(line: nat, text: string) | BadName(line: nat, error: CodeError)

  /** `Total.str.replace('.', '')` then `pd.to_numeric`: the figure with its thousands separators removed. */
  function ParseTotal(text: string): (r: Option<nat>)
    ensures r.Some? <==> StripDots(text) != [] && AllDigits(StripDots(text))
  {
    ParseNat(StripDots(text))
  }

  /** A dot anywhere in the figure is a thousands separator and does not change it. */
  lemma ParseTotalIgnoresDots(a: string, b: string)
    ensures ParseTotal(a + "." + b) == ParseTotal(a + b)
  {
    SeparatorIgnored(a, b);
  }

  /** "1.234.567" is read as 1234567. */
  lemma ParseTotalExample()
    ensures ParseTotal("1.234.567") == Some(1234567)
  {
    ExampleDigits();
    ExampleShown();
    ParseShowNat(1234567);
  }

  lemma ExampleShown()
    ensures ShowNat(1234567) == "1234567"
  {
    assert ShowNat(1) == "1";
    assert ShowNat(12) == "12";
    assert ShowNat(123) == "123";
    assert ShowNat(1234) == "1234";
    assert ShowNat(12345) == "12345";
    assert ShowNat(123456) == "123456";
  }

  lemma ExampleDigits()
    ensures StripDots("1.234.567") == "1234567"
  {
    FirstSeparator();
    SecondSeparator();
    StripDotsNone("1234567");
  }

  lemma FirstSeparator()
    ensures StripDots("1.234.567") == StripDots("1234.567")
  {
    SeparatorIgnored("1", "234.567");
    assert "1" + "." + "234.567" == "1.234.567";
    assert "1" + "234.567" == "1234.567";
  }

  lemma SecondSeparator()
    ensures StripDots("1234.567") == StripDots("1234567")
  {
    SeparatorIgnored("1234", "567");
    assert "1234" + "." + "567" == "1234.567";
    assert "1234" + "567" == "1234567";
  }

  predicate TotalOk(c: PopulationCell) {
    ParseTotal(c.total).Some?
  }

  /** What `get_code` gives for each line's name, in order. */
  function CodesOf(cells: seq<PopulationCell>, subs: seq<Subdivision>): (codes: seq<Result<Option<string>, CodeError>>)
    ensures |codes| == |cells| && forall i :: 0 <= i < |cells| ==> codes[i] == CodeFor(cells[i].description, subs)
  {
    seq(|cells|, i requires 0 <= i < |cells| => CodeFor(cells[i].description, subs))
  }

  predicate CodeOk(code: Result<Option<string>, CodeError>) {
    code.Ok?
  }

  /**
   * The loaded table from the lines and their `get_code` outcomes: the
   * whole `Total` column is converted first, so a bad figure anywhere is
   * reported before any name; then the first failing name is reported.
   */
  function Assemble(cells: seq<PopulationCell>, codes: seq<Result<Option<string>, CodeError>>): (r: Result<seq<PopulationRow>, PopulationError>)
    requires |codes| == |cells|
    ensures r.Ok? <==> (forall i :: 0 <= i < |cells| ==> TotalOk(cells[i])) && (forall i :: 0 <= i < |codes| ==> codes[i].Ok?)
    ensures r.Ok? ==> |r.value| == |cells|
                      && forall i :: 0 <= i < |cells| ==>
                           r.value[i].description == cells[i].description
                           && ParseTotal(cells[i].total) == Some(r.value[i].total)
                           && codes[i] == Ok(r.value[i].code)
    ensures r.Err? && r.error.BadTotal? ==>
              r.error.line < |cells| && !TotalOk(cells[r.error.line]) && r.error.text == cells[r.error.line].total
              && forall i :: 0 <= i < r.error.line ==> TotalOk(cells[i])
    ensures r.Err? && r.error.BadName? ==>
              (forall i :: 0 <= i < |cells| ==> TotalOk(cells[i]))
              && r.error.line < |cells| && codes[r.error.line] == Err(r.error.error)
              && forall i :: 0 <= i < r.error.line ==> codes[i].Ok?
  {
    match FirstFailing(cells, TotalOk)
    case Some(k) => Err(BadTotal(k, cells[k].total))
    case None =>
      match FirstFailing(codes, CodeOk)
      case Some(k) => Err(BadName(k, codes[k].error))
      case None =>
        Ok(seq(|cells|, i requires 0 <= i < |cells| =>
                 PopulationRow(cells[i].description, ParseTotal(cells[i].total).value, codes[i].value)))
  }

  /** `load_ca_population_from_gs` past the download, on the lines of the file. */
  function PopulationTable(cells: seq<PopulationCell>, subs: seq<Subdivision>): Result<seq<PopulationRow>, PopulationError> {
    Assemble(cells, CodesOf(cells, subs))
  }

  /**
   * The population table loads exactly when every figure converts and
   * every name resolves; each loaded line holds the figure read from its
   * `Total` and the code `get_code` gives for its name.
   */
  lemma PopulationTableSpec(cells: seq<PopulationCell>, subs: seq<Subdivision>, i: nat)
    requires i < |cells|
    ensures var r := PopulationTable(cells, subs);
            r.Ok? ==> ParseTotal(cells[i].total) == Some(r.value[i].total)
                      && CodeFor(cells[i].description, subs) == Ok(r.value[i].code)
    ensures var r := PopulationTable(cells, subs);
            !TotalOk(cells[i]) ==> r.Err? && r.error.BadTotal? && r.error.line <= i
    ensures var r := PopulationTable(cells, subs);
            CodeFor(cells[i].description, subs).Err? ==> r.Err? && (r.error.BadName? ==> r.error.line <= i)
  {
  }

  /** A name `get_code` fails on is reported with the error it raised. */
  lemma PopulationTableNameError(cells: seq<PopulationCell>, subs: seq<Subdivision>)
    ensures var r := PopulationTable(cells, subs);
            r.Err? && r.error.BadName? ==> CodeFor(cells[r.error.line].description, subs) == Err(r.error.error)
  {
  }

  /**
   * `load_ca_population_from_gs` past the download: the `Total` column is
   * rewritten without dots and converted, then the `Code` column is filled
   * by `get_code`, one line at a time.
   */
  method LoadPopulation(cells: seq<PopulationCell>, subs: seq<Subdivision>)
    returns (r: Result<seq<PopulationRow>, PopulationError>)
    ensures r == PopulationTable(cells, subs)
  {
    var totals, bad := ConvertTotals(cells);
    if bad.Some? {
      TotalFailsAt(cells, subs, bad.value);
      return Err(BadTotal(bad.value, cells[bad.value].total));
    }
    r := FillCodes(cells, subs, totals);
  }

  /** The `Total` column converted line by line; the first line that does not convert, if any. */
  method ConvertTotals(cells: seq<PopulationCell>) returns (totals: seq<nat>, bad: Option<nat>)
    ensures bad.None? ==> |totals| == |cells| && forall j :: 0 <= j < |cells| ==> ParseTotal(cells[j].total) == Some(totals[j])
    ensures bad == FirstFailing(cells, TotalOk)
  {
    totals := [];
    for i := 0 to |cells|
      invariant |totals| == i
      invariant forall j :: 0 <= j < i ==> ParseTotal(cells[j].total) == Some(totals[j])
    {
      var t := ParseTotal(cells[i].total);
      if t.None? {
        FirstFailingAt(cells, TotalOk, i);
        return totals, Some(i);
      }
      totals := totals + [t.value];
    }
    bad := None;
  }

  /** The `Code` column filled by `get_code`, line by line, once every figure has converted. */
  method FillCodes(cells: seq<PopulationCell>, subs: seq<Subdivision>, totals: seq<nat>)
    returns (r: Result<seq<PopulationRow>, PopulationError>)
    requires |totals| == |cells| && forall j :: 0 <= j < |cells| ==> ParseTotal(cells[j].total) == Some(totals[j])
    ensures r == PopulationTable(cells, subs)
  {
    ghost var codes := CodesOf(cells, subs);
    var loaded: seq<PopulationRow> := [];
    for i := 0 to |cells|
      invariant |loaded| == i && Agree(cells, codes, totals, loaded)
    {
      var code := GetCode(cells[i].description, subs);
      assert codes[i] == code;
      if code.Err? {
        NameFailsAt(cells, codes, i);
        return Err(BadName(i, code.error));
      }
      var row := PopulationRow(cells[i].description, totals[i], code.value);
      AgreeStep(cells, codes, totals, loaded, row);
      loaded := loaded + [row];
    }
    LoadSucceeds(cells, codes, totals, loaded);
    r := Ok(loaded);
  }

  /** The loaded lines so far carry their figures and the codes found for their names. */
  predicate Agree(cells: seq<PopulationCell>, codes: seq<Result<Option<string>, CodeError>>, totals: seq<nat>,
                  loaded: seq<PopulationRow>) {
    |loaded| <= |cells| == |totals| == |codes|
    && forall j :: 0 <= j < |loaded| ==>
         codes[j] == Ok(loaded[j].code) && loaded[j].description == cells[j].description && loaded[j].total == totals[j]
  }

  lemma AgreeStep(cells: seq<PopulationCell>, codes: seq<Result<Option<string>, CodeError>>, totals: seq<nat>,
                  loaded: seq<PopulationRow>, row: PopulationRow)
    requires Agree(cells, codes, totals, loaded) && |loaded| < |cells|
    requires codes[|loaded|] == Ok(row.code)
    requires row.description == cells[|loaded|].description && row.total == totals[|loaded|]
    ensures Agree(cells, codes, totals, loaded + [row])
  {
  }

  lemma TotalFailsAt(cells: seq<PopulationCell>, subs: seq<Subdivision>, i: nat)
    requires FirstFailing(cells, TotalOk) == Some(i)
    ensures i < |cells| && PopulationTable(cells, subs) == Err(BadTotal(i, cells[i].total))
  {
  }

  lemma NameFailsAt(cells: seq<PopulationCell>, codes: seq<Result<Option<string>, CodeError>>, i: nat)
    requires |codes| == |cells| && i < |cells| && codes[i].Err?
    requires forall j :: 0 <= j < |cells| ==> TotalOk(cells[j])
    requires forall j :: 0 <= j < i ==> codes[j].Ok?
    ensures Assemble(cells, codes) == Err(BadName(i, codes[i].error))
  {
    FirstFailingAt(codes, CodeOk, i);
  }

  lemma LoadSucceeds(cells: seq<PopulationCell>, codes: seq<Result<Option<string>, CodeError>>,
                     totals: seq<nat>, loaded: seq<PopulationRow>)
    requires |loaded| == |cells| && Agree(cells, codes, totals, loaded)
    requires forall j :: 0 <= j < |cells| ==> ParseTotal(cells[j].total) == Some(totals[j])
    ensures Assemble(cells, codes) == Ok(loaded)
  {
    assert forall j :: 0 <= j < |codes| ==> codes[j].Ok?;
    assert forall j :: 0 <= j < |cells| ==> TotalOk(cells[j]);
    var r := Assemble(cells, codes);
    assert r.Ok? && |r.value| == |loaded|;
    forall j | 0 <= j < |cells| ensures r.value[j] == loaded[j] {
      assert codes[j] == Ok(r.value[j].code) && codes[j] == Ok(loaded[j].code);
      assert Some(r.value[j].total) == Some(totals[j]);
    }
    assert r.value == loaded;
  }

  // ------------------------------------------------------------------ rates

  /** One row of `df_ca_hospitalized_population`. */
  datatype RateRow = RateRow(region: string, count: int, total: nat, relation: Option<real>,
                             name: string, relationWithSp: Option<real>)

  /** What `get_hospitalized_by_population` returns: the table and the national rate. */
  datatype Rates = Rates(table: seq<RateRow>, national: Option<real>)

  /** `pd.merge` matches a latest-date row to the population line whose `Code` is its CCAA. */
  predicate HasCode(c: Row, p: PopulationRow) {
    p.code == Some(c.region)
  }

  /** `Relation`: cases per 10 000 inhabitants, None for a population of 0. */
  predicate RateConsistent(w: RateRow) {
    w.relation == Quotient(w.count * 10000, w.total)
  }

  /** `Relation - hospitalized_population_sp`, undefined when either is. */
  function Deviation(relation: Option<real>, national: Option<real>): (r: Option<real>)
    ensures r.Some? <==> relation.Some? && national.Some?
    ensures r.Some? ==> r.value + national.value == relation.value
  {
    if relation.Some? && national.Some? then Some(relation.value - national.value) else None
  }

  /** The row for a latest-date row `c` and its population line `p`, before the national rate is known. */
  function Relate(c: Row, p: PopulationRow, subs: seq<Subdivision>): (w: RateRow)
    ensures RateConsistent(w)
    ensures w.region == c.region && w.count == c.count && w.total == p.total
    ensures w.name == CaGetName(c.region, subs) && w.relationWithSp == None
  {
    RateRow(c.region, c.count, p.total, Quotient(c.count * 10000, p.total), CaGetName(c.region, subs), None)
  }

  function SumCounts(t: seq<RateRow>): int {
    if t == [] then 0 else SumCounts(t[..|t| - 1]) + t[|t| - 1].count
  }

  function SumTotals(t: seq<RateRow>): int {
    if t == [] then 0 else SumTotals(t[..|t| - 1]) + t[|t| - 1].total
  }

  /** `hospitalized_population_sp`: all joined cases per 10 000 of all joined inhabitants. */
  function NationalRate(t: seq<RateRow>): (r: Option<real>)
    ensures r.None? <==> SumTotals(t) == 0
    ensures r.Some? ==> r.value * SumTotals(t) as real == (SumCounts(t) * 10000) as real
  {
    Quotient(SumCounts(t) * 10000, SumTotals(t))
  }

  /** The joined table: one row per pair of a latest-date row and a population line carrying its code. */
  function RelateAll(current: seq<Row>, pop: seq<PopulationRow>, subs: seq<Subdivision>): (t: seq<RateRow>)
    ensures forall w :: w in t <==> exists c, p :: c in current && p in pop && HasCode(c, p) && w == Relate(c, p, subs)
    ensures forall i :: 0 <= i < |t| ==> RateConsistent(t[i]) && t[i].relationWithSp.None?
  {
    var pairs := InnerJoin(current, pop, HasCode);
    var t := seq(|pairs|, i requires 0 <= i < |pairs| => Relate(pairs[i].0, pairs[i].1, subs));
    RelatedPairsSound(current, pop, subs, pairs, t);
    RelatedPairsComplete(current, pop, subs, pairs, t);
    t
  }

  lemma RelatedPairsSound(current: seq<Row>, pop: seq<PopulationRow>, subs: seq<Subdivision>,
                          pairs: seq<(Row, PopulationRow)>, t: seq<RateRow>)
    requires forall q :: q in pairs ==> q.0 in current && q.1 in pop && HasCode(q.0, q.1)
    requires |t| == |pairs| && forall i :: 0 <= i < |t| ==> t[i] == Relate(pairs[i].0, pairs[i].1, subs)
    ensures forall w :: w in t ==> exists c, p :: c in current && p in pop && HasCode(c, p) && w == Relate(c, p, subs)
  {
    forall w | w in t ensures exists c, p :: c in current && p in pop && HasCode(c, p) && w == Relate(c, p, subs) {
      var i :| 0 <= i < |t| && t[i] == w;
      assert pairs[i] in pairs;
    }
  }

  lemma RelatedPairsComplete(current: seq<Row>, pop: seq<PopulationRow>, subs: seq<Subdivision>,
                             pairs: seq<(Row, PopulationRow)>, t: seq<RateRow>)
    requires forall q: (Row, PopulationRow) :: q.0 in current && q.1 in pop && HasCode(q.0, q.1) ==> q in pairs
    requires |t| == |pairs| && forall i :: 0 <= i < |t| ==> t[i] == Relate(pairs[i].0, pairs[i].1, subs)
    ensures forall c, p :: c in current && p in pop && HasCode(c, p) ==> Relate(c, p, subs) in t
  {
    forall c, p | c in current && p in pop && HasCode(c, p) ensures Relate(c, p, subs) in t {
      assert (c, p) in pairs;
      var i :| 0 <= i < |pairs| && pairs[i] == (c, p);
      assert t[i] == Relate(c, p, subs);
    }
  }

  /** The `Relation_with_sp` column filled in from the national rate; nothing else changes. */
  function WithDeviation(t: seq<RateRow>, national: Option<real>): (u: seq<RateRow>)
    ensures |u| == |t|
    ensures forall i :: 0 <= i < |t| ==> u[i] == t[i].(relationWithSp := Deviation(t[i].relation, national))
  {
    seq(|t|, i requires 0 <= i < |t| => t[i].(relationWithSp := Deviation(t[i].relation, national)))
  }

  /** Filling in the deviation leaves the counts and the populations, and so their sums, alone. */
  lemma {:induction false} WithDeviationSums(t: seq<RateRow>, national: Option<real>)
    ensures SumCounts(WithDeviation(t, national)) == SumCounts(t)
    ensures SumTotals(WithDeviation(t, national)) == SumTotals(t)
  {
    if t != [] {
      var u := WithDeviation(t, national);
      assert u[..|u| - 1] == WithDeviation(t[..|t| - 1], national);
      WithDeviationSums(t[..|t| - 1], national);
    }
  }

  /** `get_hospitalized_by_population(df, df_ca)` with names resolved in `subs`. */
  function PopulationRates(rows: seq<Row>, pop: seq<PopulationRow>, subs: seq<Subdivision>): (r: Rates)
    ensures r.national == NationalRate(r.table)
    ensures forall i :: 0 <= i < |r.table| ==>
              RateConsistent(r.table[i]) && r.table[i].relationWithSp == Deviation(r.table[i].relation, r.national)
  {
    var base := RelateAll(Weekly.LatestRows(rows), pop, subs);
    var national := NationalRate(base);
    WithDeviationSums(base, national);
    Rates(WithDeviation(base, national), national)
  }

  /**
   * A row is in the table exactly when, with its `Relation_with_sp` blanked,
   * it is a row of the join and that column is its deviation from the
   * national rate.
   */
  lemma PopulationMembers(rows: seq<Row>, pop: seq<PopulationRow>, subs: seq<Subdivision>, w: RateRow)
    ensures var r := PopulationRates(rows, pop, subs);
            w in r.table <==>
              w.(relationWithSp := None) in RelateAll(Weekly.LatestRows(rows), pop, subs)
              && w.relationWithSp == Deviation(w.relation, r.national)
  {
    var r := PopulationRates(rows, pop, subs);
    var base := RelateAll(Weekly.LatestRows(rows), pop, subs);
    assert r.table == WithDeviation(base, r.national);
    if w in r.table {
      var i :| 0 <= i < |r.table| && r.table[i] == w;
      assert w.(relationWithSp := None) == base[i];
    }
    if w.(relationWithSp := None) in base && w.relationWithSp == Deviation(w.relation, r.national) {
      var i :| 0 <= i < |base| && base[i] == w.(relationWithSp := None);
      assert r.table[i] == w;
    }
  }

  /** The rows joined are those on the latest date whose region is the `Code` of a population line. */
  lemma RelateAllMembers(rows: seq<Row>, pop: seq<PopulationRow>, subs: seq<Subdivision>, w: RateRow)
    ensures w in RelateAll(Weekly.LatestRows(rows), pop, subs) <==>
              rows != [] && exists c, p :: c in rows && c.date == LatestDate(rows) && p in pop && HasCode(c, p)
                                        && w == Relate(c, p, subs)
  {
  }

  /** The deviations, each weighted by its region's population. */
  function WeightedDeviations(t: seq<RateRow>): real {
    if t == [] then 0.0
    else WeightedDeviations(t[..|t| - 1]) + t[|t| - 1].total as real * t[|t| - 1].relationWithSp.GetOr(0.0)
  }

  lemma {:induction false} WeightedDeviationsSum(t: seq<RateRow>, national: real)
    requires forall i :: 0 <= i < |t| ==> RateConsistent(t[i]) && t[i].total != 0
                                          && t[i].relationWithSp == Deviation(t[i].relation, Some(national))
    ensures WeightedDeviations(t) == (SumCounts(t) * 10000) as real - national * SumTotals(t) as real
  {
    if t != [] {
      WeightedDeviationsSum(t[..|t| - 1], national);
      var w := t[|t| - 1];
      assert RateConsistent(w);
    }
  }

  /**
   * The national rate is the population-weighted mean of the regional
   * rates: weighted by population, the regions' deviations from it cancel.
   */
  lemma DeviationsBalance(rows: seq<Row>, pop: seq<PopulationRow>, subs: seq<Subdivision>)
    requires forall p :: p in pop ==> p.total != 0
    requires PopulationRates(rows, pop, subs).national.Some?
    ensures WeightedDeviations(PopulationRates(rows, pop, subs).table) == 0.0
  {
    var r := PopulationRates(rows, pop, subs);
    var base := RelateAll(Weekly.LatestRows(rows), pop, subs);
    assert r.table == WithDeviation(base, r.national);
    JoinedTotals(Weekly.LatestRows(rows), pop, subs);
    Balanced(r.table, r.national.value);
  }

  /** In a table whose deviations are from its own national rate, the weighted deviations cancel. */
  lemma Balanced(t: seq<RateRow>, national: real)
    requires forall i :: 0 <= i < |t| ==> RateConsistent(t[i]) && t[i].total != 0
                                          && t[i].relationWithSp == Deviation(t[i].relation, Some(national))
    requires NationalRate(t) == Some(national)
    ensures WeightedDeviations(t) == 0.0
  {
    WeightedDeviationsSum(t, national);
    Cancel(WeightedDeviations(t), (SumCounts(t) * 10000) as real, national * SumTotals(t) as real);
  }

  lemma Cancel(w: real, counts: real, product: real)
    requires w == counts - product && product == counts
    ensures w == 0.0
  {
  }

  /** Every joined row carries the population of a line of `pop`. */
  lemma JoinedTotals(current: seq<Row>, pop: seq<PopulationRow>, subs: seq<Subdivision>)
    requires forall p :: p in pop ==> p.total != 0
    ensures forall i :: 0 <= i < |RelateAll(current, pop, subs)| ==> RelateAll(current, pop, subs)[i].total != 0
  {
    var t := RelateAll(current, pop, subs);
    forall i | 0 <= i < |t| ensures t[i].total != 0 {
      assert t[i] in t;
      var c, p :| c in current && p in pop && HasCode(c, p) && t[i] == Relate(c, p, subs);
    }
  }

  /** 500 cases among 1 000 000 inhabitants: 5 per 10 000, for the region and the country alike. */
  lemma PopulationRatesExample(d: int, subs: seq<Subdivision>)
    ensures var r := PopulationRates([Row("GA", d, 500)], [PopulationRow("12 Galicia", 1000000, Some("GA"))], subs);
            r.national == Some(5.0) && |r.table| == 1 && r.table[0].relation == Some(5.0)
            && r.table[0].relationWithSp == Some(0.0)
  {
    var c, p := Row("GA", d, 500), PopulationRow("12 Galicia", 1000000, Some("GA"));
    ExampleLatest(c);
    ExampleRelate(c, p, subs);
    var w := Relate(c, p, subs);
    QuotientUnique(5000000, 1000000, 5.0);
    assert [w][..0] == [];
    assert SumCounts([w]) == 500 && SumTotals([w]) == 1000000;
  }

  lemma ExampleLatest(c: Row)
    ensures Weekly.LatestRows([c]) == [c]
  {
    assert LatestDate([c]) == c.date;
    assert [c][..0] == [];
    assert RowsOn([c][..0], c.date) == [];
  }

  lemma ExampleRelate(c: Row, p: PopulationRow, subs: seq<Subdivision>)
    requires HasCode(c, p)
    ensures RelateAll([c], [p], subs) == [Relate(c, p, subs)]
  {
    PartnersOne(c, [p], HasCode, 0);
    assert [c][..0] == [];
    assert InnerJoin([c], [p], HasCode) == [(c, p)];
  }
}
