/**
 * `get_diff_hospitalized` (main.py): each region's count on the latest
 * date of the table set against its count `days_diff` days before, and
 * the national change over the regions that have both.
 */
module Weekly {
  import opened Wrappers
  import opened Ratios
  import opened Frames
  import opened Join
  import opened Subdivisions

  /** One row of `df_diff`: the latest count, the earlier count, their difference and its percentage. */
  datatype WeeklyRow = WeeklyRow(region: string, current: int, prior: int, diff: int,
                                 diffPercent: Option<real>, name: string)

  /** What `get_diff_hospitalized` returns: the table and the national percentage. */
  datatype Weekly = Weekly(table: seq<WeeklyRow>, national: Option<real>)

  /** A row whose figures agree with each other: the difference of the two counts and its share of the earlier one. */
  predicate Consistent(w: WeeklyRow) {
    w.diff == w.current - w.prior
    && (w.diffPercent.None? <==> w.prior == 0)
    && (w.diffPercent.Some? ==> w.diffPercent.value * w.prior as real == (w.diff * 100) as real)
  }

  /** `pd.merge` matches the two dates' rows on CCAA. */
  predicate SameRegion(c: Row, p: Row) {
    c.region == p.region
  }

  /** The row `df_diff` holds for a latest-date row `c` and an earlier row `p` of the same region. */
  function Compare(c: Row, p: Row, subs: seq<Subdivision>): (w: WeeklyRow)
    ensures Consistent(w)
    ensures w.region == c.region && w.current == c.count && w.prior == p.count
    ensures w.name == CaGetName(c.region, subs)
  {
    var diff := c.count - p.count;
    WeeklyRow(c.region, c.count, p.count, diff, Quotient(diff * 100, p.count), CaGetName(c.region, subs))
  }

  /** The joined table: one row per pair of a current row and an earlier row of the same region. */
  function CompareAll(current: seq<Row>, prior: seq<Row>, subs: seq<Subdivision>): (t: seq<WeeklyRow>)
    ensures forall w :: w in t <==> exists c, p :: c in current && p in prior && SameRegion(c, p) && w == Compare(c, p, subs)
  {
    var pairs := InnerJoin(current, prior, SameRegion);
    var t := seq(|pairs|, i requires 0 <= i < |pairs| => Compare(pairs[i].0, pairs[i].1, subs));
    ComparedPairsSound(current, prior, subs, pairs, t);
    ComparedPairsComplete(current, prior, subs, pairs, t);
    t
  }

  lemma ComparedPairsSound(current: seq<Row>, prior: seq<Row>, subs: seq<Subdivision>,
                           pairs: seq<(Row, Row)>, t: seq<WeeklyRow>)
    requires forall q :: q in pairs ==> q.0 in current && q.1 in prior && SameRegion(q.0, q.1)
    requires |t| == |pairs| && forall i :: 0 <= i < |t| ==> t[i] == Compare(pairs[i].0, pairs[i].1, subs)
    ensures forall w :: w in t ==> exists c, p :: c in current && p in prior && SameRegion(c, p) && w == Compare(c, p, subs)
  {
    forall w | w in t ensures exists c, p :: c in current && p in prior && SameRegion(c, p) && w == Compare(c, p, subs) {
      var i :| 0 <= i < |t| && t[i] == w;
      assert pairs[i] in pairs;
    }
  }

  lemma ComparedPairsComplete(current: seq<Row>, prior: seq<Row>, subs: seq<Subdivision>,
                              pairs: seq<(Row, Row)>, t: seq<WeeklyRow>)
    requires forall q: (Row, Row) :: q.0 in current && q.1 in prior && SameRegion(q.0, q.1) ==> q in pairs
    requires |t| == |pairs| && forall i :: 0 <= i < |t| ==> t[i] == Compare(pairs[i].0, pairs[i].1, subs)
    ensures forall c, p :: c in current && p in prior && SameRegion(c, p) ==> Compare(c, p, subs) in t
  {
    forall c, p | c in current && p in prior && SameRegion(c, p) ensures Compare(c, p, subs) in t {
      assert (c, p) in pairs;
      var i :| 0 <= i < |pairs| && pairs[i] == (c, p);
      assert t[i] == Compare(c, p, subs);
    }
  }

  function SumCurrent(t: seq<WeeklyRow>): int {
    if t == [] then 0 else SumCurrent(t[..|t| - 1]) + t[|t| - 1].current
  }

  function SumPrior(t: seq<WeeklyRow>): int {
    if t == [] then 0 else SumPrior(t[..|t| - 1]) + t[|t| - 1].prior
  }

  /** The regional percentages, each weighted by its region's earlier count. */
  function WeightedPercents(t: seq<WeeklyRow>): real {
    if t == [] then 0.0
    else WeightedPercents(t[..|t| - 1]) + t[|t| - 1].prior as real * t[|t| - 1].diffPercent.GetOr(0.0)
  }

  /** `diff_percent_sp`: the change of the summed counts as a percentage of the summed earlier counts. */
  function NationalPercent(t: seq<WeeklyRow>): (r: Option<real>)
    ensures r.None? <==> SumPrior(t) == 0
    ensures r.Some? ==> r.value * SumPrior(t) as real == ((SumCurrent(t) - SumPrior(t)) * 100) as real
  {
    Quotient((SumCurrent(t) - SumPrior(t)) * 100, SumPrior(t))
  }

  /** The rows `get_diff_hospitalized` compares: those on the latest date (none for an empty table). */
  function LatestRows(rows: seq<Row>): seq<Row> {
    if rows == [] then [] else RowsOn(rows, LatestDate(rows))
  }

  /** The rows `days_diff` days before the latest date. */
  function EarlierRows(rows: seq<Row>, daysDiff: int): seq<Row> {
    if rows == [] then [] else RowsOn(rows, LatestDate(rows) - daysDiff)
  }

  /** `get_diff_hospitalized(df, days_diff)` with CCAA names resolved in `subs`. */
  function WeekOverWeek(rows: seq<Row>, daysDiff: int, subs: seq<Subdivision>): Weekly {
    var t := CompareAll(LatestRows(rows), EarlierRows(rows, daysDiff), subs);
    Weekly(t, NationalPercent(t))
  }

  /**
   * The table holds exactly the comparisons of a row on the latest date
   * with a row of the same region `days_diff` days earlier; a region
   * missing on either date is left out.
   */
  lemma WeekOverWeekMembers(rows: seq<Row>, daysDiff: int, subs: seq<Subdivision>, w: WeeklyRow)
    ensures w in WeekOverWeek(rows, daysDiff, subs).table <==>
              rows != [] && exists c, p :: c in rows && p in rows && c.date == LatestDate(rows)
                                        && p.date == LatestDate(rows) - daysDiff && SameRegion(c, p)
                                        && w == Compare(c, p, subs)
  {
  }

  /** A region is in the table exactly when it has a row on the latest date and a row `days_diff` days earlier. */
  lemma RegionCompared(rows: seq<Row>, daysDiff: int, subs: seq<Subdivision>, g: string)
    ensures (exists w :: w in WeekOverWeek(rows, daysDiff, subs).table && w.region == g) <==>
              rows != [] && (exists c :: c in rows && c.region == g && c.date == LatestDate(rows))
                         && (exists p :: p in rows && p.region == g && p.date == LatestDate(rows) - daysDiff)
  {
    var current, prior := LatestRows(rows), EarlierRows(rows, daysDiff);
    RegionPaired(current, prior, subs, g);
    if rows != [] {
      assert forall c :: c in current <==> c in rows && c.date == LatestDate(rows);
      assert forall p :: p in prior <==> p in rows && p.date == LatestDate(rows) - daysDiff;
    }
  }

  /** The joined table holds a region exactly when both sides of the join do. */
  lemma RegionPaired(current: seq<Row>, prior: seq<Row>, subs: seq<Subdivision>, g: string)
    ensures (exists w :: w in CompareAll(current, prior, subs) && w.region == g) <==>
              (exists c :: c in current && c.region == g) && (exists p :: p in prior && p.region == g)
  {
    var t := CompareAll(current, prior, subs);
    if c :| c in current && c.region == g {
      if p :| p in prior && p.region == g {
        assert Compare(c, p, subs) in t;
      }
    }
    if w :| w in t && w.region == g {
      var c, p :| c in current && p in prior && SameRegion(c, p) && w == Compare(c, p, subs);
      assert c.region == g && p.region == g;
    }
  }

  /** No region reports twice on one date. */
  predicate OneRowPerRegionAndDate(rows: seq<Row>) {
    forall i, j :: 0 <= i < j < |rows| ==> !(rows[i].region == rows[j].region && rows[i].date == rows[j].date)
  }

  /** When no region reports twice on one date, the join yields at most one row per region. */
  lemma OneRowPerRegion(rows: seq<Row>, daysDiff: int, subs: seq<Subdivision>, w1: WeeklyRow, w2: WeeklyRow)
    requires OneRowPerRegionAndDate(rows)
    requires w1 in WeekOverWeek(rows, daysDiff, subs).table && w2 in WeekOverWeek(rows, daysDiff, subs).table
    requires w1.region == w2.region
    ensures w1 == w2
  {
    WeekOverWeekMembers(rows, daysDiff, subs, w1);
    WeekOverWeekMembers(rows, daysDiff, subs, w2);
    var c1, p1 :| c1 in rows && p1 in rows && c1.date == LatestDate(rows) && p1.date == LatestDate(rows) - daysDiff
                  && SameRegion(c1, p1) && w1 == Compare(c1, p1, subs);
    var c2, p2 :| c2 in rows && p2 in rows && c2.date == LatestDate(rows) && p2.date == LatestDate(rows) - daysDiff
                  && SameRegion(c2, p2) && w2 == Compare(c2, p2, subs);
    SameRow(rows, c1, c2);
    SameRow(rows, p1, p2);
  }

  /** No two rows of a table name the same region. */
  predicate RegionsDistinct(rows: seq<Row>) {
    forall i, j :: 0 <= i < j < |rows| ==> rows[i].region != rows[j].region
  }

  /** No two rows of the compared table name the same region. */
  predicate TableRegionsDistinct(t: seq<WeeklyRow>) {
    forall i, j :: 0 <= i < j < |t| ==> t[i].region != t[j].region
  }

  /** When no region reports twice on one date, the rows of any one date name each region once. */
  lemma {:induction false} RowsOnRegionsDistinct(rows: seq<Row>, d: int)
    requires OneRowPerRegionAndDate(rows)
    ensures RegionsDistinct(RowsOn(rows, d))
  {
    if rows != [] {
      var init, x := rows[..|rows| - 1], rows[|rows| - 1];
      OneRowPerRegionAndDateInit(rows);
      RowsOnRegionsDistinct(init, d);
      if x.date == d {
        LastRowNewRegion(rows, d);
        RegionsDistinctSnoc(RowsOn(init, d), x);
      }
    }
  }

  lemma OneRowPerRegionAndDateInit(rows: seq<Row>)
    requires rows != [] && OneRowPerRegionAndDate(rows)
    ensures OneRowPerRegionAndDate(rows[..|rows| - 1])
  {
    var init := rows[..|rows| - 1];
    forall i, j | 0 <= i < j < |init|
      ensures !(init[i].region == init[j].region && init[i].date == init[j].date)
    {
      assert init[i] == rows[i] && init[j] == rows[j];
    }
  }

  lemma LastRowNewRegion(rows: seq<Row>, d: int)
    requires rows != [] && OneRowPerRegionAndDate(rows) && rows[|rows| - 1].date == d
    ensures forall y :: y in RowsOn(rows[..|rows| - 1], d) ==> y.region != rows[|rows| - 1].region
  {
    var init := rows[..|rows| - 1];
    forall y | y in RowsOn(init, d) ensures y.region != rows[|rows| - 1].region {
      var k :| 0 <= k < |init| && init[k] == y;
      assert rows[k] == y;
    }
  }

  lemma RegionsDistinctSnoc(a: seq<Row>, x: Row)
    requires RegionsDistinct(a) && forall y :: y in a ==> y.region != x.region
    ensures RegionsDistinct(a + [x])
  {
    var r := a + [x];
    forall i, j | 0 <= i < j < |r| ensures r[i].region != r[j].region {
      assert r[i] == a[i];
      if j < |a| {
        assert r[j] == a[j];
      } else {
        assert a[i] in a;
      }
    }
  }

  /** Joining two sides that each name a region at most once names each region at most once. */
  lemma CompareAllRegionsDistinct(current: seq<Row>, prior: seq<Row>, subs: seq<Subdivision>)
    requires RegionsDistinct(current) && RegionsDistinct(prior)
    ensures TableRegionsDistinct(CompareAll(current, prior, subs))
  {
    var pairs := InnerJoin(current, prior, SameRegion);
    InnerJoinLeftDistinct(current, prior, SameRegion);
    var t := CompareAll(current, prior, subs);
    assert |t| == |pairs|;
    forall i, j | 0 <= i < j < |t| ensures t[i].region != t[j].region {
      assert t[i] == Compare(pairs[i].0, pairs[i].1, subs) && t[j] == Compare(pairs[j].0, pairs[j].1, subs);
      assert pairs[i] in pairs && pairs[j] in pairs;
      var ki :| 0 <= ki < |current| && current[ki] == pairs[i].0;
      var kj :| 0 <= kj < |current| && current[kj] == pairs[j].0;
      assert ki != kj;
    }
  }

  /** When no region reports twice on one date, the rows of every date name each region once. */
  lemma EveryDateRegionsDistinct(rows: seq<Row>)
    requires OneRowPerRegionAndDate(rows)
    ensures forall d :: RegionsDistinct(RowsOn(rows, d))
  {
    forall d ensures RegionsDistinct(RowsOn(rows, d)) {
      RowsOnRegionsDistinct(rows, d);
    }
  }

  /** When the rows of every date name each region once, so does the compared table. */
  lemma WeekOverWeekRegionsDistinct(rows: seq<Row>, daysDiff: int, subs: seq<Subdivision>)
    requires forall d :: RegionsDistinct(RowsOn(rows, d))
    ensures TableRegionsDistinct(WeekOverWeek(rows, daysDiff, subs).table)
  {
    var current, prior := LatestRows(rows), EarlierRows(rows, daysDiff);
    if rows != [] {
      assert current == RowsOn(rows, LatestDate(rows));
      assert prior == RowsOn(rows, LatestDate(rows) - daysDiff);
    }
    CompareAllRegionsDistinct(current, prior, subs);
  }

  /** When no region reports twice on one date, no two rows of the compared table name the same region. */
  lemma OneRowPerRegionDistinct(rows: seq<Row>, daysDiff: int, subs: seq<Subdivision>)
    requires OneRowPerRegionAndDate(rows)
    ensures TableRegionsDistinct(WeekOverWeek(rows, daysDiff, subs).table)
  {
    EveryDateRegionsDistinct(rows);
    WeekOverWeekRegionsDistinct(rows, daysDiff, subs);
  }

  lemma SameRow(rows: seq<Row>, x: Row, y: Row)
    requires OneRowPerRegionAndDate(rows) && x in rows && y in rows
    requires x.region == y.region && x.date == y.date
    ensures x == y
  {
    var i :| 0 <= i < |rows| && rows[i] == x;
    var j :| 0 <= j < |rows| && rows[j] == y;
  }

  /** Every row of the table is consistent. */
  lemma WeekOverWeekConsistent(rows: seq<Row>, daysDiff: int, subs: seq<Subdivision>)
    ensures forall w :: w in WeekOverWeek(rows, daysDiff, subs).table ==> Consistent(w)
  {
  }

  /** Summing prior-weighted percentages over consistent rows with non-zero earlier counts gives 100 times the summed change. */
  lemma {:induction false} WeightedPercentsSum(t: seq<WeeklyRow>)
    requires forall i :: 0 <= i < |t| ==> Consistent(t[i]) && t[i].prior != 0
    ensures WeightedPercents(t) == ((SumCurrent(t) - SumPrior(t)) * 100) as real
  {
    if t != [] {
      WeightedPercentsSum(t[..|t| - 1]);
      var w := t[|t| - 1];
      assert Consistent(w);
    }
  }

  /**
   * The national percentage is a ratio of sums: the regional percentages
   * averaged with the earlier counts as weights, not their plain mean.
   */
  lemma NationalIsWeightedMean(t: seq<WeeklyRow>)
    requires forall i :: 0 <= i < |t| ==> Consistent(t[i]) && t[i].prior != 0
    requires SumPrior(t) != 0
    ensures NationalPercent(t) == Some(WeightedPercents(t) / SumPrior(t) as real)
  {
    WeightedPercentsSum(t);
    QuotientOf((SumCurrent(t) - SumPrior(t)) * 100, SumPrior(t), WeightedPercents(t));
  }

  /** 120 hospitalised a week ago and 100 now: a change of -20, or -16.67 %. */
  lemma WeekOverWeekExample(d: int, subs: seq<Subdivision>)
    ensures var r := WeekOverWeek([Row("GA", d - 7, 120), Row("GA", d, 100)], 7, subs);
            |r.table| == 1 && r.table[0].diff == -20 && r.table[0].diffPercent == Some(-50.0 / 3.0)
            && r.national == Some(-50.0 / 3.0)
  {
    var rows := [Row("GA", d - 7, 120), Row("GA", d, 100)];
    ExampleRows(d);
    ExampleJoin(d, subs);
    var w := Compare(Row("GA", d, 100), Row("GA", d - 7, 120), subs);
    QuotientUnique(-2000, 120, -50.0 / 3.0);
    assert [w][..0] == [];
    assert SumPrior([w]) == 120 && SumCurrent([w]) == 100;
  }

  lemma ExampleRows(d: int)
    ensures LatestRows([Row("GA", d - 7, 120), Row("GA", d, 100)]) == [Row("GA", d, 100)]
    ensures EarlierRows([Row("GA", d - 7, 120), Row("GA", d, 100)], 7) == [Row("GA", d - 7, 120)]
  {
    var rows := [Row("GA", d - 7, 120), Row("GA", d, 100)];
    assert LatestDate(rows) == d;
    assert rows[..1] == [Row("GA", d - 7, 120)];
    assert rows[..1][..0] == [];
    assert RowsOn(rows[..1], d) == [];
    assert RowsOn(rows[..1], d - 7) == [Row("GA", d - 7, 120)];
  }

  lemma ExampleJoin(d: int, subs: seq<Subdivision>)
    ensures CompareAll([Row("GA", d, 100)], [Row("GA", d - 7, 120)], subs)
            == [Compare(Row("GA", d, 100), Row("GA", d - 7, 120), subs)]
  {
    var c, p := Row("GA", d, 100), Row("GA", d - 7, 120);
    PartnersOne(c, [p], SameRegion, 0);
    assert [c][..0] == [];
    assert InnerJoin([c], [p], SameRegion) == [(c, p)];
  }

  /**
   * The national figure is not the mean of the regional ones: +100 % on
   * 100 earlier cases and 0 % on 300 make +25 % nationally, not +50 %.
   */
  lemma NationalNotMeanExample()
    ensures var t := [WeeklyRow("AN", 200, 100, 100, Some(100.0), "Andaluc\U{ED}a"),
                      WeeklyRow("MD", 300, 300, 0, Some(0.0), "Madrid")];
            NationalPercent(t) == Some(25.0)
            && (t[0].diffPercent.value + t[1].diffPercent.value) / 2.0 == 50.0
  {
    var t := [WeeklyRow("AN", 200, 100, 100, Some(100.0), "Andaluc\U{ED}a"),
              WeeklyRow("MD", 300, 300, 0, Some(0.0), "Madrid")];
    assert t[..1][..0] == [];
    assert SumPrior(t) == 400 && SumCurrent(t) == 500;
    QuotientUnique(10000, 400, 25.0);
  }
}
