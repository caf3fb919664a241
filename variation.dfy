/**
 * `get_diff_hospitalized_by_day`: `df["Hospitalizados"] -
 * df["Hospitalizados"].shift(1)`, the difference of each row's count
 * from the count of the row before it.  The difference is positional: it
 * follows the rows in the order the table holds them, whatever their dates.
 */
module Variation {
  import opened Wrappers
  import opened Frames

  /** The Hospitalizados column of a table. */
  function Counts(rows: seq<Row>): (v: seq<int>)
    ensures |v| == |rows| && forall i :: 0 <= i < |rows| ==> v[i] == rows[i].count
  {
    seq(|rows|, i requires 0 <= i < |rows| => rows[i].count)
  }

  /**
   * The first difference of a column: as long as the column, None (NaN)
   * in the first place, and the change from the previous row elsewhere.
   */
  function DailyVariation(v: seq<int>): (d: seq<Option<int>>)
    ensures |d| == |v|
    ensures |v| > 0 ==> d[0] == None
    ensures forall i :: 1 <= i < |v| ==> d[i] == Some(v[i] - v[i - 1])
  {
    seq(|v|, i requires 0 <= i < |v| => if i == 0 then None else Some(v[i] - v[i - 1]))
  }

  /**
   * The running total that undoes a first difference: start from `first`
   * and add each defined difference after the first place.
   */
  function Accumulate(first: int, d: seq<Option<int>>): (v: seq<int>)
    ensures |v| == |d|
  {
    if d == [] then []
    else if |d| == 1 then [first]
    else
      var prev := Accumulate(first, d[..|d| - 1]);
      prev + [prev[|prev| - 1] + d[|d| - 1].GetOr(0)]
  }

  /** The first difference loses nothing but the first value: accumulating it from there gives the column back. */
  lemma {:induction false} AccumulateDailyVariation(v: seq<int>)
    requires v != []
    ensures Accumulate(v[0], DailyVariation(v)) == v
  {
    if |v| > 1 {
      var n := |v|;
      var init, d := v[..n - 1], DailyVariation(v);
      DailyVariationPrefix(v);
      AccumulateDailyVariation(init);
      assert Accumulate(v[0], d) == init + [init[n - 2] + d[n - 1].GetOr(0)];
      assert v == init + [v[n - 1]];
    }
  }

  /** The first difference of a column without its last value is the first difference without its last place. */
  lemma DailyVariationPrefix(v: seq<int>)
    requires v != []
    ensures DailyVariation(v)[..|v| - 1] == DailyVariation(v[..|v| - 1])
  {
  }

  /** Two columns with the same first value and the same first difference are the same column. */
  lemma DailyVariationInjective(v: seq<int>, w: seq<int>)
    requires v != [] && |v| == |w| && v[0] == w[0]
    requires DailyVariation(v) == DailyVariation(w)
    ensures v == w
  {
    AccumulateDailyVariation(v);
    AccumulateDailyVariation(w);
  }
}
