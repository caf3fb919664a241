/**
 * `pd.merge(left, right, left_on=..., right_on=...)` with its default
 * inner join: every pair of a left row and a right row whose keys agree,
 * in the order of the left rows and, for one left row, of the right rows.
 * A key shared by several rows on both sides yields every combination.
 * This is the order pandas 2.2 and later produce; earlier versions group
 * the left rows that share a key, which differs only when a key repeats
 * on the left.
 */
module Join {

  /** The pairs that one left row `x` forms with the right rows, in their order. */
  function Partners<L(!new), R(!new)>(x: L, right: seq<R>, key: (L, R) -> bool): (r: seq<(L, R)>)
    ensures forall p :: p in r <==> p.0 == x && p.1 in right && key(x, p.1)
  {
    if right == [] then []
    else
      var y := right[|right| - 1];
      var init := right[..|right| - 1];
      assert right == init + [y];
      Partners(x, init, key) + (if key(x, y) then [(x, y)] else [])
  }

  /** The inner join of `left` and `right` on `key`. */
  function InnerJoin<L(!new), R(!new)>(left: seq<L>, right: seq<R>, key: (L, R) -> bool): (r: seq<(L, R)>)
    ensures forall p :: p in r <==> p.0 in left && p.1 in right && key(p.0, p.1)
  {
    if left == [] then []
    else
      var x := left[|left| - 1];
      var init := left[..|left| - 1];
      assert left == init + [x];
      InnerJoin(init, right, key) + Partners(x, right, key)
  }

  /** The join keeps the order of the left rows: joining two pieces is joining the whole. */
  lemma {:induction false} InnerJoinConcat<L(!new), R(!new)>(a: seq<L>, b: seq<L>, right: seq<R>, key: (L, R) -> bool)
    ensures InnerJoin(a + b, right, key) == InnerJoin(a, right, key) + InnerJoin(b, right, key)
  {
    if b == [] {
      assert a + b == a;
    } else {
      var ab, init, x := a + b, b[..|b| - 1], b[|b| - 1];
      assert ab[..|ab| - 1] == a + init;
      assert ab[|ab| - 1] == x;
      assert InnerJoin(ab, right, key) == InnerJoin(a + init, right, key) + Partners(x, right, key);
      assert InnerJoin(b, right, key) == InnerJoin(init, right, key) + Partners(x, right, key);
      InnerJoinConcat(a, init, right, key);
    }
  }

  /** A left row whose key no right row shares contributes nothing. */
  lemma {:induction false} PartnersNone<L(!new), R(!new)>(x: L, right: seq<R>, key: (L, R) -> bool)
    requires forall i :: 0 <= i < |right| ==> !key(x, right[i])
    ensures Partners(x, right, key) == []
  {
    if right != [] {
      PartnersNone(x, right[..|right| - 1], key);
    }
  }

  /** With exactly one right row sharing its key, a left row forms exactly one pair. */
  lemma {:induction false} PartnersOne<L(!new), R(!new)>(x: L, right: seq<R>, key: (L, R) -> bool, k: nat)
    requires k < |right| && key(x, right[k])
    requires forall i :: 0 <= i < |right| && i != k ==> !key(x, right[i])
    ensures Partners(x, right, key) == [(x, right[k])]
  {
    var init := right[..|right| - 1];
    if k == |right| - 1 {
      PartnersNone(x, init, key);
    } else {
      PartnersOne(x, init, key, k);
    }
  }

  /** A left row that shares its key with at most one right row forms at most one pair. */
  lemma {:induction false} PartnersAtMostOne<L(!new), R(!new)>(x: L, right: seq<R>, key: (L, R) -> bool)
    requires forall k1, k2 :: 0 <= k1 < k2 < |right| ==> !(key(x, right[k1]) && key(x, right[k2]))
    ensures |Partners(x, right, key)| <= 1
  {
    if right != [] {
      var init, y := right[..|right| - 1], right[|right| - 1];
      if key(x, y) {
        PartnersNone(x, init, key);
      } else {
        PartnersAtMostOne(x, init, key);
      }
    }
  }

  /** No left row appears in two of the pairs. */
  ghost predicate LeftsDistinct<L, R>(r: seq<(L, R)>) {
    forall i, j :: 0 <= i < j < |r| ==> r[i].0 != r[j].0
  }

  /**
   * When the left rows are distinct and each shares its key with at most
   * one right row, no left row appears in two pairs of the join.
   */
  lemma {:induction false} InnerJoinLeftDistinct<L(!new), R(!new)>(left: seq<L>, right: seq<R>, key: (L, R) -> bool)
    requires forall i, j :: 0 <= i < j < |left| ==> left[i] != left[j]
    requires forall x, k1, k2 :: x in left && 0 <= k1 < k2 < |right| ==> !(key(x, right[k1]) && key(x, right[k2]))
    ensures LeftsDistinct(InnerJoin(left, right, key))
  {
    if left != [] {
      var init, x := left[..|left| - 1], left[|left| - 1];
      assert left == init + [x];
      assert forall y :: y in init ==> y in left;
      InnerJoinLeftDistinct(init, right, key);
      assert x in left;
      PartnersAtMostOne(x, right, key);
      var a, b := InnerJoin(init, right, key), Partners(x, right, key);
      var r := InnerJoin(left, right, key);
      assert r == a + b;
      forall i, j | 0 <= i < j < |r| ensures r[i].0 != r[j].0 {
        if j >= |a| {
          assert i < |a| && r[i] == a[i] && r[j] == b[j - |a|];
          assert b[j - |a|] in b && a[i] in a;
          assert r[j].0 == x && r[i].0 in init;
          assert x !in init by {
            forall k | 0 <= k < |init| ensures init[k] != x {
              assert init[k] == left[k];
            }
          }
        } else {
          assert r[i] == a[i] && r[j] == a[j];
        }
      }
    }
  }
}
