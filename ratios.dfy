/**
 * The divisions the scripts perform on whole columns.  pandas divides in
 * floating point and yields inf or NaN for a zero denominator; here the
 * quotient is exact and a zero denominator gives None.
 */
module Ratios {
  import opened Wrappers

  /** `num / den`, or None when `den` is 0. */
  function Quotient(num: int, den: int): (r: Option<real>)
    ensures r.None? <==> den == 0
    ensures r.Some? ==> r.value * den as real == num as real
  {
    if den == 0 then None else Some(num as real / den as real)
  }

  /** A defined quotient is the only number that gives back the numerator. */
  /** The quotient of `num` by a non-zero `den` is any real equal to `num` divided by `den`. */
  lemma QuotientOf(num: int, den: int, w: real)
    requires den != 0 && w == num as real
    ensures Quotient(num, den) == Some(w / den as real)
  {
  }

  lemma QuotientUnique(num: int, den: int, q: real)
    requires den != 0 && q * den as real == num as real
    ensures Quotient(num, den) == Some(q)
  {
    var d := den as real;
    assert q == (q * d) / d;
    assert q == num as real / d;
  }
}
