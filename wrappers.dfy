/** Failure-carrying values shared by every module of the model. */
module Wrappers {

  /** A value that may be absent: pandas' NaN/NaT cells, failed lookups, undefined ratios. */
  datatype Option<+T> = None | Some(value: T) {
    function GetOr(default: T): T {
      match this
      case Some(v) => v
      case None => default
    }
  }

  /** The outcome of a step that raises in the scripts: either a value or the reason it failed. */
  datatype Result<+T, +E> = Ok(value: T) | Err(error: E)

  /** The position of the first element of `xs` that fails `ok`, or None when all pass: where a column-wide conversion raises. */
  function FirstFailing<T>(xs: seq<T>, ok: T -> bool): (r: Option<nat>)
    ensures r.None? <==> forall i :: 0 <= i < |xs| ==> ok(xs[i])
    ensures r.Some? ==> r.value < |xs| && !ok(xs[r.value]) && forall i :: 0 <= i < r.value ==> ok(xs[i])
  {
    if xs == [] then None
    else if !ok(xs[0]) then Some(0)
    else
      match FirstFailing(xs[1..], ok)
      case None => None
      case Some(k) => Some(k + 1)
  }

  /** The first failing element is the one that fails after a run of passing ones. */
  lemma {:induction false} FirstFailingAt<T>(xs: seq<T>, ok: T -> bool, i: nat)
    requires i < |xs| && !ok(xs[i])
    requires forall j :: 0 <= j < i ==> ok(xs[j])
    ensures FirstFailing(xs, ok) == Some(i)
  {
    if i > 0 {
      FirstFailingAt(xs[1..], ok, i - 1);
    }
  }
}
