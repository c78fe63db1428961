/** The input checks of `spssim` in lib/helpers.py. The score itself is
    not part of this model. */
module SpSsim {
  import opened Common

  /** How far from 1 a normalised total may be. */
  const Tolerance: real := 0.00001

  /** A pandas series: an index of keys and a value per key. */
  datatype Series<K> = Series(index: seq<K>, values: seq<real>)

  function Abs(x: real): real
  {
    if x < 0.0 then -x else x
  }

  /** Whether a series sums to 1 within the tolerance. */
  predicate Normalised<K>(s: Series<K>)
  {
    Abs(Sum(s.values) - 1.0) <= Tolerance
  }

  /** The checks `spssim` makes, in its order: Y shares X's index, D
      shares Y's index, and X and Y are normalised. */
  function CheckInputs<K(==)>(x: Series<K>, y: Series<K>, d: Series<K>): (r: Result<()>)
    ensures r.Ok? <==> y.index == x.index && d.index == y.index && Normalised(x) && Normalised(y)
    ensures y.index != x.index ==> r == Err("Y does not have same index as X")
    ensures y.index == x.index && d.index != y.index ==> r == Err("D does not have same index as Y")
  {
    if y.index != x.index then Err("Y does not have same index as X")
    else if d.index != y.index then Err("D does not have same index as Y")
    else if Abs(Sum(x.values) - 1.0) > Tolerance then Err("X is not normalized")
    else if Abs(Sum(y.values) - 1.0) > Tolerance then Err("Y is not normalized")
    else Ok(())
  }

  /** Series scaled to sum 1 over one shared index pass the checks. */
  lemma {:induction false} NormalisedInputsAccepted<K>(index: seq<K>, xs: seq<real>, ys: seq<real>, ds: seq<real>)
    requires Sum(xs) != 0.0 && Sum(ys) != 0.0
    ensures CheckInputs(Series(index, Normalize(xs)), Series(index, Normalize(ys)), Series(index, ds)).Ok?
  {
  }
}
