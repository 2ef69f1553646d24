/**
 * Numeric cells of a table column or of a grid array.
 *
 * The columns the interpolators read are float64 arrays; the only floating-point
 * feature their own logic depends on is NaN (a missing measurement), so a cell
 * is either NaN or a finite real.
 */
module Values {

  datatype Num = NaN | Fin(v: real)

  /** A 2-D array, row by row. */
  type Matrix = seq<seq<Num>>

  /**
   * The order in which NumPy's sort places float values: finite values by
   * magnitude, NaN after every finite value.  Strict: nothing precedes itself.
   */
  predicate Less(a: Num, b: Num)
    ensures Less(a, b) ==> a.Fin?
    ensures a.Fin? && b.NaN? ==> Less(a, b)
  {
    match a
    case NaN => false
    case Fin(p) => b.NaN? || p < b.v
  }

  lemma LessIsStrictTotalOrder(a: Num, b: Num, c: Num)
    ensures !Less(a, a)
    ensures Less(a, b) ==> !Less(b, a)
    ensures Less(a, b) && Less(b, c) ==> Less(a, c)
    ensures a == b || Less(a, b) || Less(b, a)
  {
  }

  /** Sorted ascending under Less with no value twice. */
  predicate StrictlyAscending(s: seq<Num>)
  {
    forall i, j :: 0 <= i < j < |s| ==> Less(s[i], s[j])
  }

  /** Two arrays have the same shape: as many rows, and rows of equal length. */
  predicate SameShape(a: Matrix, b: Matrix)
  {
    |a| == |b| && forall i :: 0 <= i < |a| ==> |a[i]| == |b[i]|
  }
}
