/**
 * One sensor value as the logger reads it from a CSV cell: a number, or a
 * missing cell that pandas loads as NaN. Every ordered comparison with NaN
 * is false, so `Above` and `Below` are false on a missing value.
 */
module Readings {

  datatype Reading = Num(value: real) | Missing

  /** `x > limit` in Python, NaN included. */
  predicate Above(x: Reading, limit: real)
  {
    x.Num? && x.value > limit
  }

  /** `x < limit` in Python, NaN included. */
  predicate Below(x: Reading, limit: real)
  {
    x.Num? && x.value < limit
  }

  /** `pd.isna(x)`. */
  predicate IsNa(x: Reading)
  {
    x.Missing?
  }

  /** A missing value is neither above nor below any limit. */
  lemma MissingComparesFalse(limit: real)
    ensures !Above(Missing, limit) && !Below(Missing, limit) && IsNa(Missing)
  {
  }
}
