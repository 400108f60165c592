/** The ordering a node reports for its output values: natural order, nulls first. */
module Comparators {
  import opened Wrappers

  /** Natural ordering of (boxed) doubles with `null` before every number, returning the
      sign of the comparison as Java comparators do. */
  function NullsFirstCompare(a: Option<real>, b: Option<real>): (r: int)
    ensures -1 <= r <= 1
    ensures r == 0 <==> a == b
    ensures a.None? && b.Some? ==> r < 0
    ensures a.Some? && b.None? ==> r > 0
    ensures a.Some? && b.Some? ==> (r < 0 <==> a.value < b.value)
  {
    match (a, b)
    case (None, None) => 0
    case (None, Some(_)) => -1
    case (Some(_), None) => 1
    case (Some(x), Some(y)) => if x < y then -1 else if x == y then 0 else 1
  }

  /** Swapping the arguments flips the sign. */
  lemma CompareAntisymmetric(a: Option<real>, b: Option<real>)
    ensures NullsFirstCompare(a, b) == -NullsFirstCompare(b, a)
  {
  }

  /** The ordering is transitive. */
  lemma CompareTransitive(a: Option<real>, b: Option<real>, c: Option<real>)
    requires NullsFirstCompare(a, b) <= 0 && NullsFirstCompare(b, c) <= 0
    ensures NullsFirstCompare(a, c) <= 0
  {
  }
}
