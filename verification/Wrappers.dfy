/** What several of the models use. */
module Wrappers {
  datatype Option<+T> = None | Some(value: T)

  /** No element is repeated. */
  ghost predicate Distinct(xs: seq<int>) {
    forall i, j :: 0 <= i < j < |xs| ==> xs[i] != xs[j]
  }
}
