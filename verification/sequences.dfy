/** Order facts about sequences that the relay's fan-out is stated with. */
module Sequences {

  /**
   * `xs` can be obtained from `ys` by deleting elements, keeping the order of
   * the rest. Matching greedily against the front of `ys` is complete.
   */
  predicate IsSubsequence<T(==)>(xs: seq<T>, ys: seq<T>)
    decreases |ys|
  {
    if |xs| == 0 then true
    else if |ys| == 0 then false
    else if xs[0] == ys[0] then IsSubsequence(xs[1..], ys[1..])
    else IsSubsequence(xs, ys[1..])
  }

  /** No two positions of `xs` hold the same element. */
  predicate Distinct<T(==)>(xs: seq<T>) {
    forall i, j :: 0 <= i < j < |xs| ==> xs[i] != xs[j]
  }
}
