/** Index lists, as the pipeline stages build them over a frame listing. */
module Indices {

  /** Strictly ascending indices. */
  predicate Increasing(idx: seq<nat>)
  {
    forall a, b | 0 <= a < b < |idx| :: idx[a] < idx[b]
  }
}
