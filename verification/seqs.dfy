/** Optional values: JavaScript's `null`/`undefined` alternatives. */
module Options {

  datatype Option<+T> = None | Some(value: T)
}

/** Order-preserving subsequences, the shape of every `Array.prototype.filter` result. */
module Seqs {

  /** `a` can be obtained from `b` by deleting elements, without reordering. */
  predicate IsSubsequence<T(==)>(a: seq<T>, b: seq<T>)
    decreases |b|
  {
    || |a| == 0
    || (&& |b| > 0
        && ((a[0] == b[0] && IsSubsequence(a[1..], b[1..])) || IsSubsequence(a, b[1..])))
  }
}
