/** Order facts about sequences shared by the table views. */
module Seqs {

  /** `a` is obtained from `b` by deleting elements, keeping the order of the
      rest. */
  ghost predicate IsSubsequence<T>(a: seq<T>, b: seq<T>)
    decreases |b|
  {
    || |a| == 0
    || (|b| > 0 && ((a[0] == b[0] && IsSubsequence(a[1..], b[1..])) || IsSubsequence(a, b[1..])))
  }
}
