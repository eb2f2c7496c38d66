/** Subsequences: what is left of a sequence after deleting some of its elements. */
module Sequences {

  /** `a` can be obtained from `b` by deleting elements: same order, nothing added. */
  predicate IsSubsequence<T(==)>(a: seq<T>, b: seq<T>)
    decreases |b|
  {
    if a == [] then true
    else if b == [] then false
    else if a[0] == b[0] then IsSubsequence(a[1..], b[1..])
    else IsSubsequence(a, b[1..])
  }

  /** Dropping the first element of `b` that `a` does not use keeps `a` a subsequence. */
  lemma {:induction false} SkipHeadKeepsSubsequence<T>(a: seq<T>, b: seq<T>)
    requires b != [] && IsSubsequence(a, b[1..])
    ensures IsSubsequence(a, b)
    decreases |b|, 0
  {
    if a != [] && a[0] == b[0] {
      SubsequenceOfTail(a, b[1..]);
    }
  }

  /** A subsequence of `b` without its head is still a subsequence of `b`'s tail when the heads agree. */
  lemma {:induction false} SubsequenceOfTail<T>(a: seq<T>, b: seq<T>)
    requires a != [] && IsSubsequence(a, b)
    ensures IsSubsequence(a[1..], b)
    decreases |b|, 1
  {
    if a[0] != b[0] {
      SubsequenceOfTail(a, b[1..]);
      SkipHeadKeepsSubsequence(a[1..], b);
    } else if a[1..] != [] {
      SkipHeadKeepsSubsequence(a[1..], b);
    }
  }
}
