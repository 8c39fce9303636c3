/** Order-preserving subsequences and pairwise properties of sequences. */
module Sequences {

  function Last<T>(s: seq<T>): T
    requires |s| > 0
  {
    s[|s| - 1]
  }

  function DropLast<T>(s: seq<T>): seq<T>
    requires |s| > 0
  {
    s[..|s| - 1]
  }

  /** xs is obtained from ys by deleting zero or more elements, keeping the order of the rest. */
  predicate IsSubsequence<T(==)>(xs: seq<T>, ys: seq<T>)
    decreases |ys|
  {
    if ys == [] then xs == []
    else
      IsSubsequence(xs, DropLast(ys))
      || (xs != [] && Last(xs) == Last(ys) && IsSubsequence(DropLast(xs), DropLast(ys)))
  }

  /** R holds of every pair of elements taken in sequence order. */
  ghost predicate Pairwise<T>(s: seq<T>, R: (T, T) -> bool)
  {
    forall i, j :: 0 <= i < j < |s| ==> R(s[i], s[j])
  }

  /** A subsequence is no longer than the sequence, and each of its elements occurs there. */
  lemma {:induction false} SubsequenceMembers<T>(xs: seq<T>, ys: seq<T>)
    requires IsSubsequence(xs, ys)
    ensures |xs| <= |ys|
    ensures forall k :: 0 <= k < |xs| ==> xs[k] in ys
    decreases |ys|
  {
    if ys != [] {
      if IsSubsequence(xs, DropLast(ys)) {
        SubsequenceMembers(xs, DropLast(ys));
        forall k | 0 <= k < |xs| ensures xs[k] in ys {
          var m :| 0 <= m < |DropLast(ys)| && DropLast(ys)[m] == xs[k];
          assert ys[m] == xs[k];
        }
      } else {
        SubsequenceMembers(DropLast(xs), DropLast(ys));
        forall k | 0 <= k < |xs| ensures xs[k] in ys {
          if k < |xs| - 1 {
            assert xs[k] == DropLast(xs)[k];
            var m :| 0 <= m < |DropLast(ys)| && DropLast(ys)[m] == xs[k];
            assert ys[m] == xs[k];
          } else {
            assert xs[k] == ys[|ys| - 1];
          }
        }
      }
    }
  }

  /** Every pairwise property of a sequence holds of each of its subsequences. */
  lemma {:induction false} SubsequencePairwise<T>(xs: seq<T>, ys: seq<T>, R: (T, T) -> bool)
    requires IsSubsequence(xs, ys)
    requires Pairwise(ys, R)
    ensures Pairwise(xs, R)
    decreases |ys|
  {
    if ys != [] {
      assert Pairwise(DropLast(ys), R) by {
        forall i, j | 0 <= i < j < |DropLast(ys)| ensures R(DropLast(ys)[i], DropLast(ys)[j]) {
          assert DropLast(ys)[i] == ys[i] && DropLast(ys)[j] == ys[j];
        }
      }
      if IsSubsequence(xs, DropLast(ys)) {
        SubsequencePairwise(xs, DropLast(ys), R);
      } else {
        SubsequencePairwise(DropLast(xs), DropLast(ys), R);
        SubsequenceMembers(DropLast(xs), DropLast(ys));
        forall i, j | 0 <= i < j < |xs| ensures R(xs[i], xs[j]) {
          assert xs[i] == DropLast(xs)[i];
          if j < |xs| - 1 {
            assert xs[j] == DropLast(xs)[j];
          } else {
            var m :| 0 <= m < |DropLast(ys)| && DropLast(ys)[m] == xs[i];
            assert ys[m] == xs[i] && ys[|ys| - 1] == xs[j];
          }
        }
      }
    }
  }
}
