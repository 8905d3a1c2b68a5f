/** Facts about sequences shared by several components. */
module Sequences {
  lemma SliceOfSlice<T>(s: seq<T>, start: nat, end: nat, i: nat, j: nat)
    requires i <= j && start + j <= end <= |s|
    ensures s[start..end][i..j] == s[start + i..start + j]
  {
    var a, b := s[start..end][i..j], s[start + i..start + j];
    forall k | 0 <= k < |a|
      ensures a[k] == b[k]
    {
      assert a[k] == s[start..end][i + k];
    }
  }

  lemma Regroup<T>(before: seq<T>, a: seq<T>, b: seq<T>)
    ensures before + (a + b) == before + a + b
  {
  }

  predicate Distinct<T(==)>(s: seq<T>) {
    forall i, j :: 0 <= i < j < |s| ==> s[i] != s[j]
  }
}
