/** Facts about permuted sequences. */
module Permutations {

  ghost predicate DistinctBy<T>(a: seq<T>, f: T -> string) {
    forall i, j :: 0 <= i < j < |a| ==> f(a[i]) != f(a[j])
  }

  lemma {:induction false} DistinctCount<T>(a: seq<T>, f: T -> string, x: T)
    requires DistinctBy(a, f)
    ensures multiset(a)[x] <= 1
  {
    if a != [] {
      var n := |a| - 1;
      DistinctCount(a[..n], f, x);
      assert a == a[..n] + [a[n]];
      assert forall i :: 0 <= i < n ==> f(a[..n][i]) != f(a[n]);
      assert a[n] !in multiset(a[..n]);
    }
  }

  lemma {:induction false} RepeatedCount<T>(b: seq<T>, i: nat, j: nat)
    requires i < j < |b| && b[i] == b[j]
    ensures multiset(b)[b[i]] >= 2
  {
    assert b == b[..j] + b[j..];
    assert b[..j][i] == b[i] && b[j..][0] == b[j];
    assert b[i] in multiset(b[..j]) && b[i] in multiset(b[j..]);
  }

  lemma {:induction false} PermutationKeepsDistinct<T>(a: seq<T>, b: seq<T>, f: T -> string)
    requires multiset(a) == multiset(b) && DistinctBy(a, f)
    ensures DistinctBy(b, f)
  {
    forall i, j | 0 <= i < j < |b| ensures f(b[i]) != f(b[j]) {
      assert b[i] in multiset(a) && b[j] in multiset(a);
      var p :| 0 <= p < |a| && a[p] == b[i];
      var q :| 0 <= q < |a| && a[q] == b[j];
      DistinctCount(a, f, b[i]);
      if b[i] == b[j] {
        RepeatedCount(b, i, j);
      }
    }
  }

  /** Removing one occurrence of an element that two permutations share leaves permutations. */
  lemma {:induction false} RemoveOne<T>(b: seq<T>, i: nat)
    requires i < |b|
    ensures multiset(b[..i] + b[i + 1..]) == multiset(b) - multiset{b[i]}
  {
    assert b == b[..i] + [b[i]] + b[i + 1..];
  }
}
