/** Sequences without duplicates, why permuting keeps them so, and sequences of positions. */
module Distinctness {
  ghost predicate NoDuplicates<T>(s: seq<T>) {
    forall i, j :: 0 <= i < j < |s| ==> s[i] != s[j]
  }

  /** Positions below `n`. */
  predicate InRange(s: seq<nat>, n: nat) {
    forall k :: 0 <= k < |s| ==> s[k] < n
  }

  lemma JoinDistinct<T>(a: seq<T>, b: seq<T>)
    requires NoDuplicates(a) && NoDuplicates(b) && forall x :: x in a ==> x !in b
    ensures NoDuplicates(a + b)
  {
    assert forall i :: 0 <= i < |b| ==> b[i] in b;
  }

  lemma {:induction false} DistinctCounts<T>(s: seq<T>, x: T)
    requires NoDuplicates(s)
    ensures multiset(s)[x] == if x in s then 1 else 0
  {
    if s != [] {
      DistinctCounts(s[1..], x);
      assert s == [s[0]] + s[1..];
    }
  }

  lemma {:induction false} AtMostOneEach<T>(s: seq<T>)
    requires forall x :: x in s ==> multiset(s)[x] <= 1
    ensures NoDuplicates(s)
  {
    if s != [] {
      assert s == [s[0]] + s[1..];
      assert forall x :: x in s[1..] ==> x in s && multiset(s[1..])[x] <= multiset(s)[x];
      AtMostOneEach(s[1..]);
      assert multiset(s[1..])[s[0]] == 0;
      assert s[0] !in s[1..];
    }
  }

  lemma PermutationKeepsDistinct<T>(a: seq<T>, b: seq<T>)
    requires NoDuplicates(b) && multiset(a) == multiset(b)
    ensures NoDuplicates(a) && |a| == |b|
    ensures forall x :: x in a ==> x in b
    ensures forall x :: x in b ==> x in a
  {
    assert |multiset(a)| == |a| && |multiset(b)| == |b|;
    assert forall x :: x in a ==> x in multiset(a);
    assert forall x :: x in b ==> x in multiset(b);
    forall x | x in a
      ensures multiset(a)[x] <= 1
    {
      DistinctCounts(b, x);
    }
    AtMostOneEach(a);
  }
}
