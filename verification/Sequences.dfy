/** Sequences without repetition, and how often something occurs in one. */
module Sequences {
  ghost predicate NoDup<T>(s: seq<T>) {
    forall i, j | 0 <= i < j < |s| :: s[i] != s[j]
  }

  function Elements<T(==,!new)>(s: seq<T>): set<T> {
    set u | u in s
  }

  lemma {:induction false} NoDupSize<T(!new)>(s: seq<T>)
    requires NoDup(s)
    ensures |Elements(s)| == |s|
  {
    if s != [] {
      NoDupSize(s[1..]);
      assert s[0] !in s[1..];
      assert Elements(s) == {s[0]} + Elements(s[1..]);
    }
  }

  /** A sequence without repetition is no longer than any set that holds its elements. */
  lemma NoDupFits<T(!new)>(s: seq<T>, all: set<T>)
    requires NoDup(s) && Elements(s) <= all
    ensures |s| <= |all|
  {
    NoDupSize(s);
    SubsetSize(Elements(s), all);
  }

  lemma SubsetSize<T>(a: set<T>, b: set<T>)
    requires a <= b
    ensures |a| <= |b|
  {
    assert b == a + (b - a);
  }
}
