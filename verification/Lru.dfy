/** The move-to-front policy of frontend/public/sw.js, and what a history of uses makes of it. */
module Lru {
  import opened Sequences

  function Without<T(==,!new)>(s: seq<T>, u: T): (r: seq<T>)
    ensures u !in r && forall v :: v in r <==> v in s && v != u
    ensures |r| <= |s|
  {
    if s == [] then []
    else if s[0] == u then Without(s[1..], u)
    else [s[0]] + Without(s[1..], u)
  }

  function Limit(max: int): (n: nat)
    ensures n >= 1
  {
    if max > 1 then max else 1
  }

  function Take<T>(s: seq<T>, n: nat): seq<T> {
    if n <= |s| then s[..n] else s
  }

  function Drop<T>(s: seq<T>, n: nat): seq<T> {
    if n <= |s| then s[n..] else []
  }

  datatype Touched<T> = Touched(index: seq<T>, evict: seq<T>)

  /** Move url to the head; what that pushes past the limit is evicted. */
  function Touch<T(==,!new)>(index: seq<T>, url: T, max: int): Touched<T> {
    var next := [url] + Without(index, url);
    Touched(Take(next, Limit(max)), Drop(next, Limit(max)))
  }

  /** The index after a history of uses, oldest first, from the empty index. */
  function Run<T(==,!new)>(uses: seq<T>, max: int): seq<T> {
    if uses == [] then []
    else Touch(Run(uses[..|uses| - 1], max), uses[|uses| - 1], max).index
  }

  // ---------------------------------------------------------------- the policy, declaratively

  /** When u was last used. */
  function LastUse<T(==,!new)>(uses: seq<T>, u: T): (k: nat)
    requires u in uses
    ensures k < |uses| && uses[k] == u && u !in uses[k + 1..]
  {
    if uses[|uses| - 1] == u then |uses| - 1
    else
      assert uses == uses[..|uses| - 1] + [uses[|uses| - 1]];
      var k := LastUse(uses[..|uses| - 1], u);
      assert uses[k + 1..] == uses[..|uses| - 1][k + 1..] + [uses[|uses| - 1]];
      k
  }

  /** d lists what was used, once each, most recently used first. */
  ghost predicate ByRecency<T(!new)>(d: seq<T>, uses: seq<T>) {
    && NoDup(d)
    && (forall u :: u in d <==> u in uses)
    && forall i, j | 0 <= i < j < |d| :: LastUse(uses, d[i]) > LastUse(uses, d[j])
  }

  function Recency<T(==,!new)>(uses: seq<T>): seq<T> {
    if uses == [] then []
    else [uses[|uses| - 1]] + Without(Recency(uses[..|uses| - 1]), uses[|uses| - 1])
  }

  // ---------------------------------------------------------------- lemmas about Without

  lemma {:induction false} WithoutKeepsOrder<T(!new)>(s: seq<T>, u: T, i: nat, j: nat)
    requires NoDup(s) && i < j < |Without(s, u)|
    ensures exists k, l :: 0 <= k < l < |s| && s[k] == Without(s, u)[i] && s[l] == Without(s, u)[j]
  {
    var t := s[1..];
    assert NoDup(t);
    if s[0] == u {
      WithoutKeepsOrder(t, u, i, j);
      var k, l :| 0 <= k < l < |t| && t[k] == Without(t, u)[i] && t[l] == Without(t, u)[j];
      assert s[k + 1] == t[k] && s[l + 1] == t[l];
    } else if i > 0 {
      WithoutKeepsOrder(t, u, i - 1, j - 1);
      var k, l :| 0 <= k < l < |t| && t[k] == Without(t, u)[i - 1] && t[l] == Without(t, u)[j - 1];
      assert s[k + 1] == t[k] && s[l + 1] == t[l];
    } else {
      assert Without(s, u)[j] == Without(t, u)[j - 1];
      assert Without(t, u)[j - 1] in Without(t, u);
      var l :| 0 <= l < |t| && t[l] == Without(t, u)[j - 1];
      assert s[0] == Without(s, u)[0] && s[l + 1] == t[l];
    }
  }

  lemma {:induction false} WithoutNoDup<T(!new)>(s: seq<T>, u: T)
    requires NoDup(s)
    ensures NoDup(Without(s, u))
  {
    if s != [] {
      assert NoDup(s[1..]);
      WithoutNoDup(s[1..], u);
      assert s[0] !in s[1..];
    }
  }

  lemma {:induction false} WithoutAbsent<T(!new)>(s: seq<T>, u: T)
    requires u !in s
    ensures Without(s, u) == s
  {
    if s != [] {
      WithoutAbsent(s[1..], u);
    }
  }

  /** Cutting one later and then removing keeps what removing and then cutting keeps. */
  lemma {:induction false} TakeWithout<T(!new)>(s: seq<T>, u: T, n: nat)
    requires NoDup(s)
    ensures Take(Without(Take(s, n + 1), u), n) == Take(Without(s, u), n)
  {
    if n + 1 <= |s| {
      var t := s[1..];
      assert NoDup(t) && s[0] !in t;
      assert s[..n + 1][1..] == t[..n];
      if s[0] == u {
        WithoutAbsent(t, u);
        WithoutAbsent(t[..n], u);
      } else if n > 0 {
        TakeWithout(t, u, n - 1);
        assert Take(t, n) == t[..n];
      }
    }
  }

  // ---------------------------------------------------------------- the policy is recency

  /** Recency of all uses but the last, and the last. */
  lemma SplitLast<T(!new)>(uses: seq<T>)
    requires uses != []
    ensures uses == uses[..|uses| - 1] + [uses[|uses| - 1]]
  {
  }

  lemma LastUseStep<T(!new)>(uses: seq<T>, v: T)
    requires uses != [] && v in uses[..|uses| - 1] && v != uses[|uses| - 1]
    ensures LastUse(uses, v) == LastUse(uses[..|uses| - 1], v) < |uses| - 1
  {
  }

  lemma {:induction false} RecencyMeaning<T(!new)>(uses: seq<T>)
    ensures ByRecency(Recency(uses), uses)
  {
    if uses != [] {
      var before, u := uses[..|uses| - 1], uses[|uses| - 1];
      SplitLast(uses);
      RecencyMeaning(before);
      WithoutNoDup(Recency(before), u);
      var w := Without(Recency(before), u);
      assert Recency(uses) == [u] + w;
      forall j | 0 <= j < |w|
        ensures LastUse(uses, w[j]) == LastUse(before, w[j]) < LastUse(uses, u)
      {
        assert w[j] in w;
        LastUseStep(uses, w[j]);
      }
      forall i, j | 0 <= i < j < |w|
        ensures LastUse(before, w[i]) > LastUse(before, w[j])
      {
        WithoutByRecency(Recency(before), before, u, i, j);
      }
    }
  }

  lemma WithoutByRecency<T(!new)>(d: seq<T>, uses: seq<T>, u: T, i: nat, j: nat)
    requires ByRecency(d, uses) && i < j < |Without(d, u)|
    ensures Without(d, u)[i] in uses && Without(d, u)[j] in uses
    ensures LastUse(uses, Without(d, u)[i]) > LastUse(uses, Without(d, u)[j])
  {
    WithoutKeepsOrder(d, u, i, j);
    var k, l :| 0 <= k < l < |d| && d[k] == Without(d, u)[i] && d[l] == Without(d, u)[j];
    assert LastUse(uses, d[k]) > LastUse(uses, d[l]);
  }

  /** There is only one list by recency. */
  lemma {:induction false} RecencyUnique<T(!new)>(d: seq<T>, e: seq<T>, uses: seq<T>)
    requires ByRecency(d, uses) && ByRecency(e, uses)
    ensures d == e
  {
    SameLength(d, e);
    SamePrefix(d, e, uses, |d|);
    assert d[..|d|] == d && e[..|e|] == e;
  }

  lemma SameLength<T(!new)>(d: seq<T>, e: seq<T>)
    requires NoDup(d) && NoDup(e) && forall u :: u in d <==> u in e
    ensures |d| == |e|
  {
    NoDupSize(d);
    NoDupSize(e);
    assert Elements(d) == Elements(e);
  }

  lemma {:induction false} SamePrefix<T(!new)>(d: seq<T>, e: seq<T>, uses: seq<T>, k: nat)
    requires ByRecency(d, uses) && ByRecency(e, uses) && k <= |d| == |e|
    ensures d[..k] == e[..k]
  {
    if k > 0 {
      SamePrefix(d, e, uses, k - 1);
      SamePlace(d, e, uses, k - 1);
      assert d[..k] == d[..k - 1] + [d[k - 1]] && e[..k] == e[..k - 1] + [e[k - 1]];
    }
  }

  lemma SamePlace<T(!new)>(d: seq<T>, e: seq<T>, uses: seq<T>, k: nat)
    requires ByRecency(d, uses) && ByRecency(e, uses) && k < |d| == |e| && d[..k] == e[..k]
    ensures d[k] == e[k]
  {
    var i := PlaceAtLeast(d, e, k);
    var j := PlaceAtLeast(e, d, k);
  }

  lemma PlaceAtLeast<T(!new)>(d: seq<T>, e: seq<T>, k: nat) returns (i: nat)
    requires NoDup(d) && k < |d| && k < |e| && d[..k] == e[..k] && d[k] in e
    ensures k <= i < |e| && e[i] == d[k]
  {
    i :| 0 <= i < |e| && e[i] == d[k];
  }

  /**
   * Refinement: whatever the history, the bounded index is the list by recency, cut at the limit.
   */
  lemma {:induction false} RunIsRecency<T(!new)>(uses: seq<T>, max: int)
    ensures Run(uses, max) == Take(Recency(uses), Limit(max))
  {
    if uses != [] {
      var before, u := uses[..|uses| - 1], uses[|uses| - 1];
      var n, d := Limit(max), Recency(before);
      RunIsRecency(before, max);
      RecencyMeaning(before);
      TakeWithout(d, u, n - 1);
      assert Take([u] + Without(Take(d, n), u), n) == [u] + Take(Without(Take(d, n), u), n - 1);
      assert Take([u] + Without(d, u), n) == [u] + Take(Without(d, u), n - 1);
    }
  }

  /** Inclusion: the index at a smaller ceiling is a prefix of the index at a larger one. */
  lemma SmallerIsPrefix<T(!new)>(uses: seq<T>, max: int, more: int)
    requires max <= more
    ensures Run(uses, max) <= Run(uses, more)
  {
    RunIsRecency(uses, max);
    RunIsRecency(uses, more);
  }

  /** Used after position `at` means last used after it. */
  lemma UsedAfter<T(!new)>(uses: seq<T>, v: T, at: nat)
    requires at < |uses|
    ensures v in uses[at + 1..] <==> v in uses && LastUse(uses, v) > at
  {
    if v in uses[at + 1..] {
      var l :| 0 <= l < |uses[at + 1..]| && uses[at + 1..][l] == v;
      assert uses[at + 1 + l] == v;
    }
    if v in uses && LastUse(uses, v) > at {
      assert uses[at + 1..][LastUse(uses, v) - at - 1] == v;
    }
  }

  /** What was used after u's last use is what stands before u in the list by recency. */
  lemma BeforeMeansLater<T(!new)>(d: seq<T>, uses: seq<T>, k: nat)
    requires ByRecency(d, uses) && k < |d|
    ensures d[k] in uses
    ensures Elements(d[..k]) == Elements(uses[LastUse(uses, d[k]) + 1..])
  {
    assert d[k] in d;
    var at := LastUse(uses, d[k]);
    forall v
      ensures v in d[..k] <==> v in uses[at + 1..]
    {
      UsedAfter(uses, v, at);
      BeforeExactly(d, uses, k, v);
    }
    SameElements(d[..k], uses[at + 1..]);
  }

  lemma SameElements<T(!new)>(s: seq<T>, t: seq<T>)
    requires forall v :: v in s <==> v in t
    ensures Elements(s) == Elements(t)
  {
  }

  lemma BeforeExactly<T(!new)>(d: seq<T>, uses: seq<T>, k: nat, v: T)
    requires ByRecency(d, uses) && k < |d| && d[k] in uses
    ensures v in d[..k] <==> v in uses && LastUse(uses, v) > LastUse(uses, d[k])
  {
    if v in d[..k] {
      var i :| 0 <= i < k && d[..k][i] == v;
      assert d[i] == v && d[i] in d;
    }
    if v in uses && LastUse(uses, v) > LastUse(uses, d[k]) {
      var i :| 0 <= i < |d| && d[i] == v;
      assert i < k;
      assert d[..k][i] == v;
    }
  }

  lemma TakeHas<T(!new)>(d: seq<T>, k: nat, n: nat)
    requires NoDup(d) && k < |d|
    ensures d[k] in Take(d, n) <==> k < n
  {
    if k < n <= |d| {
      assert Take(d, n)[k] == d[k];
    }
  }

  lemma Depth<T(!new)>(d: seq<T>, uses: seq<T>, u: T) returns (k: nat)
    requires ByRecency(d, uses) && u in uses
    ensures k < |d| && d[k] == u && k == |Elements(uses[LastUse(uses, u) + 1..])|
  {
    k :| 0 <= k < |d| && d[k] == u;
    BeforeMeansLater(d, uses, k);
    var front := d[..k];
    assert NoDup(front);
    NoDupSize(front);
  }

  /**
   * Stack distance: u is indexed exactly when it was used and fewer distinct URLs than the limit
   * have been used since.
   */
  lemma HitExactly<T(!new)>(uses: seq<T>, u: T, max: int)
    ensures u in Run(uses, max) <==>
            u in uses && |Elements(uses[LastUse(uses, u) + 1..])| < Limit(max)
  {
    var d := Recency(uses);
    RecencyMeaning(uses);
    RunIsRecency(uses, max);
    if u in uses {
      var k := Depth(d, uses, u);
      TakeHas(d, k, Limit(max));
    } else {
      assert forall v | v in Take(d, Limit(max)) :: v in d;
    }
  }
}
