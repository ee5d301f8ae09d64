/**
 * scripts/deploy/verify.js: the submissions, the summary's verdict and the exit code.
 */
module VerifyVerdict {
  import opened VerifyPlan
  import opened VerifyRun

  datatype Outcome = Outcome(item: Item, status: Status)

  function ItemsOf(os: seq<Outcome>): (s: seq<Item>)
    ensures |s| == |os| && forall i | 0 <= i < |os| :: s[i] == os[i].item
  {
    seq(|os|, i requires 0 <= i < |os| => os[i].item)
  }

  /** The explorer's replies to one item, by attempt. */
  function Replies(explorer: (Item, nat) -> Reply, it: Item): nat -> Reply {
    (a: nat) => explorer(it, a)
  }

  predicate Good(s: Status) {
    s.Verified? || s.AlreadyVerified?
  }

  // ---------------------------------------------------------------- sources

  function KeysOf(s: seq<Item>): (ks: set<string>)
    ensures forall k :: k in ks <==> exists i | 0 <= i < |s| :: s[i].id.key == k
  {
    set i | 0 <= i < |s| :: s[i].id.key
  }

  /** plan.verify.filter((i) => !done.has(i.key)) */
  function Unreached(s: seq<Item>, done: set<string>): (r: seq<Item>)
    ensures |r| <= |s|
    ensures |r| == |s| <==> forall i | 0 <= i < |s| :: s[i].id.key !in done
    ensures |r| == |s| ==> r == s
  {
    if s == [] then []
    else Unreached(s[..|s| - 1], done) + if s[|s| - 1].id.key !in done then [s[|s| - 1]] else []
  }

  lemma {:induction false} UnreachedConcat(s: seq<Item>, t: seq<Item>, done: set<string>)
    ensures Unreached(s + t, done) == Unreached(s, done) + Unreached(t, done)
  {
    if t == [] {
      assert s + t == s;
    } else {
      assert (s + t)[..|s + t| - 1] == s + t[..|t| - 1];
      UnreachedConcat(s, t[..|t| - 1], done);
    }
  }

  lemma {:induction false} UnreachedNone(s: seq<Item>, done: set<string>)
    requires forall i | 0 <= i < |s| :: s[i].id.key in done
    ensures Unreached(s, done) == []
  {
    if s != [] {
      UnreachedNone(s[..|s| - 1], done);
    }
  }

  /** No key is both among the first `n` items and behind them. */
  ghost predicate Apart(s: seq<Item>, n: nat)
    requires n <= |s|
  {
    forall i, j | 0 <= i < n <= j < |s| :: s[i].id.key != s[j].id.key
  }

  /** The items an aborted run lists: those it got to, and those whose key it has no result for. */
  function Listed(s: seq<Item>, n: nat): seq<Item>
    requires n <= |s|
  {
    s[..n] + Unreached(s, KeysOf(s[..n]))
  }

  lemma ListedTail(s: seq<Item>, n: nat, t: seq<Item>, done: set<string>)
    requires n <= |s| && t == s[n..] && done == KeysOf(s[..n])
    ensures Listed(s, n) == s[..n] + Unreached(t, done)
  {
    var front := s[..n];
    assert Unreached(s, done) == Unreached(t, done) by {
      assert s == front + t;
      UnreachedConcat(front, t, done);
      UnreachedNone(front, done);
    }
  }

  lemma ApartTail(s: seq<Item>, n: nat, t: seq<Item>, done: set<string>)
    requires n <= |s| && t == s[n..] && done == KeysOf(s[..n])
    ensures Apart(s, n) <==> forall j | 0 <= j < |t| :: t[j].id.key !in done
  {
    assert forall j | 0 <= j < |t| :: t[j] == s[n + j];
    assert forall i | 0 <= i < n :: s[..n][i] == s[i];
    if Apart(s, n) {
      forall j | 0 <= j < |t|
        ensures t[j].id.key !in done
      {
        assert t[j] == s[n + j];
      }
    } else {
      var i, j :| 0 <= i < n <= j < |s| && s[i].id.key == s[j].id.key;
      assert s[..n][i].id.key in done && t[j - n] == s[j];
    }
  }

  /**
   * An aborted run lists every item exactly once if, and only if, no key occurs on both sides of the
   * abort; a key recorded under `contracts` and under `mocks` can.
   */
  lemma ListedExactly(s: seq<Item>, n: nat)
    requires n <= |s|
    ensures Listed(s, n) == s <==> Apart(s, n)
  {
    var t, done := s[n..], KeysOf(s[..n]);
    ListedTail(s, n, t, done);
    ApartTail(s, n, t, done);
    assert s == s[..n] + t;
    assert |Listed(s, n)| == n + |Unreached(t, done)|;
  }

  /** What a result says, when the run got as far as asking about the item. */
  ghost predicate Answered(dry: bool, explorer: (Item, nat) -> Reply, o: Outcome) {
    if dry then o.status == Planned
    else o.status in {Verified, AlreadyVerified, Failed} && Concluded(Replies(explorer, o.item), Got(o.status))
  }

  /** Every item gets one result in order; when the key is rejected, the rest is listed as not attempted. */
  method SubmitSources(s: seq<Item>, dry: bool, explorer: (Item, nat) -> Reply)
    returns (os: seq<Outcome>, fatal: bool, ghost reached: nat)
    ensures !fatal ==> ItemsOf(os) == s && forall i | 0 <= i < |os| :: Answered(dry, explorer, os[i])
    ensures fatal ==> !dry && reached < |s| && Concluded(Replies(explorer, s[reached]), KeyRejected)
    ensures fatal ==> ItemsOf(os) == Listed(s, reached + 1)
    ensures fatal ==> forall i | 0 <= i < reached :: Answered(dry, explorer, os[i])
    ensures fatal ==> forall i | reached <= i < |os| :: os[i].status == NotAttempted
  {
    os, fatal, reached := [], false, 0;
    for i := 0 to |s|
      invariant reached == i == |os| && !fatal
      invariant ItemsOf(os) == s[..i]
      invariant forall k | 0 <= k < i :: Answered(dry, explorer, os[k])
    {
      var a := Got(Planned);
      if !dry {
        a := VerifyOne(Replies(explorer, s[i]));
      }
      match a {
        case Got(status) =>
          os := os + [Outcome(s[i], status)];
          reached := i + 1;
        case KeyRejected =>
          os := os + [Outcome(s[i], NotAttempted)];
          fatal := true;
          break;
      }
    }
    if fatal {
      os := ListRest(s, os, reached);
    }
  }

  method ListRest(s: seq<Item>, os: seq<Outcome>, ghost reached: nat) returns (all: seq<Outcome>)
    requires reached < |s| && ItemsOf(os) == s[..reached + 1] && os[reached].status == NotAttempted
    ensures ItemsOf(all) == Listed(s, reached + 1)
    ensures |os| <= |all| && all[..|os|] == os
    ensures forall i | reached <= i < |all| :: all[i].status == NotAttempted
  {
    var done := KeysOf(ItemsOf(os));
    var rest := Unreached(s, done);
    all := os;
    for j := 0 to |rest|
      invariant |all| == |os| + j && all[..|os|] == os
      invariant forall i | 0 <= i < j :: all[|os| + i] == Outcome(rest[i], NotAttempted)
    {
      all := all + [Outcome(rest[j], NotAttempted)];
    }
  }

  // ---------------------------------------------------------------- proxies

  /** A rejection for the key, and not because it was there already. */
  ghost predicate BadKey(r: Reply) {
    r.Rejected? && !r.already && r.badKey
  }

  /** Linking is one attempt, and only a rejected key stops it; what comes after the stop has no line. */
  method LinkProxies(s: seq<Item>, submit: bool, dry: bool, linker: Item -> Reply)
    returns (os: seq<Outcome>, fatal: bool)
    ensures !fatal ==> ItemsOf(os) == s
    ensures fatal ==> submit && !dry && |os| < |s| && ItemsOf(os) == s[..|os|] && BadKey(linker(s[|os|]))
    ensures forall i | 0 <= i < |os| :: os[i].status ==
              if !submit then NotSubmitted else if dry then Planned
              else if linker(os[i].item).Accepted? then Verified
              else if linker(os[i].item).already then AlreadyVerified else Manual
  {
    os, fatal := [], false;
    for i := 0 to |s|
      invariant |os| == i && ItemsOf(os) == s[..i]
      invariant forall k | 0 <= k < i :: os[k].status ==
                  if !submit then NotSubmitted else if dry then Planned
                  else if linker(os[k].item).Accepted? then Verified
                  else if linker(os[k].item).already then AlreadyVerified else Manual
    {
      var status := NotSubmitted;
      if submit {
        var r := linker(s[i]);
        if dry {
          status := Planned;
        } else if r.Accepted? {
          status := Verified;
        } else if r.already {
          status := AlreadyVerified;
        } else if r.badKey {
          return os, true;
        } else {
          status := Manual;
        }
      }
      os := os + [Outcome(s[i], status)];
    }
  }

  // ---------------------------------------------------------------- the verdict and the exit code

  function CountIf(os: seq<Outcome>, f: Status -> bool): (n: nat)
    ensures n <= |os|
    ensures n == 0 <==> forall i | 0 <= i < |os| :: !f(os[i].status)
  {
    if os == [] then 0 else CountIf(os[..|os| - 1], f) + if f(os[|os| - 1].status) then 1 else 0
  }

  lemma {:induction false} CountEither(os: seq<Outcome>, f: Status -> bool, g: Status -> bool, h: Status -> bool)
    requires forall x :: h(x) <==> f(x) || g(x)
    requires forall x :: !(f(x) && g(x))
    ensures CountIf(os, h) == CountIf(os, f) + CountIf(os, g)
  {
    if os != [] {
      CountEither(os[..|os| - 1], f, g, h);
    }
  }

  datatype Verdict =
    | FailedPreflight
    | FailedAborted
    | FailedProblems
    | FailedEmpty
    | NothingSubmitted
    | Fine(historical: nat)

  predicate Failing(v: Verdict) {
    !v.NothingSubmitted? && !v.Fine?
  }

  /** printSummary's verdict, from separate counts of each status. */
  function VerdictOf(preflight: bool, fatal: bool, dry: bool, plan: Plan, results: seq<Outcome>): Verdict {
    var failed := CountIf(results, (x: Status) => x.Failed?);
    var notAttempted := CountIf(results, (x: Status) => x.NotAttempted?);
    var verified := CountIf(results, (x: Status) => x.Verified?);
    var already := CountIf(results, (x: Status) => x.AlreadyVerified?);
    if preflight then FailedPreflight
    else if fatal then FailedAborted
    else if failed + notAttempted + |plan.unverifiable| > 0 then FailedProblems
    else if dry then NothingSubmitted
    else if verified + already == 0 && |plan.verify| > 0 then FailedEmpty
    else Fine(|plan.historical|)
  }

  /** main's exit code. */
  function ExitCode(preflight: bool, fatal: bool, dry: bool, plan: Plan, results: seq<Outcome>): nat {
    var implVerified := CountIf(results, (x: Status) => x.Verified? || x.AlreadyVerified?);
    var failures := CountIf(results, (x: Status) => x.Failed? || x.NotAttempted?) + |plan.unverifiable|;
    if preflight then 1
    else if fatal then 1
    else if failures > 0 then 1
    else if !dry && implVerified == 0 && |plan.verify| > 0 then 1
    else 0
  }

  /** The exit code never contradicts the printed verdict. */
  lemma ExitMatchesVerdict(preflight: bool, fatal: bool, dry: bool, plan: Plan, results: seq<Outcome>)
    ensures ExitCode(preflight, fatal, dry, plan, results) == 1 <==>
            Failing(VerdictOf(preflight, fatal, dry, plan, results))
  {
    CountEither(results, (x: Status) => x.Verified?, (x: Status) => x.AlreadyVerified?,
                (x: Status) => x.Verified? || x.AlreadyVerified?);
    CountEither(results, (x: Status) => x.Failed?, (x: Status) => x.NotAttempted?,
                (x: Status) => x.Failed? || x.NotAttempted?);
  }

  /** The guard against an empty success never decides: when it is reached, every source was verified. */
  lemma ExitExactly(preflight: bool, fatal: bool, plan: Plan, results: seq<Outcome>, explorer: (Item, nat) -> Reply)
    requires ItemsOf(results) == plan.verify
    requires forall i | 0 <= i < |results| :: Answered(false, explorer, results[i])
    ensures ExitCode(preflight, fatal, false, plan, results) == 0 <==>
            !preflight && !fatal && plan.unverifiable == [] && forall i | 0 <= i < |results| :: Good(results[i].status)
  {
    var bad := (x: Status) => x.Failed? || x.NotAttempted?;
    var good := (x: Status) => x.Verified? || x.AlreadyVerified?;
    assert forall i | 0 <= i < |results| :: Good(results[i].status) <==> !bad(results[i].status);
    if |results| > 0 && Good(results[0].status) {
      assert good(results[0].status);
    }
  }
}
