/**
 * scripts/deploy/verify.js: what one run does with its plan. Nothing recorded is lost on the way,
 * and exit code 0 means that every recorded address is accounted for.
 */
module VerifyRun {
  import opened Results
  import opened VerifyPlan

  // ---------------------------------------------------------------- one submission

  /** What the explorer task does: succeed, or throw a message that may match several patterns. */
  datatype Reply = Accepted | Rejected(already: bool, badKey: bool, transient: bool)

  datatype Status = Verified | AlreadyVerified | Planned | Failed | NotAttempted | NotSubmitted | Manual

  datatype Attempt = Got(status: Status) | KeyRejected

  const ATTEMPTS := 6

  /** A rejection worth another attempt: not already verified, not for the key, and passing. */
  predicate Retried(r: Reply) {
    r.Rejected? && !r.already && !r.badKey && r.transient
  }

  function Answer(r: Reply): Attempt {
    if r.Accepted? then Got(Verified)
    else if r.already then Got(AlreadyVerified)
    else if r.badKey then KeyRejected
    else Got(Failed)
  }

  /** The first attempt that is not worth repeating, or the last one. */
  ghost predicate Decides(replies: nat -> Reply, a: nat) {
    && 1 <= a <= ATTEMPTS
    && (forall b: nat | 1 <= b < a :: Retried(replies(b)))
    && (a < ATTEMPTS ==> !Retried(replies(a)))
  }

  /** The outcome is the answer to the attempt that decides. */
  ghost predicate Concluded(replies: nat -> Reply, o: Attempt) {
    exists a: nat :: Decides(replies, a) && o == Answer(replies(a))
  }

  lemma DecidesOnce(replies: nat -> Reply, a: nat, b: nat)
    requires Decides(replies, a) && Decides(replies, b)
    ensures a == b
  {
    assert !(a < b) && !(b < a);
  }

  /** What an outcome says of the deciding attempt, in the terms of the reply itself. */
  lemma ConcludedExactly(replies: nat -> Reply, a: nat)
    requires Decides(replies, a)
    ensures 1 <= a <= 6
    ensures forall b: nat | 1 <= b < a ::
              replies(b).Rejected? && !replies(b).already && !replies(b).badKey && replies(b).transient
    ensures Concluded(replies, Got(Verified)) <==> replies(a).Accepted?
    ensures Concluded(replies, Got(AlreadyVerified)) <==> replies(a).Rejected? && replies(a).already
    ensures Concluded(replies, KeyRejected) <==> replies(a).Rejected? && !replies(a).already && replies(a).badKey
    ensures Concluded(replies, Got(Failed)) <==> replies(a).Rejected? && !replies(a).already && !replies(a).badKey
  {
    forall o | Concluded(replies, o)
      ensures o == Answer(replies(a))
    {
      var b: nat :| Decides(replies, b) && o == Answer(replies(b));
      DecidesOnce(replies, a, b);
    }
    assert Concluded(replies, Answer(replies(a)));
  }

  /** Some attempt of the six was accepted or met code already verified, after rejections that were worth repeating. */
  ghost predicate Succeeds(replies: nat -> Reply) {
    exists a: nat | 1 <= a <= 6 ::
      && (replies(a).Accepted? || replies(a).already)
      && forall b: nat | 1 <= b < a ::
           replies(b).Rejected? && !replies(b).already && !replies(b).badKey && replies(b).transient
  }

  lemma SucceedsExactly(replies: nat -> Reply, o: Attempt)
    requires Concluded(replies, o)
    ensures Succeeds(replies) <==> o == Got(Verified) || o == Got(AlreadyVerified)
  {
    var a: nat :| Decides(replies, a) && o == Answer(replies(a));
    ConcludedExactly(replies, a);
    if Succeeds(replies) {
      var b: nat :| 1 <= b <= 6 && (replies(b).Accepted? || replies(b).already)
                    && forall c: nat | 1 <= c < b :: Retried(replies(c));
      assert Decides(replies, b);
      DecidesOnce(replies, a, b);
    }
  }

  lemma ConcludedOnce(replies: nat -> Reply, o: Attempt, o': Attempt)
    requires Concluded(replies, o) && Concluded(replies, o')
    ensures o == o'
  {
    var a: nat :| Decides(replies, a) && o == Answer(replies(a));
    var a': nat :| Decides(replies, a') && o' == Answer(replies(a'));
    DecidesOnce(replies, a, a');
  }

  /** verifyOne: the loop always ends inside its body, so the text after it is never reported. */
  method VerifyOne(replies: nat -> Reply) returns (o: Attempt)
    ensures Concluded(replies, o)
    ensures Succeeds(replies) <==> o == Got(Verified) || o == Got(AlreadyVerified)
    ensures o.Got? ==> o.status in {Verified, AlreadyVerified, Failed}
  {
    o := Attempts(replies);
    SucceedsExactly(replies, o);
  }

  method Attempts(replies: nat -> Reply) returns (o: Attempt)
    ensures Concluded(replies, o)
    ensures o.Got? ==> o.status in {Verified, AlreadyVerified, Failed}
  {
    for attempt := 1 to ATTEMPTS + 1
      invariant attempt <= ATTEMPTS
      invariant forall b: nat | 1 <= b < attempt :: Retried(replies(b))
    {
      var r := replies(attempt);
      assert Decides(replies, attempt) || (attempt < ATTEMPTS && Retried(r));
      if r.Accepted? {
        return Got(Verified);
      }
      if r.already {
        return Got(AlreadyVerified);
      }
      if r.badKey {
        return KeyRejected;
      }
      if attempt < ATTEMPTS && r.transient {
        continue;
      }
      return Got(Failed);
    }
    assert false;
  }

  // ---------------------------------------------------------------- the bytecode pre-flight

  datatype CodeRead = Unreachable | Bare | Carries

  ghost predicate Distinct(p: Plan) {
    forall id :: Total(p, id) <= 1
  }

  function Without(s: seq<Item>, x: Item): seq<Item> {
    if s == [] then [] else Without(s[..|s| - 1], x) + if s[|s| - 1] != x then [s[|s| - 1]] else []
  }

  lemma {:induction false} CountMember(s: seq<Item>, x: Item)
    requires x in s
    ensures Count(s, x.id) >= 1
  {
    if s[|s| - 1] != x {
      assert x in s[..|s| - 1];
      CountMember(s[..|s| - 1], x);
    }
  }

  /** Taking an item out of a list in which its key occurs once lowers just that key's count. */
  lemma {:induction false} WithoutCount(s: seq<Item>, x: Item, id: Id)
    requires Count(s, x.id) <= 1
    ensures Count(Without(s, x), id) == Count(s, id) - if x in s && x.id == id then 1 else 0
  {
    if s != [] {
      var front, last := s[..|s| - 1], s[|s| - 1];
      assert s == front + [last];
      WithoutCount(front, x, id);
      if last == x && x in front {
        CountMember(front, x);
        assert false;
      }
      if last != x {
        CountSnoc(Without(front, x), last, id);
      } else {
        assert Without(s, x) == Without(front, x);
      }
    }
  }

  function Report(item: Item): Item {
    Item(item.id, item.address, Noted)
  }

  /** One address without code leaves its bucket and is reported as unverifiable. */
  function Move(p: Plan, x: Item): Plan {
    p.(unverifiable := p.unverifiable + [Report(x)], verify := Without(p.verify, x), proxies := Without(p.proxies, x))
  }

  /** A move neither loses nor duplicates anything. */
  lemma MoveKeepsCounts(p: Plan, x: Item, id: Id)
    requires Total(p, x.id) <= 1 && (x in p.verify || x in p.proxies)
    ensures Total(Move(p, x), id) == Total(p, id)
  {
    CountSnoc(p.unverifiable, Report(x), id);
    WithoutCount(p.verify, x, id);
    WithoutCount(p.proxies, x, id);
    if x in p.verify {
      CountMember(p.verify, x);
    }
    if x in p.proxies {
      CountMember(p.proxies, x);
    }
  }

  function Kept(s: seq<Item>, dead: set<Item>): seq<Item> {
    if s == [] then [] else Kept(s[..|s| - 1], dead) + if s[|s| - 1] !in dead then [s[|s| - 1]] else []
  }

  lemma {:induction false} KeptMember(s: seq<Item>, dead: set<Item>, y: Item)
    ensures y in Kept(s, dead) <==> y in s && y !in dead
  {
    if s != [] {
      KeptMember(s[..|s| - 1], dead, y);
      assert s == s[..|s| - 1] + [s[|s| - 1]];
    }
  }

  lemma {:induction false} KeptAll(s: seq<Item>)
    ensures Kept(s, {}) == s
  {
    if s != [] {
      KeptAll(s[..|s| - 1]);
    }
  }

  lemma WithoutSnoc(s: seq<Item>, last: Item, x: Item)
    ensures Without(s + [last], x) == Without(s, x) + if last != x then [last] else []
  {
    assert (s + [last])[..|s|] == s;
  }

  lemma {:induction false} WithoutKept(s: seq<Item>, dead: set<Item>, x: Item)
    ensures Without(Kept(s, dead), x) == Kept(s, dead + {x})
  {
    if s != [] {
      var front, last := s[..|s| - 1], s[|s| - 1];
      WithoutKept(front, dead, x);
      if last !in dead {
        WithoutSnoc(Kept(front, dead), last, x);
      } else {
        assert Kept(s, dead) == Kept(front, dead);
      }
    }
  }

  lemma FirstTime(s: seq<Item>, k: nat)
    requires k < |s| && Count(s, s[k].id) <= 1
    ensures s[k] !in s[..k]
  {
    assert s == (s[..k] + [s[k]]) + s[k + 1..];
    CountSnoc(s[..k], s[k], s[k].id);
    CountConcat(s[..k] + [s[k]], s[k + 1..], s[k].id);
    if s[k] in s[..k] {
      CountMember(s[..k], s[k]);
    }
  }

  ghost function BareOf(s: seq<Item>, chain: Item -> CodeRead): set<Item> {
    set x | x in s && chain(x).Bare?
  }

  /** The reports for the items without code, in order. */
  function Reports(s: seq<Item>, chain: Item -> CodeRead): seq<Item> {
    if s == [] then []
    else Reports(s[..|s| - 1], chain) + if chain(s[|s| - 1]).Bare? then [Report(s[|s| - 1])] else []
  }

  /** `q` is `p` after the items in `dead` have moved, leaving `reports`. */
  ghost predicate Cleared(p: Plan, q: Plan, dead: set<Item>, reports: seq<Item>) {
    && q == Plan(Kept(p.verify, dead), Kept(p.proxies, dead), p.skipped, p.historical, p.unverifiable + reports)
    && forall id :: Total(q, id) == Total(p, id)
  }

  lemma ClearedStep(p: Plan, q: Plan, dead: set<Item>, reports: seq<Item>, x: Item)
    requires Distinct(p) && Cleared(p, q, dead, reports)
    requires x in p.verify + p.proxies && x !in dead
    ensures Cleared(p, Move(q, x), dead + {x}, reports + [Report(x)])
  {
    KeptMember(p.verify, dead, x);
    KeptMember(p.proxies, dead, x);
    forall id
      ensures Total(Move(q, x), id) == Total(p, id)
    {
      MoveKeepsCounts(q, x, id);
    }
    WithoutKept(p.verify, dead, x);
    WithoutKept(p.proxies, dead, x);
    assert q.unverifiable + [Report(x)] == p.unverifiable + (reports + [Report(x)]);
  }

  ghost predicate Readable(s: seq<Item>, chain: Item -> CodeRead) {
    forall x | x in s :: !chain(x).Unreachable?
  }

  lemma NextItem(s: seq<Item>, k: nat, chain: Item -> CodeRead)
    requires k < |s|
    ensures chain(s[k]).Bare? ==> BareOf(s[..k + 1], chain) == BareOf(s[..k], chain) + {s[k]}
    ensures chain(s[k]).Bare? ==> Reports(s[..k + 1], chain) == Reports(s[..k], chain) + [Report(s[k])]
    ensures !chain(s[k]).Bare? ==> BareOf(s[..k + 1], chain) == BareOf(s[..k], chain)
    ensures !chain(s[k]).Bare? ==> Reports(s[..k + 1], chain) == Reports(s[..k], chain)
    ensures Readable(s[..k + 1], chain) <==> Readable(s[..k], chain) && !chain(s[k]).Unreachable?
  {
    assert s[..k + 1] == s[..k] + [s[k]];
    assert s[..k + 1][..k] == s[..k];
    if !chain(s[k]).Bare? {
      assert BareOf(s[..k + 1], chain) == BareOf(s[..k], chain);
    }
  }

  lemma StillThere(p: Plan, k: nat, chain: Item -> CodeRead)
    requires Distinct(p) && k < |p.verify + p.proxies|
    ensures (p.verify + p.proxies)[k] !in BareOf((p.verify + p.proxies)[..k], chain)
  {
    var id := (p.verify + p.proxies)[k].id;
    CountConcat(p.verify, p.proxies, id);
    assert Total(p, id) <= 1;
    FirstTime(p.verify + p.proxies, k);
  }

  /**
   * The on-chain pre-flight stops at a dead endpoint. Otherwise exactly the items without code move
   * to the unverifiable ones, order is kept, and no key is lost or counted twice.
   */
  method CheckCode(p: Plan, chain: Item -> CodeRead) returns (r: Option<Plan>)
    requires Distinct(p)
    ensures r.None? <==> !Readable(p.verify + p.proxies, chain)
    ensures r.Some? ==> Cleared(p, r.value, BareOf(p.verify + p.proxies, chain), Reports(p.verify + p.proxies, chain))
  {
    var toCheck := p.verify + p.proxies;
    var cur := p;
    Untouched(p, toCheck, chain);
    for k := 0 to |toCheck|
      invariant Cleared(p, cur, BareOf(toCheck[..k], chain), Reports(toCheck[..k], chain))
      invariant Readable(toCheck[..k], chain)
    {
      var x := toCheck[k];
      NextItem(toCheck, k, chain);
      match chain(x) {
        case Unreachable =>
          return None;
        case Carries =>
        case Bare =>
          StillThere(p, k, chain);
          ClearedStep(p, cur, BareOf(toCheck[..k], chain), Reports(toCheck[..k], chain), x);
          cur := Move(cur, x);
      }
    }
    assert toCheck[..|toCheck|] == toCheck;
    r := Some(cur);
  }

  lemma Untouched(p: Plan, s: seq<Item>, chain: Item -> CodeRead)
    ensures Cleared(p, p, BareOf(s[..0], chain), Reports(s[..0], chain))
  {
    assert BareOf(s[..0], chain) == {};
    KeptAll(p.verify);
    KeptAll(p.proxies);
    assert p.unverifiable + Reports(s[..0], chain) == p.unverifiable;
  }
}
