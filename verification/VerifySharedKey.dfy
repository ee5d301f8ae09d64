/**
 * scripts/deploy/verify.js: a whole run over a record that has one key in two places. The summary of
 * an aborted run goes by key alone, and loses the second address.
 */
module VerifySharedKey {
  import opened Results
  import opened VerifyExit
  import opened VerifyPlan
  import opened VerifyRun
  import opened VerifyVerdict

  /** A record with one key under `contracts` and under `mocks`, catalogued as our source. */
  function TwoPlaces(key: string, a: string, b: string, rank: nat, fqn: string): Ctx {
    Ctx([Entry(Id(false, key), Address(a))], [Entry(Id(true, key), Address(b))],
        map[key := Ours(rank, Source(fqn, Some([])))], {fqn}, map[])
  }

  function PlaceOf(mock: bool, key: string, address: string, rank: nat, fqn: string): Item {
    Item(Id(mock, key), address, Submit(fqn, [], rank))
  }

  lemma TwoPlacesPlan(key: string, a: string, b: string, rank: nat, fqn: string)
    ensures var ctx := TwoPlaces(key, a, b, rank, fqn);
            && WellFormed(ctx)
            && PlanOf(ctx).verify == [PlaceOf(false, key, a, rank, fqn), PlaceOf(true, key, b, rank, fqn)]
            && PlanOf(ctx) == EMPTY.(verify := PlanOf(ctx).verify)
  {
    var ctx := TwoPlaces(key, a, b, rank, fqn);
    var first, second := PlaceOf(false, key, a, rank, fqn), PlaceOf(true, key, b, rank, fqn);
    var es := All(ctx);
    assert es == [es[0], es[1]] && es[..1] == [es[0]] && es[..1][..0] == [];
    assert Route(ctx, es[0]) == (ToVerify, first) && Route(ctx, es[1]) == (ToVerify, second);
    assert Gathered(ctx, es[..1]) == EMPTY.(verify := [first]);
    assert Gathered(ctx, es) == EMPTY.(verify := [first, second]);
    SortTwo(first, second);
  }

  lemma SortTwo(x: Item, y: Item)
    requires Rank(x) == Rank(y)
    ensures SortByRank([x, y]) == [x, y]
  {
    assert [x, y][..1] == [x] && [x][..0] == [];
    assert SortByRank([x]) == [x];
  }

  /** Nothing moves when every address carries code. */
  lemma AllCarry(p: Plan, q: Plan, s: seq<Item>, chain: Item -> CodeRead)
    requires (forall x | x in s :: chain(x).Carries?) && Cleared(p, q, BareOf(s, chain), Reports(s, chain))
    ensures q == p
  {
    assert BareOf(s, chain) == {};
    NoReports(s, chain);
    KeptAll(p.verify);
    KeptAll(p.proxies);
  }

  lemma {:induction false} NoReports(s: seq<Item>, chain: Item -> CodeRead)
    requires forall x | x in s :: chain(x).Carries?
    ensures Reports(s, chain) == []
  {
    if s != [] {
      NoReports(s[..|s| - 1], chain);
    }
  }

  ghost predicate RejectsAll(explorer: (Item, nat) -> Reply) {
    forall it, n :: explorer(it, n) == Rejected(false, true, false)
  }

  lemma NeverAnswered(explorer: (Item, nat) -> Reply, o: Outcome)
    requires RejectsAll(explorer)
    ensures !Answered(false, explorer, o)
  {
    var replies := Replies(explorer, o.item);
    forall x | Concluded(replies, x)
      ensures x == KeyRejected
    {
      var a: nat :| Decides(replies, a) && x == Answer(replies(a));
      assert replies(a) == explorer(o.item, a);
    }
  }

  /** With the key rejected from the start, a run stops at its first source and lists no other with that key. */
  lemma StopsAtFirst(plan: Plan, results: seq<Outcome>, explorer: (Item, nat) -> Reply, n: nat)
    requires RejectsAll(explorer) && StoppedAtSource(plan, results, explorer, n)
    requires |plan.verify| == 2 && plan.verify[0].id.key == plan.verify[1].id.key
    ensures ItemsOf(results) == [plan.verify[0]]
  {
    if n > 1 {
      NeverAnswered(explorer, results[0]);
    }
    var s := plan.verify;
    assert s[..1][0].id.key in KeysOf(s[..1]);
    UnreachedNone(s, KeysOf(s[..1]));
  }

  lemma Aborts(plan: Plan, results: seq<Outcome>, proxyResults: seq<Outcome>, fatal: bool,
               explorer: (Item, nat) -> Reply, linker: Item -> Reply)
    requires RejectsAll(explorer) && |plan.verify| == 2 && plan.verify[0].id.key == plan.verify[1].id.key
    requires fatal ==> CutShort(plan, results, proxyResults, explorer, linker)
    requires !fatal ==> ItemsOf(results) == plan.verify
    requires !fatal ==> forall i | 0 <= i < |results| :: Answered(false, explorer, results[i])
    ensures fatal && ItemsOf(results) == [plan.verify[0]] && proxyResults == []
  {
    if |results| > 0 {
      NeverAnswered(explorer, results[0]);
    }
    if fatal {
      assert !StoppedAtProxy(plan, results, proxyResults, explorer, linker);
      var n: nat :| StoppedAtSource(plan, results, explorer, n);
      StopsAtFirst(plan, results, explorer, n);
    }
  }

  /**
   * A whole run over such a record with a rejected API key: it was planned to submit both addresses,
   * and the second one is in no list of its summary.
   */
  method SharedKeyDropped(key: string, a: string, b: string, rank: nat, fqn: string) returns (r: Run)
    ensures var first, second := PlaceOf(false, key, a, rank, fqn), PlaceOf(true, key, b, rank, fqn);
            && r.Run? && r.fatal && r.code == 1 && r.plan == Plan([first, second], [], [], [], [])
            && ItemsOf(r.results) == [first] && r.proxyResults == []
  {
    var ctx := TwoPlaces(key, a, b, rank, fqn);
    TwoPlacesPlan(key, a, b, rank, fqn);
    var carries, rejects := (x: Item) => Carries, (x: Item, n: nat) => Rejected(false, true, false);
    var accepts := (x: Item) => Accepted;
    r := VerifyRecord(ctx, Preflight(true, true, true), false, false, carries, rejects, accepts);
    AllCarry(PlanOf(ctx), r.plan, PlanOf(ctx).verify + PlanOf(ctx).proxies, carries);
    Aborts(r.plan, r.results, r.proxyResults, r.fatal, rejects, accepts);
  }
}
