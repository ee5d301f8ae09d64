/**
 * scripts/deploy/verify.js: a whole run, and what its exit code says about every recorded address.
 */
module VerifyExit {
  import opened Results
  import opened VerifyPlan
  import opened VerifyRun
  import opened VerifyVerdict

  // ---------------------------------------------------------------- from items back to the record

  lemma {:induction false} PresentMember(es: seq<Entry>, e: Entry)
    requires e in es && !e.value.Absent?
    ensures Present(es, e.id) >= 1
  {
    if es[|es| - 1] != e {
      assert e in es[..|es| - 1];
      PresentMember(es[..|es| - 1], e);
    }
  }

  lemma {:induction false} PresentWitness(es: seq<Entry>, id: Id) returns (e: Entry)
    requires Present(es, id) >= 1
    ensures e in es && e.id == id && !e.value.Absent?
  {
    e := es[|es| - 1];
    if e.id != id || e.value.Absent? {
      e := PresentWitness(es[..|es| - 1], id);
    }
  }

  lemma {:induction false} CountWitness(s: seq<Item>, id: Id) returns (it: Item)
    requires Count(s, id) >= 1
    ensures it in s && it.id == id
  {
    it := s[|s| - 1];
    if it.id != id {
      it := CountWitness(s[..|s| - 1], id);
    }
  }

  lemma {:induction false} LookupWitness(bag: seq<Entry>, key: string) returns (e: Entry)
    requires Lookup(bag, key).Address?
    ensures e in bag && e.id.key == key && e.value == Lookup(bag, key)
  {
    e := bag[0];
    if e.id.key != key {
      e := LookupWitness(bag[1..], key);
    }
  }

  lemma OneEntry(ctx: Ctx, e: Entry, e': Entry)
    requires WellFormed(ctx) && e in All(ctx) && e' in All(ctx) && e.id == e'.id
    ensures e == e'
  {
    assert e in ctx.contracts || e in ctx.mocks;
    assert e' in ctx.contracts || e' in ctx.mocks;
  }

  lemma {:induction false} PresentOnce(es: seq<Entry>, id: Id)
    requires forall i, j | 0 <= i < j < |es| :: es[i].id != es[j].id
    ensures Present(es, id) <= 1
  {
    if es != [] {
      var front, last := es[..|es| - 1], es[|es| - 1];
      PresentOnce(front, id);
      if last.id == id && Present(front, id) >= 1 {
        var e := PresentWitness(front, id);
      }
    }
  }

  /** A well-formed record gives every key at most one place in the plan. */
  lemma PlanDistinct(ctx: Ctx, p: Plan)
    requires WellFormed(ctx)
    requires forall id :: Total(p, id) == Present(All(ctx), id)
    ensures Distinct(p)
  {
    var es := All(ctx);
    forall i, j | 0 <= i < j < |es|
      ensures es[i].id != es[j].id
    {
      if i < |ctx.contracts| <= j {
        assert es[i] == ctx.contracts[i] && es[j] == ctx.mocks[j - |ctx.contracts|];
      } else if j < |ctx.contracts| {
        assert es[i] == ctx.contracts[i] && es[j] == ctx.contracts[j];
      } else {
        assert es[i] == ctx.mocks[i - |ctx.contracts|] && es[j] == ctx.mocks[j - |ctx.contracts|];
      }
    }
    forall id
      ensures Total(p, id) <= 1
    {
      PresentOnce(es, id);
    }
  }

  // ---------------------------------------------------------------- the plan as the run leaves it

  /** What holds of the plan before and after the bytecode pre-flight. */
  ghost predicate Sound(ctx: Ctx, p: Plan) {
    && (forall id :: Total(p, id) == Present(All(ctx), id))
    && Placed(ctx, All(ctx), p.(unverifiable := []))
  }

  lemma ClearedSound(ctx: Ctx, p: Plan, q: Plan, dead: set<Item>, reports: seq<Item>)
    requires Sound(ctx, p) && Cleared(p, q, dead, reports)
    ensures Sound(ctx, q)
  {
    forall y
      ensures y in Kept(p.verify, dead) ==> y in p.verify
      ensures y in Kept(p.proxies, dead) ==> y in p.proxies
    {
      KeptMember(p.verify, dead, y);
      KeptMember(p.proxies, dead, y);
    }
  }

  // ---------------------------------------------------------------- what exit code 0 means

  /** The explorer accepted this address and source, or had it, within the six attempts of this run. */
  ghost predicate Sourced(ctx: Ctx, e: Entry, results: seq<Outcome>, explorer: (Item, nat) -> Reply) {
    exists i | 0 <= i < |results| ::
      && Addressed(e, results[i].item) && BelongsVerify(ctx, e, results[i].item)
      && Succeeds(Replies(explorer, results[i].item))
  }

  ghost predicate ProxyExplained(ctx: Ctx, e: Entry, results: seq<Outcome>, explorer: (Item, nat) -> Reply) {
    && e.value.Address? && e.id.key in ctx.catalog && ctx.catalog[e.id.key].Proxy?
    && exists impl | impl in ctx.contracts ::
         && impl.id.key == ctx.catalog[e.id.key].implKey && impl.value.Address?
         && Sourced(ctx, impl, results, explorer)
  }

  ghost predicate Explained(ctx: Ctx, e: Entry, results: seq<Outcome>, explorer: (Item, nat) -> Reply) {
    || Sourced(ctx, e, results, explorer)
    || BelongsSkipped(ctx, e)
    || BelongsHistorical(ctx, e)
    || ProxyExplained(ctx, e, results, explorer)
  }

  /** Every proxy of the catalog names an implementation that is catalogued as our own source. */
  ghost predicate Closed(catalog: map<string, Known>) {
    forall k | k in catalog && catalog[k].Proxy? :: catalog[k].implKey in catalog && catalog[catalog[k].implKey].Ours?
  }

  ghost predicate CleanRun(plan: Plan, results: seq<Outcome>, explorer: (Item, nat) -> Reply) {
    && plan.unverifiable == []
    && ItemsOf(results) == plan.verify
    && forall i | 0 <= i < |results| :: Good(results[i].status) && Answered(false, explorer, results[i])
  }

  /** Where a present entry without a report is: in one of four buckets, as itself. */
  lemma Housed(ctx: Ctx, e: Entry, plan: Plan) returns (it: Item)
    requires WellFormed(ctx) && Sound(ctx, plan) && plan.unverifiable == []
    requires Recorded(ctx, e) && !e.value.Absent?
    ensures Addressed(e, it)
    ensures || (it in plan.verify && BelongsVerify(ctx, e, it))
            || (it in plan.proxies && BelongsProxy(ctx, e, it))
            || (it in plan.skipped && BelongsSkipped(ctx, e))
            || (it in plan.historical && BelongsHistorical(ctx, e))
  {
    PresentMember(All(ctx), e);
    assert Total(plan, e.id) >= 1;
    if Count(plan.verify, e.id) >= 1 {
      it := CountWitness(plan.verify, e.id);
      var e' :| e' in All(ctx) && Addressed(e', it) && BelongsVerify(ctx, e', it);
      OneEntry(ctx, e, e');
    } else if Count(plan.proxies, e.id) >= 1 {
      it := CountWitness(plan.proxies, e.id);
      var e' :| e' in All(ctx) && Addressed(e', it) && BelongsProxy(ctx, e', it);
      OneEntry(ctx, e, e');
    } else if Count(plan.skipped, e.id) >= 1 {
      it := CountWitness(plan.skipped, e.id);
      var e' :| e' in All(ctx) && Addressed(e', it) && BelongsSkipped(ctx, e');
      OneEntry(ctx, e, e');
    } else {
      it := CountWitness(plan.historical, e.id);
      var e' :| e' in All(ctx) && Addressed(e', it) && BelongsHistorical(ctx, e');
      OneEntry(ctx, e, e');
    }
  }

  /** An answered item has a good status exactly when one of its attempts succeeds. */
  lemma GoodSucceeds(explorer: (Item, nat) -> Reply, o: Outcome)
    requires Answered(false, explorer, o)
    ensures Good(o.status) <==> Succeeds(Replies(explorer, o.item))
  {
    SucceedsExactly(Replies(explorer, o.item), Got(o.status));
  }

  lemma VerifiedSourced(ctx: Ctx, e: Entry, it: Item, plan: Plan, results: seq<Outcome>, explorer: (Item, nat) -> Reply)
    requires CleanRun(plan, results, explorer)
    requires it in plan.verify && Addressed(e, it) && BelongsVerify(ctx, e, it)
    ensures Sourced(ctx, e, results, explorer)
  {
    var i :| 0 <= i < |plan.verify| && plan.verify[i] == it;
    assert results[i].item == it;
    GoodSucceeds(explorer, results[i]);
  }

  /** A clean run explains every recorded address; a proxy by its own implementation's source. */
  lemma CleanExplains(ctx: Ctx, e: Entry, plan: Plan, results: seq<Outcome>, explorer: (Item, nat) -> Reply)
    requires WellFormed(ctx) && Closed(ctx.catalog) && Sound(ctx, plan) && CleanRun(plan, results, explorer)
    requires Recorded(ctx, e) && !e.value.Absent?
    ensures Explained(ctx, e, results, explorer)
  {
    var it := Housed(ctx, e, plan);
    if it in plan.verify && BelongsVerify(ctx, e, it) {
      VerifiedSourced(ctx, e, it, plan, results, explorer);
    } else if it in plan.proxies && BelongsProxy(ctx, e, it) {
      var impl := LookupWitness(ctx.contracts, it.body.implKey);
      var it' := Housed(ctx, impl, plan);
      VerifiedSourced(ctx, impl, it', plan, results, explorer);
    }
  }

  // ---------------------------------------------------------------- the converse

  /** A reported item has a cause: its entry belongs there, or its address was read and had no code. */
  ghost predicate Caused(ctx: Ctx, e: Entry, it: Item, chain: Item -> CodeRead) {
    && Recorded(ctx, e) && !e.value.Absent? && Addressed(e, it)
    && (BelongsUnverifiable(ctx, e) || exists x | Moved(ctx, e, x) :: chain(x).Bare? && it == Report(x))
  }

  ghost predicate Moved(ctx: Ctx, e: Entry, x: Item) {
    Addressed(e, x) && (BelongsVerify(ctx, e, x) || BelongsProxy(ctx, e, x))
  }

  lemma Movable(ctx: Ctx, p: Plan, x: Item) returns (e: Entry)
    requires Placed(ctx, All(ctx), p) && (x in p.verify || x in p.proxies)
    ensures e in All(ctx) && Moved(ctx, e, x) && !e.value.Absent? && Addressed(e, Report(x))
  {
    if x in p.verify {
      e :| e in All(ctx) && Addressed(e, x) && BelongsVerify(ctx, e, x);
    } else {
      e :| e in All(ctx) && Addressed(e, x) && BelongsProxy(ctx, e, x);
    }
  }

  lemma {:induction false} ReportWitness(s: seq<Item>, chain: Item -> CodeRead, it: Item) returns (x: Item)
    requires it in Reports(s, chain)
    ensures x in s && chain(x).Bare? && it == Report(x)
  {
    x := s[|s| - 1];
    if !(chain(x).Bare? && it == Report(x)) {
      x := ReportWitness(s[..|s| - 1], chain, it);
    }
  }

  /**
   * No false alarm: whatever is reported as unverifiable after the pre-flight is the recorded address
   * of an entry that belongs there, or one that was submitted for and read without code.
   */
  lemma AlarmIsReal(ctx: Ctx, p: Plan, q: Plan, chain: Item -> CodeRead, it: Item) returns (e: Entry)
    requires Placed(ctx, All(ctx), p) && it in q.unverifiable
    requires Cleared(p, q, BareOf(p.verify + p.proxies, chain), Reports(p.verify + p.proxies, chain))
    ensures Caused(ctx, e, it, chain)
  {
    if it in p.unverifiable {
      e :| e in All(ctx) && Addressed(e, it) && BelongsUnverifiable(ctx, e);
    } else {
      var x := ReportWitness(p.verify + p.proxies, chain, it);
      e := Movable(ctx, p, x);
    }
  }

  /** A dry run's plan has nothing unverifiable exactly when no recorded value belongs there. */
  lemma DryExactly(ctx: Ctx, plan: Plan)
    requires WellFormed(ctx) && Sound(ctx, plan) && Placed(ctx, All(ctx), plan)
    ensures plan.unverifiable == [] <==> forall e | Recorded(ctx, e) && !e.value.Absent? :: !BelongsUnverifiable(ctx, e)
  {
    if plan.unverifiable == [] {
      forall e | Recorded(ctx, e) && !e.value.Absent?
        ensures !BelongsUnverifiable(ctx, e)
      {
        var it := Housed(ctx, e, plan);
      }
    } else {
      var it := plan.unverifiable[0];
      assert it in plan.unverifiable;
      var e :| e in All(ctx) && Addressed(e, it) && BelongsUnverifiable(ctx, e);
      assert !e.value.Absent?;
    }
  }

  /** An aborted run's summary leaves out at least the last proxy, although it counts it. */
  lemma LastProxy(plan: Plan, shown: seq<Item>)
    requires Distinct(plan) && |shown| < |plan.proxies| && shown <= plan.proxies
    ensures plan.proxies[|plan.proxies| - 1] !in shown
  {
    var last := |plan.proxies| - 1;
    assert Total(plan, plan.proxies[last].id) <= 1;
    FirstTime(plan.proxies, last);
    assert forall i | 0 <= i < |shown| :: shown[i] == plan.proxies[..last][i];
  }

  // ---------------------------------------------------------------- main

  /** `configured`: the explorer and its key are set; `known` and `sameNetwork` describe the chain's explorer. */
  datatype Preflight = Preflight(configured: bool, known: bool, sameNetwork: bool)

  /** Stopped is a thrown error, before any submission. */
  datatype Run =
    | Stopped
    | Run(code: nat, verdict: Verdict, plan: Plan, results: seq<Outcome>, proxyResults: seq<Outcome>, fatal: bool)

  predicate Refused(pre: Preflight, dry: bool) {
    !pre.configured && !(dry && pre.known && pre.sameNetwork)
  }

  predicate Empty(p: Plan) {
    |p.verify| + |p.proxies| + |p.skipped| + |p.unverifiable| + |p.historical| == 0
  }

  /** The plan is empty exactly when nothing recorded has a value. */
  lemma EmptyExactly(ctx: Ctx, p: Plan)
    requires forall id :: Total(p, id) == Present(All(ctx), id)
    ensures Empty(p) <==> forall e | Recorded(ctx, e) :: e.value.Absent?
  {
    if Empty(p) {
      forall e | Recorded(ctx, e)
        ensures e.value.Absent?
      {
        assert e in All(ctx) && Total(p, e.id) == 0;
        if !e.value.Absent? {
          PresentMember(All(ctx), e);
        }
      }
    } else {
      var it := AnyItem(p);
      assert Present(All(ctx), it.id) >= 1;
      var e := PresentWitness(All(ctx), it.id);
    }
  }

  lemma AnyItem(p: Plan) returns (it: Item)
    requires !Empty(p)
    ensures Total(p, it.id) >= 1
  {
    var s := if p.verify != [] then p.verify else if p.proxies != [] then p.proxies else
             if p.skipped != [] then p.skipped else if p.historical != [] then p.historical else p.unverifiable;
    it := s[0];
    CountMember(s, it);
  }

  /** The n-th source met the rejected key: all before it have an answer, what is listed behind has not. */
  ghost predicate StoppedAtSource(plan: Plan, results: seq<Outcome>, explorer: (Item, nat) -> Reply, n: nat) {
    && 0 < n <= |plan.verify| && ItemsOf(results) == Listed(plan.verify, n)
    && Concluded(Replies(explorer, plan.verify[n - 1]), KeyRejected)
    && (forall i | 0 <= i < n - 1 :: Answered(false, explorer, results[i]))
    && (forall i | n - 1 <= i < |results| :: results[i].status == NotAttempted)
  }

  /** All sources are answered; the proxy behind the listed ones met the rejected key. */
  ghost predicate StoppedAtProxy(plan: Plan, results: seq<Outcome>, proxyResults: seq<Outcome>,
                                 explorer: (Item, nat) -> Reply, linker: Item -> Reply)
  {
    && ItemsOf(results) == plan.verify && (forall i | 0 <= i < |results| :: Answered(false, explorer, results[i]))
    && |proxyResults| < |plan.proxies| && ItemsOf(proxyResults) == plan.proxies[..|proxyResults|]
    && BadKey(linker(plan.proxies[|proxyResults|]))
  }

  /** What an aborted run shows: sources as far as keys tell them apart, and never the last proxy. */
  ghost predicate CutShort(plan: Plan, results: seq<Outcome>, proxyResults: seq<Outcome>,
                           explorer: (Item, nat) -> Reply, linker: Item -> Reply)
  {
    && ((proxyResults == [] && exists n :: StoppedAtSource(plan, results, explorer, n))
        || StoppedAtProxy(plan, results, proxyResults, explorer, linker))
    && (plan.proxies != [] ==> plan.proxies[|plan.proxies| - 1] !in ItemsOf(proxyResults))
  }

  method SubmitPlan(plan: Plan, dry: bool, submitProxies: bool, explorer: (Item, nat) -> Reply, linker: Item -> Reply)
    returns (results: seq<Outcome>, proxyResults: seq<Outcome>, fatal: bool)
    requires Distinct(plan)
    ensures !fatal ==> ItemsOf(results) == plan.verify && ItemsOf(proxyResults) == plan.proxies
    ensures !fatal ==> forall i | 0 <= i < |results| :: Answered(dry, explorer, results[i])
    ensures fatal ==> !dry && CutShort(plan, results, proxyResults, explorer, linker)
  {
    proxyResults := [];
    ghost var reached;
    results, fatal, reached := SubmitSources(plan.verify, dry, explorer);
    if !fatal {
      proxyResults, fatal := LinkProxies(plan.proxies, submitProxies, dry, linker);
    } else {
      assert StoppedAtSource(plan, results, explorer, reached + 1);
    }
    if fatal && plan.proxies != [] {
      LastProxy(plan, ItemsOf(proxyResults));
    }
  }

  /** What stops a run before any submission. */
  ghost predicate Stops(ctx: Ctx, pre: Preflight, dry: bool, chain: Item -> CodeRead) {
    || (!pre.configured && !(dry && pre.known && pre.sameNetwork))
    || (forall e | Recorded(ctx, e) :: e.value.Absent?)
    || (!dry && exists x | x in PlanOf(ctx).verify + PlanOf(ctx).proxies :: chain(x).Unreachable?)
  }

  /** The plan as it is submitted, after the pre-flight unless the run is dry. */
  ghost predicate Prepared(ctx: Ctx, dry: bool, chain: Item -> CodeRead, plan: Plan) {
    var toCheck := PlanOf(ctx).verify + PlanOf(ctx).proxies;
    && Sound(ctx, plan) && Distinct(plan)
    && (dry ==> plan == PlanOf(ctx))
    && (!dry ==> Cleared(PlanOf(ctx), plan, BareOf(toCheck, chain), Reports(toCheck, chain)))
    && (!dry ==> forall it | it in plan.unverifiable :: exists e :: Caused(ctx, e, it, chain))
  }

  method Prepare(ctx: Ctx, pre: Preflight, dry: bool, chain: Item -> CodeRead) returns (r: Option<Plan>)
    requires WellFormed(ctx)
    ensures r.None? <==> Stops(ctx, pre, dry, chain)
    ensures r.Some? ==> Prepared(ctx, dry, chain, r.value)
    ensures r.Some? && dry ==>
            (r.value.unverifiable == [] <==>
             forall e | Recorded(ctx, e) && !e.value.Absent? :: !BelongsUnverifiable(ctx, e))
  {
    if Refused(pre, dry) {
      return None;
    }
    var plan := BuildPlan(ctx);
    EmptyExactly(ctx, plan);
    if Empty(plan) {
      return None;
    }
    PlanDistinct(ctx, plan);
    DryExactly(ctx, plan);
    if dry {
      return Some(plan);
    }
    var cleared := CheckCode(plan, chain);
    if cleared.Some? {
      var toCheck := plan.verify + plan.proxies;
      ClearedSound(ctx, plan, cleared.value, BareOf(toCheck, chain), Reports(toCheck, chain));
      forall it | it in cleared.value.unverifiable
        ensures exists e :: Caused(ctx, e, it, chain)
      {
        var e := AlarmIsReal(ctx, plan, cleared.value, chain, it);
      }
    }
    r := cleared;
  }

  /** Exit code 0 of a run that submits, from its plan and results. */
  lemma CodeExactly(preflight: bool, plan: Plan, results: seq<Outcome>, explorer: (Item, nat) -> Reply)
    requires ItemsOf(results) == plan.verify
    requires forall i | 0 <= i < |results| :: Answered(false, explorer, results[i])
    ensures ExitCode(preflight, false, false, plan, results) == 0 <==>
            !preflight && plan.unverifiable == [] && forall it | it in plan.verify :: Succeeds(Replies(explorer, it))
  {
    ExitExactly(preflight, false, plan, results, explorer);
    forall i | 0 <= i < |results|
      ensures Good(results[i].status) <==> Succeeds(Replies(explorer, plan.verify[i]))
    {
      GoodSucceeds(explorer, results[i]);
    }
  }

  /**
   * A whole run. Exit code 0 of a run that submits: no key was rejected, nothing is unverifiable, and for
   * every source some attempt of its six was accepted or met code already verified.
   */
  method VerifyRecord(ctx: Ctx, pre: Preflight, dry: bool, submitProxies: bool, chain: Item -> CodeRead,
                      explorer: (Item, nat) -> Reply, linker: Item -> Reply) returns (r: Run)
    requires WellFormed(ctx)
    ensures r.Stopped? <==> Stops(ctx, pre, dry, chain)
    ensures r.Run? ==> Prepared(ctx, dry, chain, r.plan)
    ensures r.Run? ==> (r.code == 0 || r.code == 1) && (r.code == 1 <==> Failing(r.verdict))
    ensures r.Run? && !r.fatal ==> ItemsOf(r.results) == r.plan.verify && ItemsOf(r.proxyResults) == r.plan.proxies
    ensures r.Run? && !r.fatal ==> forall i | 0 <= i < |r.results| :: Answered(dry, explorer, r.results[i])
    ensures r.Run? && r.fatal ==> r.code == 1
    ensures r.Run? && r.fatal ==> !dry && CutShort(r.plan, r.results, r.proxyResults, explorer, linker)
    ensures r.Run? && dry ==>
            (r.code == 0 <==>
             && pre.configured
             && forall e | Recorded(ctx, e) && !e.value.Absent? :: !BelongsUnverifiable(ctx, e))
    ensures r.Run? && !dry ==>
            (r.code == 0 <==>
             && !r.fatal && r.plan.unverifiable == []
             && forall it | it in r.plan.verify :: Succeeds(Replies(explorer, it)))
    ensures r.Run? && !dry && r.code == 0 && Closed(ctx.catalog) ==>
            forall e | Recorded(ctx, e) && !e.value.Absent? :: Explained(ctx, e, r.results, explorer)
  {
    var prepared := Prepare(ctx, pre, dry, chain);
    if prepared.None? {
      return Stopped;
    }
    var plan := prepared.value;
    var results, proxyResults, fatal := SubmitPlan(plan, dry, submitProxies, explorer, linker);
    var code := ExitCode(!pre.configured, fatal, dry, plan, results);
    ExitMatchesVerdict(!pre.configured, fatal, dry, plan, results);
    if !dry && !fatal {
      CodeExactly(!pre.configured, plan, results, explorer);
      if code == 0 && Closed(ctx.catalog) {
        AllExplained(ctx, plan, results, explorer);
      }
    }
    r := Run(code, VerdictOf(!pre.configured, fatal, dry, plan, results), plan, results, proxyResults, fatal);
  }

  lemma AllExplained(ctx: Ctx, plan: Plan, results: seq<Outcome>, explorer: (Item, nat) -> Reply)
    requires WellFormed(ctx) && Closed(ctx.catalog) && Sound(ctx, plan)
    requires ItemsOf(results) == plan.verify && plan.unverifiable == []
    requires forall i | 0 <= i < |results| :: Answered(false, explorer, results[i])
    requires forall it | it in plan.verify :: Succeeds(Replies(explorer, it))
    ensures forall e | Recorded(ctx, e) && !e.value.Absent? :: Explained(ctx, e, results, explorer)
  {
    forall i | 0 <= i < |results|
      ensures Good(results[i].status)
    {
      assert plan.verify[i] in plan.verify;
      GoodSucceeds(explorer, results[i]);
    }
    forall e | Recorded(ctx, e) && !e.value.Absent?
      ensures Explained(ctx, e, results, explorer)
    {
      CleanExplains(ctx, e, plan, results, explorer);
    }
  }
}
