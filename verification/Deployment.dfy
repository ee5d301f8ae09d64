/**
 * What the three writers of a deployment record read and change: the record files, the chain, the
 * tables of fee services, and the single steps of a run. The scripts are
 * scripts/deploy/init-deployment-record.js, deploy-fee-router.js and deploy-bridge-liquidity.js.
 */
module Deployment {
  import opened Results
  import opened Sequences

  type Addr = nat

  const ZERO_ADDRESS: Addr := 0

  datatype Key = FeeRouter | BridgeRouter | LiquidityRouter

  datatype Service = Service(capBps: nat, kind: nat)

  datatype TableEntry = TableEntry(name: string, service: Service)

  const WRAPPED := 1
  const CONFIG_ONLY := 2

  const LAUNCH: seq<TableEntry> := [
    TableEntry("earn.lend", Service(250, WRAPPED)),
    TableEntry("polymarket.taker", Service(100, CONFIG_ONLY)),
    TableEntry("polymarket.maker", Service(50, CONFIG_ONLY)),
    TableEntry("stake.lido", Service(250, CONFIG_ONLY)),
    TableEntry("stake.polygon", Service(250, CONFIG_ONLY)),
    TableEntry("perps.hyperliquid.builder", Service(10, CONFIG_ONLY))
  ]

  const BRIDGE: seq<TableEntry> := [
    TableEntry("bridge.transfer", Service(250, CONFIG_ONLY)),
    TableEntry("liquidity.deposit", Service(250, CONFIG_ONLY))
  ]

  ghost predicate DistinctNames(t: seq<TableEntry>) {
    forall i, j | 0 <= i < j < |t| :: t[i].name != t[j].name
  }

  lemma TablesAreDistinct()
    ensures DistinctNames(LAUNCH) && DistinctNames(BRIDGE) && DistinctNames(LAUNCH + BRIDGE)
  {
    var t := LAUNCH + BRIDGE;
    assert t[0].name[0] == 'e' && t[6].name[0] == 'b' && t[7].name[0] == 'l';
    assert t[1].name[11] == 't' && t[2].name[11] == 'm' && t[1].name[1] == 'o' && t[5].name[1] == 'e';
    assert t[3].name[6] == 'l' && t[4].name[6] == 'p' && t[2].name[1] == 'o';
    assert t[1].name[0] == t[2].name[0] == t[5].name[0] == 'p' && t[3].name[0] == t[4].name[0] == 's';
  }

  ghost predicate Listed(name: string) {
    exists e :: e in LAUNCH + BRIDGE && e.name == name
  }

  // ---------------------------------------------------------------- scopes and records

  /** Whose estate a run saves for. Malformed is a TENANT_ID that saving refuses. */
  datatype Scope = Shared | Tenant(id: string) | Malformed

  predicate IsIdChar(c: char) {
    'a' <= c <= 'z' || '0' <= c <= '9' || c == '-'
  }

  predicate IsTenantId(text: string) {
    2 <= |text| <= 31 && 'a' <= text[0] <= 'z' && forall i | 0 <= i < |text| :: IsIdChar(text[i])
  }

  /** The pattern, piece by piece: a small letter, then 1 to 30 small letters, digits and hyphens. */
  lemma TenantIdExactly(text: string)
    ensures IsTenantId(text) <==>
            exists head: char, rest: string ::
              && text == [head] + rest && 'a' <= head <= 'z' && 1 <= |rest| <= 30
              && forall c | c in rest :: 'a' <= c <= 'z' || '0' <= c <= '9' || c == '-'
  {
    if text != "" {
      assert text == [text[0]] + text[1..];
      assert forall i | 0 < i < |text| :: text[i] == text[1..][i - 1] && text[i] in text[1..];
    }
  }

  /** The scope a trimmed TENANT_ID stands for; the default tenant is the shared estate. */
  function ScopeOf(text: string): Scope {
    if text == "" || text == "fairwins" then Shared else if IsTenantId(text) then Tenant(text) else Malformed
  }

  /** A record file. */
  datatype Record = Record(contracts: map<Key, Addr>, impls: map<Key, Addr>, treasury: Addr, deployer: Addr,
                           spokePool: Option<Addr>, positionManager: Option<Addr>)

  /** A proxy some run deployed, and the scope it ran in. */
  datatype Proxy = Proxy(scope: Scope, key: Key, address: Addr)

  /**
   * What outlives a run. `file` is the shared record, the one every run reads; `tenants` are the
   * records under deployments/tenants/. `log` is every proxy ever deployed, `sends` every
   * registration sent; `holds` are the routers the deployer administers, `slot` the implementation
   * behind each proxy, `points` the protocol address each router holds; addresses from `next` on are
   * unused.
   */
  datatype World = World(file: Option<Record>, tenants: map<string, Record>, code: set<Addr>, log: seq<Proxy>,
                         services: map<(Addr, string), Service>, sends: seq<(Addr, string)>,
                         holds: set<Addr>, slot: map<Addr, Addr>, points: map<Addr, Addr>,
                         via: map<Addr, Addr>, next: Addr)

  /** The record saved for a scope. */
  function Saved(w: World, s: Scope): Option<Record> {
    match s
    case Shared => w.file
    case Tenant(id) => if id in w.tenants then Some(w.tenants[id]) else None
    case Malformed => None
  }

  /** saveDeployment writes to the scope of the run, wherever the record was read from. */
  function Store(w: World, s: Scope, r: Record): World {
    match s
    case Shared => w.(file := Some(r))
    case Tenant(id) => w.(tenants := w.tenants[id := r])
    case Malformed => w
  }

  predicate Recorded(w: World, s: Scope, k: Key) {
    Saved(w, s).Some? && k in Saved(w, s).value.contracts
  }

  function Address(w: World, s: Scope, k: Key): Addr
    requires Recorded(w, s, k)
  {
    Saved(w, s).value.contracts[k]
  }

  /** How many proxies runs of a scope ever deployed for a key. */
  function Deploys(log: seq<Proxy>, s: Scope, k: Key): nat {
    if log == [] then 0
    else
      var last := log[|log| - 1];
      Deploys(log[..|log| - 1], s, k) + if last.scope == s && last.key == k then 1 else 0
  }

  lemma OneMore(log: seq<Proxy>, p: Proxy, s: Scope, k: Key)
    ensures Deploys(log + [p], s, k) == Deploys(log, s, k) + if p.scope == s && p.key == k then 1 else 0
  {
    assert (log + [p])[..|log|] == log;
  }

  /** A recorded address that nothing may replace: any off local networks, one that carries code on them. */
  predicate Protected(w: World, s: Scope, k: Key, local: bool) {
    Recorded(w, s, k) && (local ==> Address(w, s, k) in w.code)
  }

  /**
   * A saved record is kept: never reset, and its protected addresses stay and get no second proxy,
   * from a run of any scope where the shared record has them.
   */
  ghost predicate KeepsSaved(w: World, v: World, s: Scope, local: bool) {
    && (Saved(w, s).Some? ==> Saved(v, s).Some? && Saved(v, s).value.treasury == Saved(w, s).value.treasury)
    && forall k | Protected(w, s, k, local) ::
         && Recorded(v, s, k) && Address(v, s, k) == Address(w, s, k)
         && forall t | s == Shared || t == s :: Deploys(v.log, t, k) == Deploys(w.log, t, k)
  }

  /** Registrations are only added, and none was sent for a pair registered before, by whomever. */
  ghost predicate FreshSends(w: World, v: World) {
    w.sends <= v.sends && forall i | |w.sends| <= i < |v.sends| :: v.sends[i] !in w.services
  }

  ghost predicate KeepsChain(w: World, v: World) {
    && w.code <= v.code
    && (forall r | r in w.services :: r in v.services && v.services[r] == w.services[r])
    && FreshSends(w, v)
  }

  lemma KeepsChainTransitive(u: World, v: World, w: World)
    requires KeepsChain(u, v) && KeepsChain(v, w)
    ensures KeepsChain(u, w)
  {
    forall i | |u.sends| <= i < |w.sends|
      ensures w.sends[i] !in u.services
    {
      if i < |v.sends| {
        assert w.sends[i] == v.sends[i];
      }
    }
  }

  lemma KeepsSavedTransitive(u: World, v: World, w: World, s: Scope, local: bool)
    requires KeepsSaved(u, v, s, local) && KeepsSaved(v, w, s, local) && u.code <= v.code
    ensures KeepsSaved(u, w, s, local)
  {
    forall k | Protected(u, s, k, local)
      ensures Recorded(w, s, k) && Address(w, s, k) == Address(u, s, k)
      ensures forall t | s == Shared || t == s :: Deploys(w.log, t, k) == Deploys(u.log, t, k)
    {
      assert Protected(v, s, k, local);
    }
  }

  ghost predicate Bounded(r: Record, next: Addr) {
    forall k | k in r.contracts :: r.contracts[k] < next
  }

  /** What holds between runs. */
  ghost predicate Good(w: World) {
    && NoDup(w.sends)
    && (forall s | s in w.sends :: s in w.services && Listed(s.1))
    && (forall a | a in w.code :: a < w.next)
    && (forall s | s in w.services :: s.0 < w.next)
    && (w.file.Some? ==> Bounded(w.file.value, w.next))
    && (forall id | id in w.tenants :: Bounded(w.tenants[id], w.next))
    && ZERO_ADDRESS < w.next
  }

  /** Registrations sent to one router never exceed the two tables together. */
  lemma SendsBounded(w: World, router: Addr)
    requires Good(w)
    ensures |SendsTo(w.sends, router)| <= |LAUNCH| + |BRIDGE|
  {
    var t := LAUNCH + BRIDGE;
    var names := set i | 0 <= i < |t| :: t[i].name;
    SendsToFacts(w.sends, router);
    forall l | l in SendsTo(w.sends, router)
      ensures l in names
    {
      assert Listed(l);
    }
    NoDupFits(SendsTo(w.sends, router), names);
    NamesFit(t, names);
  }

  function SendsTo(sends: seq<(Addr, string)>, router: Addr): seq<string> {
    if sends == [] then []
    else (if sends[0].0 == router then [sends[0].1] else []) + SendsTo(sends[1..], router)
  }

  lemma {:induction false} SendsToFacts(sends: seq<(Addr, string)>, router: Addr)
    requires NoDup(sends)
    ensures NoDup(SendsTo(sends, router))
    ensures forall l | l in SendsTo(sends, router) :: (router, l) in sends
  {
    if sends != [] {
      assert NoDup(sends[1..]);
      SendsToFacts(sends[1..], router);
      assert sends[0] !in sends[1..];
    }
  }

  lemma {:induction false} NamesFit(t: seq<TableEntry>, names: set<string>)
    requires names == set i | 0 <= i < |t| :: t[i].name
    ensures |names| <= |t|
  {
    if t == [] {
      assert names == {};
    } else {
      var rest := set i | 0 <= i < |t[1..]| :: t[1..][i].name;
      NamesFit(t[1..], rest);
      forall l | l in names
        ensures l in rest + {t[0].name}
      {
        var i :| 0 <= i < |t| && t[i].name == l;
        assert i > 0 ==> t[1..][i - 1].name == l;
      }
      SubsetSize(names, rest + {t[0].name});
    }
  }

  // ---------------------------------------------------------------- the protocol address guard

  const BASE := 8453
  const BASE_FACTORY: Addr := 0x33128a8fC17869897dcE68Ed026d694621f6FDfD
  const BASE_POSITION_MANAGER: Addr := 0x03a520b32C04BF3bEEf7BEb72E919cf822Ed34f1

  datatype Protocols = Protocols(spokePool: Option<Addr>, hubPool: Option<Addr>, factory: Option<Addr>,
                                 positionManager: Option<Addr>)

  function Listing(o: Option<Addr>): seq<Addr> {
    if o.Some? then [o.value] else []
  }

  function Configured(p: Protocols): seq<Addr> {
    Listing(p.spokePool) + Listing(p.hubPool) + Listing(p.factory) + Listing(p.positionManager)
  }

  /** How the chain answers: an address may be unreachable, and factory() may revert. */
  datatype Probe = Probe(unreachable: set<Addr>, factoryOf: map<Addr, Addr>)

  datatype GuardFailure = RpcError(a: Addr) | NoBytecode(a: Addr) | WrongChain(a: Addr) | FactoryMismatch | NotAManager

  ghost predicate GuardHolds(chainId: nat, p: Protocols, code: set<Addr>, probe: Probe) {
    && (forall a | a in Configured(p) :: a !in probe.unreachable && a in code)
    && (chainId != BASE ==> p.factory != Some(BASE_FACTORY) && p.positionManager != Some(BASE_POSITION_MANAGER))
    && (p.factory.Some? && p.positionManager.Some? ==>
          && p.positionManager.value in probe.factoryOf
          && probe.factoryOf[p.positionManager.value] == p.factory.value)
  }

  /** Collects every failure before deciding. */
  method VerifyProtocolAddresses(chainId: nat, p: Protocols, code: set<Addr>, probe: Probe)
    returns (failures: seq<GuardFailure>)
    ensures failures == [] <==> GuardHolds(chainId, p, code, probe)
  {
    failures := [];
    var configured := Configured(p);
    if configured == [] {
      assert p.factory == None && p.positionManager == None;
      return;
    }
    for i := 0 to |configured|
      invariant failures == [] <==>
                forall j | 0 <= j < i :: configured[j] !in probe.unreachable && configured[j] in code
    {
      if configured[i] in probe.unreachable {
        failures := failures + [RpcError(configured[i])];
      } else if configured[i] !in code {
        failures := failures + [NoBytecode(configured[i])];
      }
    }
    if chainId != BASE {
      if p.factory == Some(BASE_FACTORY) {
        failures := failures + [WrongChain(BASE_FACTORY)];
      }
      if p.positionManager == Some(BASE_POSITION_MANAGER) {
        failures := failures + [WrongChain(BASE_POSITION_MANAGER)];
      }
    }
    if p.factory.Some? && p.positionManager.Some? {
      if p.positionManager.value !in probe.factoryOf {
        failures := failures + [NotAManager];
      } else if probe.factoryOf[p.positionManager.value] != p.factory.value {
        failures := failures + [FactoryMismatch];
      }
    }
  }

  predicate Reaches(a: Option<Addr>, code: set<Addr>, probe: Probe) {
    a.Some? ==> a.value in code && a.value !in probe.unreachable
  }

  lemma ListingReaches(o: Option<Addr>, code: set<Addr>, probe: Probe)
    ensures (forall a | a in Listing(o) :: a !in probe.unreachable && a in code) <==> Reaches(o, code, probe)
  {
    if o.Some? {
      assert o.value in Listing(o);
    }
  }

  lemma ConfiguredReach(p: Protocols, code: set<Addr>, probe: Probe)
    ensures (forall a | a in Configured(p) :: a !in probe.unreachable && a in code) <==>
            && Reaches(p.spokePool, code, probe) && Reaches(p.hubPool, code, probe)
            && Reaches(p.factory, code, probe) && Reaches(p.positionManager, code, probe)
  {
    ListingReaches(p.spokePool, code, probe);
    ListingReaches(p.hubPool, code, probe);
    ListingReaches(p.factory, code, probe);
    ListingReaches(p.positionManager, code, probe);
    assert forall a :: a in Configured(p) <==>
                         || a in Listing(p.spokePool) || a in Listing(p.hubPool)
                         || a in Listing(p.factory) || a in Listing(p.positionManager);
  }

  /** The guard, address by address; Base's own Uniswap addresses are refused on every chain but 8453. */
  lemma GuardExactly(chainId: nat, p: Protocols, code: set<Addr>, probe: Probe)
    ensures GuardHolds(chainId, p, code, probe) <==>
            && Reaches(p.spokePool, code, probe) && Reaches(p.hubPool, code, probe)
            && Reaches(p.factory, code, probe) && Reaches(p.positionManager, code, probe)
            && (chainId == 8453 || (p.factory != Some(0x33128a8fC17869897dcE68Ed026d694621f6FDfD)
                                    && p.positionManager != Some(0x03a520b32C04BF3bEEf7BEb72E919cf822Ed34f1)))
            && forall f, m | p.factory == Some(f) && p.positionManager == Some(m) ::
                 m in probe.factoryOf && probe.factoryOf[m] == f
  {
    ConfiguredReach(p, code, probe);
  }

  // ---------------------------------------------------------------- the steps

  /**
   * What a proxy is initialised with: the protocol address it points at, for a fee router its treasury;
   * and the fee router it charges through, which a fee router itself has none of.
   */
  datatype Target = Target(points: Addr, via: Addr)

  /** A fresh proxy for k, its implementation at the next address. */
  function Deployed(w: World, s: Scope, k: Key, target: Target): World {
    var a := w.next;
    w.(code := w.code + {a, a + 1}, log := w.log + [Proxy(s, k, a)], holds := w.holds + {a},
       slot := w.slot[a := a + 1], points := w.points[a := target.points],
       via := w.via[a := target.via], next := a + 2)
  }

  function Registered(w: World, router: Addr, e: TableEntry): World {
    w.(services := w.services[(router, e.name) := e.service], sends := w.sends + [(router, e.name)])
  }

  // ---------------------------------------------------------------- tables against the chain

  /** Every entry is live on the router with the table's cap and kind. */
  ghost predicate Live(w: World, router: Addr, t: seq<TableEntry>) {
    forall e | e in t :: (router, e.name) in w.services && w.services[(router, e.name)] == e.service
  }

  /** No entry is live with another cap or kind. */
  predicate Undrifted(w: World, router: Addr, t: seq<TableEntry>) {
    forall e | e in t && (router, e.name) in w.services :: w.services[(router, e.name)] == e.service
  }

  /** Drift is a registered entry whose cap or whose kind is not the table's. */
  lemma UndriftedExactly(w: World, router: Addr, t: seq<TableEntry>)
    ensures Undrifted(w, router, t) <==>
            !exists i | 0 <= i < |t| && (router, t[i].name) in w.services ::
               var there := w.services[(router, t[i].name)];
               there.capBps != t[i].service.capBps || there.kind != t[i].service.kind
  {
    if !Undrifted(w, router, t) {
      var e :| e in t && (router, e.name) in w.services && w.services[(router, e.name)] != e.service;
      var i :| 0 <= i < |t| && t[i] == e;
      assert (router, t[i].name) in w.services;
    }
  }

  /** Every entry is live, with whatever cap and kind. */
  ghost predicate AllPresent(w: World, router: Addr, t: seq<TableEntry>) {
    forall e | e in t :: (router, e.name) in w.services
  }

  /** The entries a router lacks, in the order of the table. */
  function Missing(w: World, router: Addr, t: seq<TableEntry>): (m: seq<TableEntry>)
    ensures |m| <= |t|
  {
    if t == [] then []
    else
      var e := t[|t| - 1];
      Missing(w, router, t[..|t| - 1]) + if (router, e.name) in w.services then [] else [e]
  }

  lemma MissingSnoc(w: World, router: Addr, t: seq<TableEntry>, e: TableEntry)
    ensures Missing(w, router, t + [e])
            == Missing(w, router, t) + if (router, e.name) in w.services then [] else [e]
  {
    assert (t + [e])[..|t|] == t;
  }

  lemma {:induction false} MissingMember(w: World, router: Addr, t: seq<TableEntry>, e: TableEntry)
    ensures e in Missing(w, router, t) <==> e in t && (router, e.name) !in w.services
  {
    if t != [] {
      MissingMember(w, router, t[..|t| - 1], e);
      assert t == t[..|t| - 1] + [t[|t| - 1]];
    }
  }

  /** Exactly the unregistered entries, and their names still differ. */
  lemma {:induction false} MissingFacts(w: World, router: Addr, t: seq<TableEntry>)
    requires DistinctNames(t)
    ensures DistinctNames(Missing(w, router, t))
    ensures forall e :: e in Missing(w, router, t) <==> e in t && (router, e.name) !in w.services
  {
    forall e
      ensures e in Missing(w, router, t) <==> e in t && (router, e.name) !in w.services
    {
      MissingMember(w, router, t, e);
    }
    if t != [] {
      var front, last := t[..|t| - 1], t[|t| - 1];
      MissingFacts(w, router, front);
      forall m | m in Missing(w, router, front)
        ensures m.name != last.name
      {
        var i :| 0 <= i < |front| && front[i] == m;
        assert t[i].name != t[|t| - 1].name;
      }
    }
  }

  lemma UndriftedSnoc(w: World, router: Addr, t: seq<TableEntry>, e: TableEntry)
    ensures Undrifted(w, router, t + [e]) <==>
            Undrifted(w, router, t) && ((router, e.name) in w.services ==> w.services[(router, e.name)] == e.service)
  {
    assert e in t + [e] && forall x | x in t :: x in t + [e];
  }

  /** The endpoint's answer is confirmed by the configuration or by the operator, and by all who speak. */
  predicate ChainIdSettled(reported: Option<nat>, declared: Option<nat>, expected: Option<nat>) {
    && reported.Some? && (declared.Some? || expected.Some?)
    && (declared.Some? ==> declared == reported) && (expected.Some? ==> expected == reported)
  }
}
