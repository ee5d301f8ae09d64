/**
 * The three scripts as functions from the state a run finds to the state it leaves. A run has fuel
 * and spends one unit on each step that talks to the chain or writes a file; with the fuel gone the
 * next such step never happens. Any fuel is possible, so every run may stop between any two steps.
 */
module DeploymentRuns {
  import opened Deployment
  import opened Results

  /** The network a run is started on. */
  datatype Net = Net(local: bool, mainnet: bool, chainId: nat)

  /** A run under way: `record` is the object it read and changes in memory; it is over when not `live`. */
  datatype Session = Session(w: World, record: Record, fuel: nat, live: bool)

  /** What the operator of a fee router run states: CONFIRM_MAINNET, and TREASURY if it is an address. */
  datatype Operator = Operator(confirmed: bool, treasury: Option<Addr>)

  const EMPTY: Record := Record(map[], map[], ZERO_ADDRESS, ZERO_ADDRESS, None, None)

  function Begin(w: World, fuel: nat): Session {
    Session(w, EMPTY, fuel, true)
  }

  function Stop(s: Session): Session {
    s.(live := false)
  }

  function Tick(s: Session): Session {
    if s.fuel == 0 then Stop(s) else s.(fuel := s.fuel - 1)
  }

  /** deployProxy. */
  function Deploy(s: Session, scope: Scope, k: Key, target: Target): Session {
    var t := Tick(s);
    if !t.live then t else t.(w := Deployed(t.w, scope, k, target))
  }

  /** saveDeployment; a malformed scope is refused. */
  function Save(s: Session, scope: Scope): Session {
    var t := Tick(s);
    if !t.live || scope.Malformed? then Stop(t) else t.(w := Store(t.w, scope, t.record))
  }

  // ---------------------------------------------------------------- deploy-fee-router.js

  /** The recorded router, if it carries code here; a new proxy only where none is recorded. */
  function ObtainRouter(s: Session, scope: Scope, treasury: Addr): Session {
    if FeeRouter in s.record.contracts then
      var t := Tick(s);
      if t.live && t.record.contracts[FeeRouter] in t.w.code then t else Stop(t)
    else
      var t := Deploy(s, scope, FeeRouter, Target(treasury, ZERO_ADDRESS));
      if t.live then t.(record := t.record.(contracts := t.record.contracts[FeeRouter := s.w.next])) else t
  }

  /** Save the record with the implementation the proxy really points at, before any registration. */
  function Reconcile(s: Session, scope: Scope, router: Addr): Session {
    var t := Tick(s);
    if !t.live || router !in t.w.slot then Stop(t)
    else Save(t.(record := t.record.(impls := t.record.impls[FeeRouter := t.w.slot[router]])), scope)
  }

  /** n reads in a row. */
  function Spend(s: Session, n: nat): Session {
    if s.fuel < n then Stop(s.(fuel := 0)) else s.(fuel := s.fuel - n)
  }

  function SendAll(s: Session, router: Addr, m: seq<TableEntry>): Session
    decreases m
  {
    if m == [] then s
    else
      var t := Tick(s);
      if !t.live then t else SendAll(t.(w := Registered(t.w, router, m[0])), router, m[1..])
  }

  function SendMissing(s: Session, router: Addr, m: seq<TableEntry>): Session {
    if m == [] then s
    else
      var t := Tick(s);
      if !t.live || router !in t.w.holds then Stop(t) else SendAll(t, router, m)
  }

  /** Read the whole table first, then send what is missing; drift is reported last. */
  function RegisterTable(s: Session, router: Addr, t: seq<TableEntry>): Session {
    var r := Spend(s, |t|);
    if !r.live then r
    else
      var sent := SendMissing(r, router, Missing(r.w, router, t));
      if sent.live && Undrifted(r.w, router, t) then sent else Stop(sent)
  }

  /** From a record that was read to the end. */
  function SetUp(s: Session, scope: Scope, treasury: Addr): Session {
    var obtained := ObtainRouter(s, scope, treasury);
    if !obtained.live then obtained
    else
      var router := obtained.record.contracts[FeeRouter];
      var saved := Reconcile(obtained, scope, router);
      if !saved.live then saved else RegisterTable(saved, router, LAUNCH)
  }

  /** The stated treasury before the recorded one. */
  function TreasuryFor(op: Operator, r: Record): Addr {
    if op.treasury.Some? then op.treasury.value else r.treasury
  }

  function FeeRun(w: World, net: Net, scope: Scope, fuel: nat, op: Operator): Session {
    var s := Spend(Begin(w, fuel), 2);
    if !s.live || (net.mainnet && !op.confirmed) || w.file == None then Stop(s)
    else SetUp(s.(record := w.file.value), scope, TreasuryFor(op, w.file.value))
  }

  // ---------------------------------------------------------------- deploy-bridge-liquidity.js

  /** A proxy deployed and noted in the record in memory, not yet saved. */
  function Noted(s: Session, scope: Scope, k: Key, target: Target): Session {
    var t, a := Deploy(s, scope, k, target), s.w.next;
    t.(record := t.record.(contracts := t.record.contracts[k := a], impls := t.record.impls[k := a + 1]))
  }

  function DeployAndSave(s: Session, scope: Scope, k: Key, target: Target): Session {
    if !Tick(s).live then Tick(s) else Save(Noted(s, scope, k, target), scope)
  }

  /** Keep a recorded router that carries code; otherwise deploy one and save it before anything else. */
  function EnsureRouter(s: Session, scope: Scope, local: bool, k: Key, target: Target): Session {
    if k !in s.record.contracts then DeployAndSave(s, scope, k, target)
    else
      var t := Tick(s);
      if !t.live then t
      else if t.record.contracts[k] in t.w.code then t
      else if !local then Stop(t)
      else DeployAndSave(t, scope, k, target)
  }

  /** Record what the two routers really point at. */
  function RecordLiveValues(s: Session, scope: Scope, b: Addr, l: Addr): Session {
    var t := Tick(s);
    if !t.live || b !in t.w.points then Stop(t)
    else
      var u := Tick(t);
      if !u.live || l !in u.w.points then Stop(u)
      else
        var manager := if u.w.points[l] == ZERO_ADDRESS then None else Some(u.w.points[l]);
        Save(u.(record := u.record.(spokePool := Some(u.w.points[b]), positionManager := manager)), scope)
  }

  /** Entry by entry, with no look at the cap and kind of what is there. */
  function RegisterMissing(s: Session, router: Addr, t: seq<TableEntry>): Session
    decreases t
  {
    if t == [] then s
    else
      var r := Tick(s);
      if !r.live then r
      else if (router, t[0].name) in r.w.services then RegisterMissing(r, router, t[1..])
      else
        var u := Tick(r);
        if !u.live then u else RegisterMissing(u.(w := Registered(u.w, router, t[0])), router, t[1..])
  }

  /** Stand-ins for a local chain: the recorded ones if they are still there, fresh ones otherwise. */
  function LocalDoubles(s: Session): (Session, Protocols) {
    var r := s.record;
    if r.spokePool.Some? && r.positionManager.Some?
       && r.spokePool.value in s.w.code && r.positionManager.value in s.w.code then
      (s, Protocols(r.spokePool, None, None, r.positionManager))
    else
      var none := Protocols(None, None, None, None);
      var t := Tick(s);
      if !t.live then (t, none)
      else
        var u := Tick(t.(w := t.w.(code := t.w.code + {t.w.next}, next := t.w.next + 1)));
        if !u.live then (u, none)
        else
          (u.(w := u.w.(code := u.w.code + {u.w.next}, next := u.w.next + 1)),
           Protocols(Some(t.w.next), None, None, Some(u.w.next)))
  }

  /** Everything that comes before the first proxy: the gate, the record, the address guard. */
  ghost function CheckedProtocols(w: World, net: Net, fuel: nat, confirmed: bool, configured: Protocols, probe: Probe)
    : (Session, Protocols)
  {
    var s := Tick(Begin(w, fuel));
    if !s.live || (net.mainnet && !confirmed) || w.file == None || !GuardHolds(net.chainId, configured, w.code, probe)
    then (Stop(s), configured)
    else
      var t := s.(record := w.file.value);
      if configured.spokePool.Some? || configured.positionManager.Some? then (t, configured)
      else if !net.local then (Stop(t), configured)
      else
        var d := LocalDoubles(t);
        if d.0.live && !GuardHolds(net.chainId, d.1, d.0.w.code, probe) then (Stop(d.0), d.1) else d
  }

  function ChosenFeeRouter(r: Record, override: Option<Addr>): Option<Addr> {
    if override.Some? then override
    else if FeeRouter in r.contracts then Some(r.contracts[FeeRouter])
    else None
  }

  /** Both routers, the bridge first. */
  function EnsureRouters(s: Session, scope: Scope, local: bool, bridge: Target, liquidity: Target): Session {
    var t := EnsureRouter(s, scope, local, BridgeRouter, bridge);
    if !t.live then t else EnsureRouter(t, scope, local, LiquidityRouter, liquidity)
  }

  /** With both routers in the record: their live values, then the services. */
  function Finish(s: Session, scope: Scope, feeRouter: Addr): Session {
    if BridgeRouter !in s.record.contracts || LiquidityRouter !in s.record.contracts then Stop(s)
    else
      var t := RecordLiveValues(s, scope, s.record.contracts[BridgeRouter], s.record.contracts[LiquidityRouter]);
      if !t.live then t
      else
        var u := Tick(t);
        if !u.live || feeRouter !in u.w.holds then Stop(u) else RegisterMissing(u, feeRouter, BRIDGE)
  }

  /** A missing position manager is passed on as the zero address. */
  function LiquidityTarget(manager: Option<Addr>, feeRouter: Addr): Target {
    Target(if manager.Some? then manager.value else ZERO_ADDRESS, feeRouter)
  }

  function Install(s: Session, scope: Scope, local: bool, feeRouter: Addr, spokePool: Addr, manager: Option<Addr>)
    : Session
  {
    var t := EnsureRouters(s, scope, local, Target(spokePool, feeRouter), LiquidityTarget(manager, feeRouter));
    if !t.live then t else Finish(t, scope, feeRouter)
  }

  /** From checked addresses on: the prerequisites, then the installation. */
  function Proceed(s: Session, scope: Scope, local: bool, override: Option<Addr>, p: Protocols): Session {
    var chosen, t := ChosenFeeRouter(s.record, override), Tick(s);
    if !t.live || chosen == None || chosen.value !in t.w.code || p.spokePool == None then Stop(t)
    else Install(t, scope, local, chosen.value, p.spokePool.value, p.positionManager)
  }

  ghost function BridgeRun(w: World, net: Net, scope: Scope, fuel: nat, confirmed: bool, configured: Protocols,
                           probe: Probe, override: Option<Addr>): Session
  {
    var c := CheckedProtocols(w, net, fuel, confirmed, configured, probe);
    if !c.0.live || c.1.spokePool == None then Stop(c.0) else Proceed(c.0, scope, net.local, override, c.1)
  }

  // ---------------------------------------------------------------- init-deployment-record.js

  /** DEPLOYER: unset, a text that is no address, or an address. */
  datatype Override = Unset | NoAddress | Override(address: Addr)

  /** What a bootstrap is told; `treasury` is None when unstated or no address. */
  datatype Inputs = Inputs(reported: Option<nat>, declared: Option<nat>, expected: Option<nat>,
                           treasury: Option<Addr>, override: Override, signer: Option<Addr>)

  /** resolveDeployer: an override decides, and only without one the configured signer. */
  function ResolveDeployer(override: Override, signer: Option<Addr>): Option<Addr> {
    match override
    case Unset => signer
    case NoAddress => None
    case Override(address) => Some(address)
  }

  predicate Acceptable(i: Inputs) {
    && ChainIdSettled(i.reported, i.declared, i.expected)
    && i.treasury.Some? && i.treasury.value != ZERO_ADDRESS
    && ResolveDeployer(i.override, i.signer).Some?
  }

  /** The record without contracts that a bootstrap writes. */
  function Blank(i: Inputs): Record
    requires Acceptable(i)
  {
    EMPTY.(treasury := i.treasury.value, deployer := ResolveDeployer(i.override, i.signer).value)
  }

  /** Creates an empty record where the shared estate has none. */
  function InitRun(w: World, scope: Scope, fuel: nat, i: Inputs): Session {
    var s := Begin(w, fuel);
    if w.file.Some? || !Acceptable(i) then Stop(s)
    else
      var t := Tick(s.(record := Blank(i)));
      if !t.live then t else Save(t, scope)
  }

  // ---------------------------------------------------------------- campaigns

  /** What anybody else may do between runs: register a service, hand over a role, upgrade, repoint. */
  datatype Change =
    | RegisterElsewhere(router: Addr, name: string, service: Service)
    | HandOff(router: Addr)
    | Upgrade(proxy: Addr, implementation: Addr)
    | Repoint(router: Addr, target: Addr)

  /** A change the chain refuses has no effect. */
  function After(w: World, c: Change): World {
    match c
    case RegisterElsewhere(r, n, s) =>
      if (r, n) in w.services || r !in w.code then w else w.(services := w.services[(r, n) := s])
    case HandOff(r) => w.(holds := w.holds - {r})
    case Upgrade(p, i) => if p in w.slot then w.(slot := w.slot[p := i]) else w
    case Repoint(r, t) => if r in w.points then w.(points := w.points[r := t]) else w
  }

  datatype Run =
    | Init(scope: Scope, fuel: nat, inputs: Inputs)
    | Fee(scope: Scope, fuel: nat, op: Operator)
    | Bridge(scope: Scope, fuel: nat, confirmed: bool, configured: Protocols, probe: Probe, override: Option<Addr>)
    | Others(change: Change)

  ghost function RunOne(w: World, net: Net, r: Run): World {
    match r
    case Init(scope, fuel, inputs) => InitRun(w, scope, fuel, inputs).w
    case Fee(scope, fuel, op) => FeeRun(w, net, scope, fuel, op).w
    case Bridge(scope, fuel, confirmed, configured, probe, override) =>
      BridgeRun(w, net, scope, fuel, confirmed, configured, probe, override).w
    case Others(change) => After(w, change)
  }

  /** Runs one after the other, each stopped wherever its fuel ends, others acting in between. */
  ghost function RunAll(w: World, net: Net, runs: seq<Run>): World {
    if runs == [] then w else RunOne(RunAll(w, net, runs[..|runs| - 1]), net, runs[|runs| - 1])
  }

  // ---------------------------------------------------------------- what every step keeps

  /** Which saved records a run of a scope must keep: all but, for a tenant, its own. */
  predicate Spares(scope: Scope, saved: Scope) {
    !scope.Tenant? || saved != scope
  }

  ghost predicate Keeps(w: World, v: World, scope: Scope, local: bool) {
    KeepsChain(w, v) && forall saved | Spares(scope, saved) :: KeepsSaved(w, v, saved, local)
  }

  lemma KeepsTransitive(u: World, v: World, w: World, scope: Scope, local: bool)
    requires Keeps(u, v, scope, local) && Keeps(v, w, scope, local)
    ensures Keeps(u, w, scope, local)
  {
    KeepsChainTransitive(u, v, w);
    forall saved | Spares(scope, saved)
      ensures KeepsSaved(u, w, saved, local)
    {
      KeepsSavedTransitive(u, v, w, saved, local);
    }
  }

  /** The record in memory has everything the shared record protects. */
  ghost predicate Faithful(s: Session, local: bool) {
    && Good(s.w) && s.w.file.Some? && s.record.treasury == s.w.file.value.treasury && Bounded(s.record, s.w.next)
    && forall k | Protected(s.w, Shared, k, local) ::
         k in s.record.contracts && s.record.contracts[k] == Address(s.w, Shared, k)
  }

  /** A stage takes a faithful session to a faithful one and keeps what it must. */
  ghost predicate Safe(s: Session, t: Session, scope: Scope, local: bool) {
    Faithful(t, local) && Keeps(s.w, t.w, scope, local)
  }

  lemma SafeTransitive(s: Session, t: Session, u: Session, scope: Scope, local: bool)
    requires Safe(s, t, scope, local) && Safe(t, u, scope, local)
    ensures Safe(s, u, scope, local)
  {
    KeepsTransitive(s.w, t.w, u.w, scope, local);
  }

  /** Records and the log of proxies decide what is kept. */
  lemma SameRecords(w: World, v: World, saved: Scope, local: bool)
    requires v.file == w.file && v.tenants == w.tenants && v.log == w.log
    ensures KeepsSaved(w, v, saved, local)
  {
    assert Saved(v, saved) == Saved(w, saved);
  }

  lemma SameWorldSafe(s: Session, t: Session, scope: Scope, local: bool)
    requires Faithful(s, local) && t.w == s.w && t.record == s.record
    ensures Safe(s, t, scope, local)
  {
  }

  /** A proxy for a key the record in memory has no address with code for touches nothing protected. */
  lemma DeployedKeeps(s: Session, scope: Scope, local: bool, k: Key, target: Target)
    requires Faithful(s, local)
    requires k in s.record.contracts ==> local && s.record.contracts[k] !in s.w.code
    ensures Good(Deployed(s.w, scope, k, target)) && KeepsChain(s.w, Deployed(s.w, scope, k, target))
    ensures forall saved | Spares(scope, saved) :: KeepsSaved(s.w, Deployed(s.w, scope, k, target), saved, local)
  {
    var v := Deployed(s.w, scope, k, target);
    forall saved, j | Spares(scope, saved) && Protected(s.w, saved, j, local)
      ensures forall t | saved == Shared || t == saved :: Deploys(v.log, t, j) == Deploys(s.w.log, t, j)
    {
      forall t | saved == Shared || t == saved
        ensures Deploys(v.log, t, j) == Deploys(s.w.log, t, j)
      {
        OneMore(s.w.log, Proxy(scope, k, s.w.next), t, j);
      }
    }
  }

  lemma DeploySafe(s: Session, scope: Scope, local: bool, k: Key, target: Target, t: Session)
    requires Faithful(s, local)
    requires k in s.record.contracts ==> local && s.record.contracts[k] !in s.w.code
    requires t.w == Deployed(s.w, scope, k, target) && t.record.treasury == s.record.treasury
    requires t.record.contracts == s.record.contracts[k := s.w.next]
    ensures Safe(s, t, scope, local)
  {
    DeployedKeeps(s, scope, local, k, target);
  }

  lemma StoreSafe(s: Session, scope: Scope, local: bool, t: Session)
    requires Faithful(s, local) && t.record == s.record && t.w == Store(s.w, scope, s.record)
    ensures Safe(s, t, scope, local)
  {
  }

  lemma SaveSafe(s: Session, scope: Scope, local: bool)
    requires Faithful(s, local)
    ensures Safe(s, Save(s, scope), scope, local)
  {
    StoreSafe(s, scope, local, s.(w := Store(s.w, scope, s.record)));
  }

  lemma RegisteredSafe(s: Session, scope: Scope, local: bool, router: Addr, e: TableEntry, t: Session)
    requires Faithful(s, local) && router < s.w.next && (router, e.name) !in s.w.services && e in LAUNCH + BRIDGE
    requires t.record == s.record && t.w == Registered(s.w, router, e)
    ensures Safe(s, t, scope, local)
  {
    forall saved | Spares(scope, saved)
      ensures KeepsSaved(s.w, t.w, saved, local)
    {
      SameRecords(s.w, t.w, saved, local);
    }
    assert forall k | Protected(t.w, Shared, k, local) :: Protected(s.w, Shared, k, local);
  }

  lemma {:induction false} SendAllSafe(s: Session, scope: Scope, local: bool, router: Addr, m: seq<TableEntry>)
    requires Faithful(s, local) && router < s.w.next && DistinctNames(m)
    requires forall e | e in m :: (router, e.name) !in s.w.services && e in LAUNCH + BRIDGE
    ensures Safe(s, SendAll(s, router, m), scope, local)
    decreases m
  {
    if m != [] && Tick(s).live {
      var t := Tick(s).(w := Registered(s.w, router, m[0]));
      assert m[0] in m;
      RegisteredSafe(s, scope, local, router, m[0], t);
      assert forall e | e in m[1..] :: e in m && e.name != m[0].name;
      SendAllSafe(t, scope, local, router, m[1..]);
      SafeTransitive(s, t, SendAll(s, router, m), scope, local);
    }
  }

  lemma {:induction false} RegisterMissingSafe(s: Session, scope: Scope, local: bool, router: Addr, t: seq<TableEntry>)
    requires Faithful(s, local) && router < s.w.next && forall e | e in t :: e in LAUNCH + BRIDGE
    ensures Safe(s, RegisterMissing(s, router, t), scope, local)
    decreases t
  {
    if t != [] && Tick(s).live {
      var r := Tick(s);
      if (router, t[0].name) in r.w.services {
        RegisterMissingSafe(r, scope, local, router, t[1..]);
      } else if Tick(r).live {
        var u := Tick(r).(w := Registered(r.w, router, t[0]));
        RegisteredSafe(s, scope, local, router, t[0], u);
        RegisterMissingSafe(u, scope, local, router, t[1..]);
        SafeTransitive(s, u, RegisterMissing(s, router, t), scope, local);
      }
    }
  }

  // ---------------------------------------------------------------- the three scripts are safe

  lemma ObtainSafe(s: Session, scope: Scope, local: bool, treasury: Addr)
    requires Faithful(s, local)
    ensures Safe(s, ObtainRouter(s, scope, treasury), scope, local)
    ensures ObtainRouter(s, scope, treasury).live ==> FeeRouter in ObtainRouter(s, scope, treasury).record.contracts
  {
    if FeeRouter !in s.record.contracts && Tick(s).live {
      DeploySafe(s, scope, local, FeeRouter, Target(treasury, ZERO_ADDRESS), ObtainRouter(s, scope, treasury));
    }
  }

  lemma ReconcileSafe(s: Session, scope: Scope, local: bool, router: Addr)
    requires Faithful(s, local)
    ensures Safe(s, Reconcile(s, scope, router), scope, local)
  {
    var t := Tick(s);
    if t.live && router in t.w.slot {
      var u := t.(record := t.record.(impls := t.record.impls[FeeRouter := t.w.slot[router]]));
      SaveSafe(u, scope, local);
    }
  }

  lemma RegisterTableSafe(s: Session, scope: Scope, local: bool, router: Addr, t: seq<TableEntry>)
    requires Faithful(s, local) && router < s.w.next && DistinctNames(t) && forall e | e in t :: e in LAUNCH + BRIDGE
    ensures Safe(s, RegisterTable(s, router, t), scope, local)
  {
    var m := Missing(s.w, router, t);
    var r := Spend(s, |t|);
    if r.live && m != [] && Tick(r).live && router in s.w.holds {
      MissingFacts(s.w, router, t);
      SendAllSafe(Tick(r), scope, local, router, m);
    }
  }

  lemma SetUpSafe(s: Session, scope: Scope, local: bool, treasury: Addr)
    requires Faithful(s, local)
    ensures Safe(s, SetUp(s, scope, treasury), scope, local)
  {
    var obtained := ObtainRouter(s, scope, treasury);
    ObtainSafe(s, scope, local, treasury);
    if obtained.live {
      var router := obtained.record.contracts[FeeRouter];
      var saved := Reconcile(obtained, scope, router);
      ReconcileSafe(obtained, scope, local, router);
      SafeTransitive(s, obtained, saved, scope, local);
      if saved.live {
        TablesAreDistinct();
        RegisterTableSafe(saved, scope, local, router, LAUNCH);
        SafeTransitive(s, saved, RegisterTable(saved, router, LAUNCH), scope, local);
      }
    }
  }

  /** Wherever it stops, the fee router script keeps every record but that of the tenant it saves for. */
  lemma FeeKeeps(w: World, net: Net, scope: Scope, fuel: nat, op: Operator)
    requires Good(w)
    ensures Good(FeeRun(w, net, scope, fuel, op).w)
    ensures Keeps(w, FeeRun(w, net, scope, fuel, op).w, scope, net.local)
  {
    var s := Spend(Begin(w, fuel), 2);
    if s.live && w.file.Some? {
      SetUpSafe(s.(record := w.file.value), scope, net.local, TreasuryFor(op, w.file.value));
    }
  }

  lemma DeployAndSaveSafe(s: Session, scope: Scope, local: bool, k: Key, target: Target)
    requires Faithful(s, local)
    requires k in s.record.contracts ==> local && s.record.contracts[k] !in s.w.code
    ensures Safe(s, DeployAndSave(s, scope, k, target), scope, local)
  {
    if Tick(s).live {
      var u := Noted(s, scope, k, target);
      DeploySafe(s, scope, local, k, target, u);
      SaveSafe(u, scope, local);
      SafeTransitive(s, u, Save(u, scope), scope, local);
    }
  }

  lemma EnsureRouterSafe(s: Session, scope: Scope, local: bool, k: Key, target: Target)
    requires Faithful(s, local)
    ensures Safe(s, EnsureRouter(s, scope, local, k, target), scope, local)
  {
    if k !in s.record.contracts {
      DeployAndSaveSafe(s, scope, local, k, target);
    } else if Tick(s).live && s.record.contracts[k] !in s.w.code && local {
      DeployAndSaveSafe(Tick(s), scope, local, k, target);
    }
  }

  lemma EnsureRoutersSafe(s: Session, scope: Scope, local: bool, bridge: Target, liquidity: Target)
    requires Faithful(s, local)
    ensures Safe(s, EnsureRouters(s, scope, local, bridge, liquidity), scope, local)
  {
    var t := EnsureRouter(s, scope, local, BridgeRouter, bridge);
    EnsureRouterSafe(s, scope, local, BridgeRouter, bridge);
    if t.live {
      EnsureRouterSafe(t, scope, local, LiquidityRouter, liquidity);
      SafeTransitive(s, t, EnsureRouters(s, scope, local, bridge, liquidity), scope, local);
    }
  }

  lemma RecordLiveSafe(s: Session, scope: Scope, local: bool, b: Addr, l: Addr)
    requires Faithful(s, local)
    ensures Safe(s, RecordLiveValues(s, scope, b, l), scope, local)
  {
    var u := Tick(Tick(s));
    if Tick(s).live && u.live && b in s.w.points && l in s.w.points {
      var manager := if u.w.points[l] == ZERO_ADDRESS then None else Some(u.w.points[l]);
      SaveSafe(u.(record := u.record.(spokePool := Some(u.w.points[b]), positionManager := manager)), scope, local);
    }
  }

  lemma FinishSafe(s: Session, scope: Scope, local: bool, feeRouter: Addr)
    requires Faithful(s, local) && feeRouter in s.w.code
    ensures Safe(s, Finish(s, scope, feeRouter), scope, local)
  {
    if BridgeRouter in s.record.contracts && LiquidityRouter in s.record.contracts {
      var b, l := s.record.contracts[BridgeRouter], s.record.contracts[LiquidityRouter];
      var t := RecordLiveValues(s, scope, b, l);
      RecordLiveSafe(s, scope, local, b, l);
      if t.live && Tick(t).live && feeRouter in t.w.holds {
        RegisterMissingSafe(Tick(t), scope, local, feeRouter, BRIDGE);
        SafeTransitive(s, t, RegisterMissing(Tick(t), feeRouter, BRIDGE), scope, local);
      }
    }
  }

  lemma InstallSafe(s: Session, scope: Scope, local: bool, feeRouter: Addr, spokePool: Addr, manager: Option<Addr>)
    requires Faithful(s, local) && feeRouter in s.w.code
    ensures Safe(s, Install(s, scope, local, feeRouter, spokePool, manager), scope, local)
  {
    var bridge, liquidity := Target(spokePool, feeRouter), LiquidityTarget(manager, feeRouter);
    var t := EnsureRouters(s, scope, local, bridge, liquidity);
    EnsureRoutersSafe(s, scope, local, bridge, liquidity);
    if t.live {
      FinishSafe(t, scope, local, feeRouter);
      SafeTransitive(s, t, Finish(t, scope, feeRouter), scope, local);
    }
  }

  lemma ProceedSafe(s: Session, scope: Scope, local: bool, override: Option<Addr>, p: Protocols)
    requires Faithful(s, local)
    ensures Safe(s, Proceed(s, scope, local, override, p), scope, local)
  {
    var chosen, t := ChosenFeeRouter(s.record, override), Tick(s);
    if t.live && chosen.Some? && chosen.value in t.w.code && p.spokePool.Some? {
      InstallSafe(t, scope, local, chosen.value, p.spokePool.value, p.positionManager);
    }
  }

  lemma DoublesSafe(s: Session, scope: Scope, local: bool)
    requires Faithful(s, local)
    ensures Safe(s, LocalDoubles(s).0, scope, local)
  {
    var t := LocalDoubles(s).0;
    forall saved | Spares(scope, saved)
      ensures KeepsSaved(s.w, t.w, saved, local)
    {
      SameRecords(s.w, t.w, saved, local);
    }
    assert t.w.code <= s.w.code + {s.w.next, s.w.next + 1} && s.w.next <= t.w.next;
    forall k | Protected(t.w, Shared, k, local)
      ensures Protected(s.w, Shared, k, local)
    {
      assert Address(s.w, Shared, k) < s.w.next;
    }
  }

  lemma CheckedSafe(w: World, net: Net, scope: Scope, fuel: nat, confirmed: bool, configured: Protocols, probe: Probe)
    requires Good(w)
    ensures var c := CheckedProtocols(w, net, fuel, confirmed, configured, probe).0;
            Good(c.w) && Keeps(w, c.w, scope, net.local) && (c.live ==> Faithful(c, net.local))
  {
    var s := Tick(Begin(w, fuel));
    if s.live && w.file.Some? {
      var t := s.(record := w.file.value);
      SameWorldSafe(t, t, scope, net.local);
      DoublesSafe(t, scope, net.local);
    }
  }

  /** The bridge and liquidity script likewise. */
  lemma BridgeKeeps(w: World, net: Net, scope: Scope, fuel: nat, confirmed: bool, configured: Protocols,
                    probe: Probe, override: Option<Addr>)
    requires Good(w)
    ensures Good(BridgeRun(w, net, scope, fuel, confirmed, configured, probe, override).w)
    ensures Keeps(w, BridgeRun(w, net, scope, fuel, confirmed, configured, probe, override).w, scope, net.local)
  {
    var c := CheckedProtocols(w, net, fuel, confirmed, configured, probe);
    CheckedSafe(w, net, scope, fuel, confirmed, configured, probe);
    if c.0.live && c.1.spokePool.Some? {
      ProceedSafe(c.0, scope, net.local, override, c.1);
      KeepsTransitive(w, c.0.w, Proceed(c.0, scope, net.local, override, c.1).w, scope, net.local);
    }
  }

  lemma InitKeeps(w: World, scope: Scope, fuel: nat, i: Inputs, local: bool)
    requires Good(w)
    ensures Good(InitRun(w, scope, fuel, i).w)
    ensures Keeps(w, InitRun(w, scope, fuel, i).w, scope, local)
  {
  }

  lemma ChangeKeeps(w: World, c: Change, saved: Scope, local: bool)
    requires Good(w)
    ensures Good(After(w, c)) && KeepsChain(w, After(w, c)) && KeepsSaved(w, After(w, c), saved, local)
  {
    SameRecords(w, After(w, c), saved, local);
  }

  // ---------------------------------------------------------------- campaigns

  /** No run of the campaign saves for this tenant. */
  ghost predicate Untouched(runs: seq<Run>, saved: Scope) {
    forall r | r in runs && !r.Others? :: Spares(r.scope, saved)
  }

  lemma OneKeeps(w: World, net: Net, r: Run, saved: Scope)
    requires Good(w) && (r.Others? || Spares(r.scope, saved))
    ensures Good(RunOne(w, net, r)) && KeepsChain(w, RunOne(w, net, r))
            && KeepsSaved(w, RunOne(w, net, r), saved, net.local)
  {
    match r
    case Init(scope, fuel, inputs) => InitKeeps(w, scope, fuel, inputs, net.local);
    case Fee(scope, fuel, op) => FeeKeeps(w, net, scope, fuel, op);
    case Bridge(scope, fuel, confirmed, configured, probe, override) =>
      BridgeKeeps(w, net, scope, fuel, confirmed, configured, probe, override);
    case Others(change) => ChangeKeeps(w, change, saved, net.local);
  }

  /**
   * Crash-restart safety: whatever runs are started, in whatever order and wherever each stops, the
   * shared record and every tenant's record that no run saves for are kept.
   */
  lemma {:induction false} CampaignKeeps(w: World, net: Net, runs: seq<Run>, saved: Scope)
    requires Good(w) && Untouched(runs, saved)
    ensures Good(RunAll(w, net, runs)) && KeepsChain(w, RunAll(w, net, runs))
    ensures KeepsSaved(w, RunAll(w, net, runs), saved, net.local)
  {
    if runs != [] {
      var front, last := runs[..|runs| - 1], runs[|runs| - 1];
      var v := RunAll(w, net, front);
      assert runs == front + [last];
      assert last in runs && forall r | r in front :: r in runs;
      CampaignKeeps(w, net, front, saved);
      OneKeeps(v, net, last, saved);
      KeepsSavedTransitive(w, v, RunOne(v, net, last), saved, net.local);
      KeepsChainTransitive(w, v, RunOne(v, net, last));
    }
  }

  /** Registrations over a whole campaign are bounded by the tables. */
  lemma CampaignSends(w: World, net: Net, runs: seq<Run>, router: Addr)
    requires Good(w)
    ensures |SendsTo(RunAll(w, net, runs).sends, router)| <= |LAUNCH| + |BRIDGE|
  {
    CampaignKeeps(w, net, runs, Shared);
    SendsBounded(RunAll(w, net, runs), router);
  }

  /** The i-th registration was sent by the n-th run, and nobody had registered or sent that pair before. */
  ghost predicate SentBy(w: World, net: Net, runs: seq<Run>, i: nat, n: nat) {
    && n < |runs| && i < |RunAll(w, net, runs).sends|
    && |RunAll(w, net, runs[..n]).sends| <= i < |RunAll(w, net, runs[..n + 1]).sends|
    && var sends := RunAll(w, net, runs).sends;
       sends[i] !in RunAll(w, net, runs[..n]).services && sends[i] !in sends[..i]
  }

  ghost predicate SentFresh(w: World, net: Net, runs: seq<Run>, i: nat) {
    exists n :: SentBy(w, net, runs, i, n)
  }

  /** No registration of a campaign is for an id that was registered, by a run or by anybody else. */
  lemma {:induction false} CampaignFresh(w: World, net: Net, runs: seq<Run>, i: nat) returns (n: nat)
    requires Good(w) && |w.sends| <= i < |RunAll(w, net, runs).sends|
    ensures SentBy(w, net, runs, i, n)
  {
    var front, last := runs[..|runs| - 1], runs[|runs| - 1];
    var v, u := RunAll(w, net, front), RunAll(w, net, runs);
    CampaignKeeps(w, net, front, Malformed);
    CampaignKeeps(w, net, runs, Malformed);
    OneKeeps(v, net, last, Malformed);
    assert runs[..|runs|] == runs;
    if i < |v.sends| {
      n := CampaignFresh(w, net, front, i);
      assert front[..n] == runs[..n] && front[..n + 1] == runs[..n + 1];
      assert u.sends[..i] == v.sends[..i] && u.sends[i] == v.sends[i];
    } else {
      n := |runs| - 1;
    }
  }

  // ---------------------------------------------------------------- the tenant's own record

  /** Bootstrapping for a tenant looks at the shared file and writes the tenant's: whatever that held is gone. */
  lemma InitResetsTenant(w: World, id: string, fuel: nat, i: Inputs)
    requires w.file == None && fuel > 1 && Acceptable(i)
    ensures var v := InitRun(w, Tenant(id), fuel, i).w;
            v.file == None && Saved(v, Tenant(id)) == Some(Blank(i))
  {
  }

  lemma {:induction false} SendAllFrame(s: Session, router: Addr, m: seq<TableEntry>)
    ensures var t := SendAll(s, router, m);
            t.w == s.w.(services := t.w.services, sends := t.w.sends) && t.record == s.record
    decreases m
  {
    if m != [] && Tick(s).live {
      SendAllFrame(Tick(s).(w := Registered(s.w, router, m[0])), router, m[1..]);
    }
  }

  lemma RegisterTableFrame(s: Session, router: Addr, t: seq<TableEntry>)
    ensures var r := RegisterTable(s, router, t); r.w == s.w.(services := r.w.services, sends := r.w.sends)
    ensures RegisterTable(s, router, t).record == s.record
  {
    var r := Spend(s, |t|);
    if r.live && Tick(r).live {
      SendAllFrame(Tick(r), router, Missing(r.w, router, t));
    }
  }

  /** What the fee router script leaves in the slot of its scope, once it gets past the save. */
  lemma FeeSaves(w: World, net: Net, scope: Scope, fuel: nat, op: Operator)
    requires w.file.Some? && fuel > 4 && (net.mainnet ==> op.confirmed) && !scope.Malformed?
    requires var r := w.file.value; FeeRouter in r.contracts ==>
               r.contracts[FeeRouter] in w.code && r.contracts[FeeRouter] in w.slot
    ensures var v, r := FeeRun(w, net, scope, fuel, op).w, w.file.value;
            var router := if FeeRouter in r.contracts then r.contracts[FeeRouter] else w.next;
            var target := Target(if op.treasury.Some? then op.treasury.value else r.treasury, ZERO_ADDRESS);
            var u := if FeeRouter in r.contracts then w else Deployed(w, scope, FeeRouter, target);
            && Saved(v, scope) == Some(r.(contracts := r.contracts[FeeRouter := router],
                                          impls := r.impls[FeeRouter := u.slot[router]]))
            && v.log == u.log
  {
    var first := Spend(Begin(w, fuel), 2).(record := w.file.value);
    var obtained := ObtainRouter(first, scope, TreasuryFor(op, w.file.value));
    var router := obtained.record.contracts[FeeRouter];
    if FeeRouter in first.record.contracts {
      assert first.record.contracts[FeeRouter := router] == first.record.contracts;
    }
    RegisterTableFrame(Reconcile(obtained, scope, router), router, LAUNCH);
  }

  /** Where the shared record has no fee router, every run for a tenant deploys another and saves it over the last. */
  lemma FeeReplacesTenant(w: World, net: Net, id: string, fuel: nat, op: Operator)
    requires w.file.Some? && FeeRouter !in w.file.value.contracts && fuel > 4 && (net.mainnet ==> op.confirmed)
    ensures var v := FeeRun(w, net, Tenant(id), fuel, op).w;
            && Recorded(v, Tenant(id), FeeRouter) && Address(v, Tenant(id), FeeRouter) == w.next
            && Deploys(v.log, Tenant(id), FeeRouter) == Deploys(w.log, Tenant(id), FeeRouter) + 1
  {
    FeeSaves(w, net, Tenant(id), fuel, op);
    OneMore(w.log, Proxy(Tenant(id), FeeRouter, w.next), Tenant(id), FeeRouter);
  }

  /** Where it has one, the tenant's whole record becomes the shared one, implementation reconciled. */
  lemma FeeOverwritesTenant(w: World, net: Net, id: string, fuel: nat, op: Operator)
    requires w.file.Some? && FeeRouter in w.file.value.contracts && fuel > 4 && (net.mainnet ==> op.confirmed)
    requires var a := w.file.value.contracts[FeeRouter]; a in w.code && a in w.slot
    ensures var v, r := FeeRun(w, net, Tenant(id), fuel, op).w, w.file.value;
            Saved(v, Tenant(id)) == Some(r.(impls := r.impls[FeeRouter := w.slot[r.contracts[FeeRouter]]]))
  {
    FeeSaves(w, net, Tenant(id), fuel, op);
    var r := w.file.value;
    assert r.contracts[FeeRouter := r.contracts[FeeRouter]] == r.contracts;
  }

  /** With a malformed TENANT_ID each run deploys a proxy, fails to save it, and leaves no trace of it. */
  lemma MalformedOrphans(w: World, net: Net, fuel: nat, op: Operator)
    requires w.file.Some? && FeeRouter !in w.file.value.contracts && fuel > 2 && (net.mainnet ==> op.confirmed)
    ensures var t := FeeRun(w, net, Malformed, fuel, op);
            !t.live && t.w == Deployed(w, Malformed, FeeRouter, Target(TreasuryFor(op, w.file.value), ZERO_ADDRESS))
  {
  }

  // ---------------------------------------------------------------- which campaigns are safe

  ghost predicate AllScoped(runs: seq<Run>, scope: Scope) {
    forall r | r in runs && !r.Others? :: r.scope == scope
  }

  ghost predicate KeepsEverySaved(w: World, v: World, local: bool) {
    forall saved :: KeepsSaved(w, v, saved, local)
  }

  /** On every network, every campaign with this TENANT_ID keeps every saved record. */
  ghost predicate SafeScope(scope: Scope) {
    forall w, net, runs | Good(w) && AllScoped(runs, scope) :: KeepsEverySaved(w, RunAll(w, net, runs), net.local)
  }

  const START: World := World(None, map[], {}, [], map[], [], {}, map[], map[], map[], 1)

  const FIRST := Inputs(Some(1), Some(1), None, Some(1), Override(1), None)
  const SECOND := FIRST.(treasury := Some(2))

  /** Two bootstraps for one tenant, with different treasuries. */
  lemma TwoInits(id: string, net: Net)
    ensures var first, second := Init(Tenant(id), 2, FIRST), Init(Tenant(id), 2, SECOND);
            var w := RunAll(START, net, [first]);
            Good(w) && !KeepsSaved(w, RunAll(w, net, [second]), Tenant(id), net.local)
  {
    var first, second := Init(Tenant(id), 2, FIRST), Init(Tenant(id), 2, SECOND);
    assert [first][..0] == [] && RunAll(START, net, [first]) == RunOne(START, net, first);
    var w := RunAll(START, net, [first]);
    assert [second][..0] == [] && RunAll(w, net, [second]) == RunOne(w, net, second);
    InitResetsTenant(START, id, 2, FIRST);
    InitResetsTenant(w, id, 2, SECOND);
    InitKeeps(START, Tenant(id), 2, FIRST, net.local);
  }

  /**
   * The scripts are safe to run again exactly where they save to the file they read: with TENANT_ID
   * unset or the default tenant's. A malformed one is harmless to records, because nothing is saved.
   */
  lemma SafeExactly(text: string)
    ensures SafeScope(ScopeOf(text)) <==> text == "" || text == "fairwins" || !IsTenantId(text)
  {
    var scope := ScopeOf(text);
    if scope.Tenant? {
      var net := Net(false, false, 1);
      var w, second := RunAll(START, net, [Init(scope, 2, FIRST)]), Init(scope, 2, SECOND);
      TwoInits(text, net);
      assert AllScoped([second], scope);
      assert !KeepsEverySaved(w, RunAll(w, net, [second]), net.local);
    } else {
      forall w, net, runs | Good(w) && AllScoped(runs, scope)
        ensures KeepsEverySaved(w, RunAll(w, net, runs), net.local)
      {
        forall saved
          ensures KeepsSaved(w, RunAll(w, net, runs), saved, net.local)
        {
          CampaignKeeps(w, net, runs, saved);
        }
      }
    }
  }
}
