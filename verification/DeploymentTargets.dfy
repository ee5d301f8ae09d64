/**
 * What a deployment run requires before it changes anything, what it initialises fresh proxies with, and
 * to whom it sends.
 */
module DeploymentTargets {
  import opened Deployment
  import opened DeploymentOutcomes
  import opened DeploymentRuns
  import opened Results

  // ---------------------------------------------------------------- the fee router script

  /** The treasury a fresh fee router gets: the stated one, and only without one the recorded one. */
  ghost predicate PaysInto(w: World, op: Operator, treasury: Addr) {
    match op.treasury
    case Some(a) => treasury == a
    case None => w.file.Some? && treasury == w.file.value.treasury
  }

  /** Nothing changes on a main network without confirmation, without a record, or over a stale address. */
  lemma FeeGuarded(w: World, net: Net, scope: Scope, fuel: nat, op: Operator)
    requires FeeRun(w, net, scope, fuel, op).w != w || FeeRun(w, net, scope, fuel, op).live
    ensures (net.mainnet ==> op.confirmed) && w.file.Some?
    ensures Recorded(w, Shared, FeeRouter) ==> Address(w, Shared, FeeRouter) in w.code
  {
  }

  /** New registrations go to this router, which the deployer administers. */
  ghost predicate SentTo(w: World, v: World, router: Addr) {
    AddedTo(w.sends, v.sends, router) && (v.sends != w.sends ==> router in v.holds)
  }

  ghost predicate AddedTo(before: seq<(Addr, string)>, after: seq<(Addr, string)>, router: Addr) {
    before <= after && forall i | |before| <= i < |after| :: after[i].0 == router
  }

  lemma {:induction false} SendAllTo(s: Session, router: Addr, m: seq<TableEntry>)
    requires router in s.w.holds
    ensures SentTo(s.w, SendAll(s, router, m).w, router) && SendAll(s, router, m).w.holds == s.w.holds
    decreases m
  {
    if m != [] && Tick(s).live {
      SendAllTo(Tick(s).(w := Registered(s.w, router, m[0])), router, m[1..]);
    }
  }

  lemma RegisterTableTo(s: Session, router: Addr, t: seq<TableEntry>)
    ensures SentTo(s.w, RegisterTable(s, router, t).w, router)
  {
    var r := Spend(s, |t|);
    if r.live && Tick(r).live && router in r.w.holds {
      SendAllTo(Tick(r), router, Missing(r.w, router, t));
    }
  }

  lemma ReconcileSends(s: Session, scope: Scope, router: Addr)
    ensures Reconcile(s, scope, router).w.sends == s.w.sends && Reconcile(s, scope, router).w.points == s.w.points
    ensures Reconcile(s, scope, router).w.code == s.w.code
  {
  }

  lemma SameSends(u: World, v: World, w: World, router: Addr)
    requires u.sends == v.sends && SentTo(v, w, router)
    ensures SentTo(u, w, router)
  {
  }

  lemma SetUpSends(s: Session, scope: Scope, treasury: Addr)
    ensures var router := if FeeRouter in s.record.contracts then s.record.contracts[FeeRouter] else s.w.next;
            SentTo(s.w, SetUp(s, scope, treasury).w, router)
  {
    var obtained := ObtainRouter(s, scope, treasury);
    Obtained(s, scope, treasury);
    if obtained.live {
      var router := obtained.record.contracts[FeeRouter];
      var saved := Reconcile(obtained, scope, router);
      ReconcileSends(obtained, scope, router);
      if saved.live {
        RegisterTableTo(saved, router, LAUNCH);
        SameSends(s.w, saved.w, RegisterTable(saved, router, LAUNCH).w, router);
      }
    }
  }

  /** Its new registrations go to the recorded router, or to the fresh one where none is recorded. */
  lemma FeeSends(w: World, net: Net, scope: Scope, fuel: nat, op: Operator)
    ensures var router := if Recorded(w, Shared, FeeRouter) then Address(w, Shared, FeeRouter) else w.next;
            SentTo(w, FeeRun(w, net, scope, fuel, op).w, router)
  {
    var s := Spend(Begin(w, fuel), 2);
    if s.live && (net.mainnet ==> op.confirmed) && w.file.Some? {
      SetUpSends(s.(record := w.file.value), scope, TreasuryFor(op, w.file.value));
    }
  }

  /** A fresh fee router pays into the treasury asked for; no other proxy's target changes. */
  lemma FeePoints(w: World, net: Net, scope: Scope, fuel: nat, op: Operator)
    requires Good(w)
    ensures var v := FeeRun(w, net, scope, fuel, op).w;
            && (v.log == w.log ==> v.points == w.points)
            && (v.log != w.log ==>
                  exists treasury :: PaysInto(w, op, treasury) && v.points == w.points[w.next := treasury])
  {
    var s := Spend(Begin(w, fuel), 2);
    if s.live && (net.mainnet ==> op.confirmed) && w.file.Some? {
      var treasury := TreasuryFor(op, w.file.value);
      assert PaysInto(w, op, treasury);
      var obtained := ObtainRouter(s.(record := w.file.value), scope, treasury);
      Obtained(s.(record := w.file.value), scope, treasury);
      if obtained.live {
        var router := obtained.record.contracts[FeeRouter];
        ReconcileSends(obtained, scope, router);
        Reconciled(obtained, scope, router);
        RegisterTableFrame(Reconcile(obtained, scope, router), router, LAUNCH);
      }
    }
  }

  // ---------------------------------------------------------------- the bridge and liquidity script

  /** The fee router the two routers charge through: the override, and only without one the recorded one. */
  ghost predicate ChargesThrough(w: World, override: Option<Addr>, feeRouter: Addr) {
    match override
    case Some(a) => feeRouter == a
    case None => Recorded(w, Shared, FeeRouter) && feeRouter == Address(w, Shared, FeeRouter)
  }

  /** Nothing changes without confirmation on a main network, a record, the guard, and addresses to go on with. */
  lemma BridgeChanges(w: World, net: Net, scope: Scope, fuel: nat, confirmed: bool, configured: Protocols,
                      probe: Probe, override: Option<Addr>)
    requires var t := BridgeRun(w, net, scope, fuel, confirmed, configured, probe, override); t.w != w || t.live
    ensures (net.mainnet ==> confirmed) && w.file.Some? && GuardHolds(net.chainId, configured, w.code, probe)
    ensures configured.spokePool.Some? || (net.local && configured.positionManager.None?)
  {
  }

  /** A main network without confirmation: neither script changes anything, and both exit 1. */
  lemma Unconfirmed(w: World, net: Net, scope: Scope, fuel: nat, op: Operator, configured: Protocols, probe: Probe,
                    override: Option<Addr>)
    requires net.mainnet && !op.confirmed
    ensures FeeRun(w, net, scope, fuel, op).w == w && !FeeRun(w, net, scope, fuel, op).live
    ensures var t := BridgeRun(w, net, scope, fuel, op.confirmed, configured, probe, override); t.w == w && !t.live
  {
  }

  /** What is kept or put up for k, once the run is past it. */
  ghost predicate PutUp(s: Session, t: Session, k: Key, target: Target) {
    t.w.sends == s.w.sends && k in t.record.contracts
    && var a := t.record.contracts[k];
       if k in s.record.contracts && s.record.contracts[k] in s.w.code then
         a == s.record.contracts[k] && t.w == s.w && t.record == s.record
       else
         && a == s.w.next && t.w.next == a + 2 && t.w.code == s.w.code + {a, a + 1}
         && t.w.points == s.w.points[a := target.points] && t.w.via == s.w.via[a := target.via]
         && t.w.slot == s.w.slot[a := a + 1]
         && t.record.contracts == s.record.contracts[k := a] && t.record.impls == s.record.impls[k := a + 1]
  }

  lemma EnsureRouterPutsUp(s: Session, scope: Scope, local: bool, k: Key, target: Target)
    requires s.live && EnsureRouter(s, scope, local, k, target).live
    ensures PutUp(s, EnsureRouter(s, scope, local, k, target), k, target)
  {
    if k !in s.record.contracts {
      DeployAndSavePutsUp(s, scope, k, target);
    } else if s.record.contracts[k] !in s.w.code {
      DeployAndSavePutsUp(Tick(s), scope, k, target);
    }
  }

  lemma DeployAndSavePutsUp(s: Session, scope: Scope, k: Key, target: Target)
    requires s.live && DeployAndSave(s, scope, k, target).live
    requires k !in s.record.contracts || s.record.contracts[k] !in s.w.code
    ensures PutUp(s, DeployAndSave(s, scope, k, target), k, target)
  {
  }

  /** Router k is the one of the record w, unchanged, or a fresh one that points and charges as asked. */
  ghost predicate Set(w: World, r: Record, v: World, saved: Record, k: Key, target: Target) {
    && k in saved.contracts
    && var a := saved.contracts[k];
       if k in r.contracts && r.contracts[k] in w.code then
         && a == r.contracts[k] && (a in w.points <==> a in v.points)
         && (a in w.points ==> v.points[a] == w.points[a])
       else
         && w.next <= a && a in v.points && v.points[a] == target.points && a in v.via && v.via[a] == target.via
         && a in v.slot && k in saved.impls && saved.impls[k] == v.slot[a]
  }

  lemma BothSet(s: Session, mid: Session, t: Session, bridge: Target, liquidity: Target)
    requires Bounded(s.record, s.w.next) && forall a | a in s.w.code :: a < s.w.next
    requires PutUp(s, mid, BridgeRouter, bridge) && PutUp(mid, t, LiquidityRouter, liquidity)
    ensures Set(s.w, s.record, t.w, t.record, BridgeRouter, bridge)
    ensures Set(s.w, s.record, t.w, t.record, LiquidityRouter, liquidity)
  {
  }

  lemma EnsureRoutersSet(s: Session, scope: Scope, local: bool, bridge: Target, liquidity: Target)
    requires s.live && EnsureRouters(s, scope, local, bridge, liquidity).live
    requires Bounded(s.record, s.w.next) && forall a | a in s.w.code :: a < s.w.next
    ensures var t := EnsureRouters(s, scope, local, bridge, liquidity);
            && Set(s.w, s.record, t.w, t.record, BridgeRouter, bridge)
            && Set(s.w, s.record, t.w, t.record, LiquidityRouter, liquidity)
            && t.w.sends == s.w.sends
  {
    var mid := EnsureRouter(s, scope, local, BridgeRouter, bridge);
    EnsureRouterPutsUp(s, scope, local, BridgeRouter, bridge);
    EnsureRouterPutsUp(mid, scope, local, LiquidityRouter, liquidity);
    BothSet(s, mid, EnsureRouter(mid, scope, local, LiquidityRouter, liquidity), bridge, liquidity);
  }

  /** The saved record says what the two routers point at. */
  ghost predicate SaysTargets(v: World, saved: Record) {
    && BridgeRouter in saved.contracts && LiquidityRouter in saved.contracts
    && var b, l := saved.contracts[BridgeRouter], saved.contracts[LiquidityRouter];
       && b in v.points && l in v.points && saved.spokePool == Some(v.points[b])
       && saved.positionManager == if v.points[l] == ZERO_ADDRESS then None else Some(v.points[l])
  }

  lemma {:induction false} RegisterMissingTo(s: Session, router: Addr, t: seq<TableEntry>)
    requires router in s.w.holds
    ensures SentTo(s.w, RegisterMissing(s, router, t).w, router) && RegisterMissing(s, router, t).w.holds == s.w.holds
    decreases t
  {
    if t != [] && Tick(s).live {
      var r := Tick(s);
      if (router, t[0].name) in r.w.services {
        RegisterMissingTo(r, router, t[1..]);
      } else if Tick(r).live {
        RegisterMissingTo(Tick(r).(w := Registered(r.w, router, t[0])), router, t[1..]);
      }
    }
  }

  lemma RecordLiveKeeps(s: Session, scope: Scope, b: Addr, l: Addr)
    ensures var t := RecordLiveValues(s, scope, b, l);
            && t.w == s.w.(file := t.w.file, tenants := t.w.tenants)
            && t.record == s.record.(spokePool := t.record.spokePool, positionManager := t.record.positionManager)
  {
  }

  lemma FinishSays(s: Session, scope: Scope, feeRouter: Addr)
    requires s.live
    ensures var t := Finish(s, scope, feeRouter);
            && SentTo(s.w, t.w, feeRouter)
            && (t.live ==> feeRouter in t.w.holds && Saved(t.w, scope).Some?)
            && (t.live ==>
                  var saved := Saved(t.w, scope).value;
                  && SaysTargets(t.w, saved) && saved.contracts == s.record.contracts && saved.impls == s.record.impls
                  && t.w.points == s.w.points && t.w.via == s.w.via && t.w.slot == s.w.slot)
  {
    if BridgeRouter in s.record.contracts && LiquidityRouter in s.record.contracts {
      var b, l := s.record.contracts[BridgeRouter], s.record.contracts[LiquidityRouter];
      var t := RecordLiveValues(s, scope, b, l);
      RecordLiveResult(s, scope, b, l);
      RecordLiveKeeps(s, scope, b, l);
      if t.live && Tick(t).live && feeRouter in t.w.holds {
        RegisterMissingTo(Tick(t), feeRouter, BRIDGE);
        RegisterMissingFrame(Tick(t), feeRouter, BRIDGE);
      }
    }
  }

  /** What the saved record and the chain say of the two routers after a run that exits 0. */
  ghost predicate SetUpAs(w: World, v: World, scope: Scope, spokePool: Addr, manager: Option<Addr>, feeRouter: Addr) {
    && Saved(v, scope).Some? && w.file.Some?
    && var saved, liquidity := Saved(v, scope).value, if manager.Some? then manager.value else ZERO_ADDRESS;
       && SaysTargets(v, saved)
       && Set(w, w.file.value, v, saved, BridgeRouter, Target(spokePool, feeRouter))
       && Set(w, w.file.value, v, saved, LiquidityRouter, Target(liquidity, feeRouter))
  }

  lemma InstallSets(s: Session, scope: Scope, local: bool, feeRouter: Addr, spokePool: Addr, manager: Option<Addr>)
    requires s.live && s.w.file == Some(s.record)
    requires Bounded(s.record, s.w.next) && forall a | a in s.w.code :: a < s.w.next
    ensures var t := Install(s, scope, local, feeRouter, spokePool, manager);
            t.live ==> SetUpAs(s.w, t.w, scope, spokePool, manager, feeRouter) && feeRouter in t.w.holds
  {
    var bridge, liquidity := Target(spokePool, feeRouter), LiquidityTarget(manager, feeRouter);
    var t := EnsureRouters(s, scope, local, bridge, liquidity);
    if t.live {
      EnsureRoutersSet(s, scope, local, bridge, liquidity);
      FinishSays(t, scope, feeRouter);
    }
  }

  lemma SetBefore(w: World, u: World, r: Record, v: World, saved: Record, k: Key, target: Target)
    requires Bounded(r, w.next) && u == w.(code := u.code, next := u.next) && w.next <= u.next
    requires forall a | a < w.next :: a in u.code <==> a in w.code
    requires Set(u, r, v, saved, k, target)
    ensures Set(w, r, v, saved, k, target)
  {
  }

  lemma CheckedChooses(w: World, net: Net, fuel: nat, confirmed: bool, configured: Protocols, probe: Probe)
    requires Good(w) && CheckedProtocols(w, net, fuel, confirmed, configured, probe).0.live
    ensures var c := CheckedProtocols(w, net, fuel, confirmed, configured, probe);
            && w.file == Some(c.0.record) && c.0.w == w.(code := c.0.w.code, next := c.0.w.next)
            && c.1 == Chosen(w, c.0.record, net.local, configured)
            && GuardHolds(net.chainId, c.1, c.0.w.code, probe)
            && w.next <= c.0.w.next && (forall a | a < w.next :: a in c.0.w.code <==> a in w.code)
            && (forall a | a in c.0.w.code :: a < c.0.w.next)
  {
    if configured.spokePool.None? && configured.positionManager.None? {
      DoublesChoose(Tick(Begin(w, fuel)).(record := w.file.value), configured);
    }
  }

  lemma DoublesChoose(s: Session, configured: Protocols)
    requires configured.spokePool.None? && configured.positionManager.None? && LocalDoubles(s).0.live
    requires forall a | a in s.w.code :: a < s.w.next
    ensures var d := LocalDoubles(s);
            && d.1 == Chosen(s.w, s.record, true, configured)
            && d.0.w == s.w.(code := d.0.w.code, next := d.0.w.next) && d.0.record == s.record
            && s.w.next <= d.0.w.next && (forall a | a < s.w.next :: a in d.0.w.code <==> a in s.w.code)
            && (forall a | a in d.0.w.code :: a < d.0.w.next)
  {
  }

  /**
   * Exit code 0: a router the shared record lacked, or that a local network had lost, points at the
   * protocol address the run went by; one that was kept points where it did; the saved record says what
   * both point at; and the deployer administers the fee router they charge through.
   */
  lemma BridgePoints(w: World, net: Net, scope: Scope, fuel: nat, confirmed: bool, configured: Protocols,
                     probe: Probe, override: Option<Addr>) returns (p: Protocols, feeRouter: Addr)
    requires Good(w) && BridgeRun(w, net, scope, fuel, confirmed, configured, probe, override).live
    ensures w.file.Some? && p == Chosen(w, w.file.value, net.local, configured) && p.spokePool.Some?
    ensures ChargesThrough(w, override, feeRouter) && ChosenFeeRouter(w.file.value, override) == Some(feeRouter)
    ensures var v := BridgeRun(w, net, scope, fuel, confirmed, configured, probe, override).w;
            SetUpAs(w, v, scope, p.spokePool.value, p.positionManager, feeRouter) && feeRouter in v.holds
  {
    var c := CheckedProtocols(w, net, fuel, confirmed, configured, probe);
    CheckedChooses(w, net, fuel, confirmed, configured, probe);
    p := c.1;
    feeRouter := ProceedSets(c.0, scope, net.local, override, p);
    SetUpBefore(w, c.0.w, Proceed(c.0, scope, net.local, override, p).w, scope, p, feeRouter);
  }

  lemma ProceedSets(s: Session, scope: Scope, local: bool, override: Option<Addr>, p: Protocols)
    returns (feeRouter: Addr)
    requires s.w.file == Some(s.record) && Proceed(s, scope, local, override, p).live
    requires Bounded(s.record, s.w.next) && forall a | a in s.w.code :: a < s.w.next
    ensures p.spokePool.Some? && ChargesThrough(s.w, override, feeRouter)
    ensures ChosenFeeRouter(s.record, override) == Some(feeRouter)
    ensures var v := Proceed(s, scope, local, override, p).w;
            SetUpAs(s.w, v, scope, p.spokePool.value, p.positionManager, feeRouter) && feeRouter in v.holds
  {
    feeRouter := ChosenFeeRouter(s.record, override).value;
    InstallSets(Tick(s), scope, local, feeRouter, p.spokePool.value, p.positionManager);
  }

  lemma SetUpBefore(w: World, u: World, v: World, scope: Scope, p: Protocols, feeRouter: Addr)
    requires w.file.Some? && Bounded(w.file.value, w.next) && p.spokePool.Some?
    requires u == w.(code := u.code, next := u.next) && w.next <= u.next
    requires forall a | a < w.next :: a in u.code <==> a in w.code
    requires SetUpAs(u, v, scope, p.spokePool.value, p.positionManager, feeRouter)
    ensures SetUpAs(w, v, scope, p.spokePool.value, p.positionManager, feeRouter)
  {
    var saved := Saved(v, scope).value;
    var liquidity := if p.positionManager.Some? then p.positionManager.value else ZERO_ADDRESS;
    SetBefore(w, u, w.file.value, v, saved, BridgeRouter, Target(p.spokePool.value, feeRouter));
    SetBefore(w, u, w.file.value, v, saved, LiquidityRouter, Target(liquidity, feeRouter));
  }

  /** After a first run the saved record holds what was configured. */
  lemma FirstRunRecords(w: World, v: World, scope: Scope, spokePool: Addr, manager: Option<Addr>, feeRouter: Addr)
    requires SetUpAs(w, v, scope, spokePool, manager, feeRouter)
    requires !Recorded(w, Shared, BridgeRouter) && !Recorded(w, Shared, LiquidityRouter)
    ensures Saved(v, scope).value.spokePool == Some(spokePool)
    ensures Saved(v, scope).value.positionManager == if manager == Some(ZERO_ADDRESS) then None else manager
  {
  }

  lemma ProceedSends(s: Session, scope: Scope, local: bool, override: Option<Addr>, p: Protocols)
    ensures var r, t := ChosenFeeRouter(s.record, override), Proceed(s, scope, local, override, p);
            if r.Some? then SentTo(s.w, t.w, r.value) else t.w == s.w
  {
    var r := ChosenFeeRouter(s.record, override);
    if Tick(s).live && r.Some? && r.value in s.w.code && p.spokePool.Some? {
      InstallSends(Tick(s), scope, local, r.value, p.spokePool.value, p.positionManager);
    }
  }

  /** Its new registrations go to the fee router the routers charge through. */
  lemma BridgeSends(w: World, net: Net, scope: Scope, fuel: nat, confirmed: bool, configured: Protocols,
                    probe: Probe, override: Option<Addr>)
    ensures var v := BridgeRun(w, net, scope, fuel, confirmed, configured, probe, override).w;
            v.sends == w.sends || exists feeRouter :: ChargesThrough(w, override, feeRouter) && SentTo(w, v, feeRouter)
  {
    var c := CheckedProtocols(w, net, fuel, confirmed, configured, probe);
    CheckedFrame(w, net, fuel, confirmed, configured, probe);
    if c.0.live && c.1.spokePool.Some? {
      var r := ChosenFeeRouter(c.0.record, override);
      ProceedSends(c.0, scope, net.local, override, c.1);
      if r.Some? {
        assert ChargesThrough(w, override, r.value);
        SameSends(w, c.0.w, Proceed(c.0, scope, net.local, override, c.1).w, r.value);
      }
    }
  }

  lemma EnsureRouterSends(s: Session, scope: Scope, local: bool, k: Key, target: Target)
    ensures EnsureRouter(s, scope, local, k, target).w.sends == s.w.sends
  {
  }

  lemma InstallSends(s: Session, scope: Scope, local: bool, feeRouter: Addr, spokePool: Addr, manager: Option<Addr>)
    requires s.live
    ensures SentTo(s.w, Install(s, scope, local, feeRouter, spokePool, manager).w, feeRouter)
  {
    var bridge, liquidity := Target(spokePool, feeRouter), LiquidityTarget(manager, feeRouter);
    var mid := EnsureRouter(s, scope, local, BridgeRouter, bridge);
    EnsureRouterSends(s, scope, local, BridgeRouter, bridge);
    EnsureRouterSends(mid, scope, local, LiquidityRouter, liquidity);
    var t := EnsureRouters(s, scope, local, bridge, liquidity);
    if t.live {
      FinishSays(t, scope, feeRouter);
    }
  }

  // ---------------------------------------------------------------- no proxy but the last is unrecorded

  /** The proxies a run deployed are recorded for its scope, the last one at least if the run went on. */
  ghost predicate Keeping(before: seq<Proxy>, t: Session, scope: Scope) {
    && before <= t.w.log
    && forall i | |before| <= i < |t.w.log| && (i < |t.w.log| - 1 || t.live) ::
         Recorded(t.w, scope, t.w.log[i].key) && Address(t.w, scope, t.w.log[i].key) == t.w.log[i].address
  }

  /** As long as the run is live and has deployed anything, the saved record is the one in memory. */
  ghost predicate InStep(before: seq<Proxy>, t: Session, scope: Scope) {
    Keeping(before, t, scope) && (t.live && t.w.log != before ==> Saved(t.w, scope) == Some(t.record))
  }

  lemma EnsureRouterSaves(before: seq<Proxy>, s: Session, scope: Scope, local: bool, k: Key, target: Target)
    requires s.live && !scope.Malformed? && InStep(before, s, scope)
    requires forall i | |before| <= i < |s.w.log| :: s.w.log[i].key != k
    ensures InStep(before, EnsureRouter(s, scope, local, k, target), scope)
    ensures var t := EnsureRouter(s, scope, local, k, target);
            t.w.log == s.w.log || t.w.log == s.w.log + [Proxy(scope, k, s.w.next)]
  {
    if k !in s.record.contracts {
      DeployAndSaveSaves(before, s, scope, k, target);
    } else if Tick(s).live && s.record.contracts[k] !in s.w.code && local {
      DeployAndSaveSaves(before, Tick(s), scope, k, target);
    }
  }

  lemma DeployAndSaveSaves(before: seq<Proxy>, s: Session, scope: Scope, k: Key, target: Target)
    requires s.live && !scope.Malformed? && InStep(before, s, scope)
    requires forall i | |before| <= i < |s.w.log| :: s.w.log[i].key != k
    ensures InStep(before, DeployAndSave(s, scope, k, target), scope)
    ensures var t := DeployAndSave(s, scope, k, target);
            t.w.log == s.w.log || t.w.log == s.w.log + [Proxy(scope, k, s.w.next)]
  {
    if Tick(s).live {
      var u := Noted(s, scope, k, target);
      assert u.w.log == s.w.log + [Proxy(scope, k, s.w.next)];
      assert Saved(u.w, scope) == Saved(s.w, scope);
      if Tick(u).live {
        SavedAll(before, s, Save(u, scope), scope, k);
      }
    }
  }

  lemma SavedAll(before: seq<Proxy>, s: Session, t: Session, scope: Scope, k: Key)
    requires s.live && InStep(before, s, scope) && Saved(t.w, scope) == Some(t.record)
    requires t.w.log == s.w.log + [Proxy(scope, k, s.w.next)]
    requires t.record.contracts == s.record.contracts[k := s.w.next]
    requires forall i | |before| <= i < |s.w.log| :: s.w.log[i].key != k
    ensures InStep(before, t, scope)
  {
  }

  lemma EnsureRoutersSave(s: Session, scope: Scope, local: bool, bridge: Target, liquidity: Target)
    requires s.live && !scope.Malformed?
    ensures InStep(s.w.log, EnsureRouters(s, scope, local, bridge, liquidity), scope)
  {
    var mid := EnsureRouter(s, scope, local, BridgeRouter, bridge);
    EnsureRouterSaves(s.w.log, s, scope, local, BridgeRouter, bridge);
    if mid.live {
      EnsureRouterSaves(s.w.log, mid, scope, local, LiquidityRouter, liquidity);
    }
  }

  lemma FinishKeepsSaving(before: seq<Proxy>, s: Session, scope: Scope, feeRouter: Addr)
    requires s.live && !scope.Malformed? && InStep(before, s, scope)
    ensures Keeping(before, Finish(s, scope, feeRouter), scope)
  {
    if BridgeRouter in s.record.contracts && LiquidityRouter in s.record.contracts {
      var b, l := s.record.contracts[BridgeRouter], s.record.contracts[LiquidityRouter];
      var t := RecordLiveValues(s, scope, b, l);
      RecordLiveSaves(before, s, scope, b, l);
      if t.live && Tick(t).live && feeRouter in t.w.holds {
        RegisterMissingFrame(Tick(t), feeRouter, BRIDGE);
      }
    }
  }

  lemma RecordLiveSlot(s: Session, scope: Scope, b: Addr, l: Addr)
    ensures var t := RecordLiveValues(s, scope, b, l);
            && t.w.log == s.w.log && t.record.contracts == s.record.contracts
            && (Saved(t.w, scope) == Saved(s.w, scope) || Saved(t.w, scope) == Some(t.record))
  {
  }

  lemma RecordLiveSaves(before: seq<Proxy>, s: Session, scope: Scope, b: Addr, l: Addr)
    requires s.live && InStep(before, s, scope)
    ensures var t := RecordLiveValues(s, scope, b, l);
            && t.w.log == s.w.log
            && forall i | |before| <= i < |t.w.log| ::
                 Recorded(t.w, scope, t.w.log[i].key) && Address(t.w, scope, t.w.log[i].key) == t.w.log[i].address
  {
    RecordLiveSlot(s, scope, b, l);
    StillSaved(before, s, RecordLiveValues(s, scope, b, l), scope);
  }

  lemma StillSaved(before: seq<Proxy>, s: Session, t: Session, scope: Scope)
    requires s.live && InStep(before, s, scope)
    requires t.w.log == s.w.log && t.record.contracts == s.record.contracts
    requires Saved(t.w, scope) == Saved(s.w, scope) || Saved(t.w, scope) == Some(t.record)
    ensures forall i | |before| <= i < |t.w.log| ::
              Recorded(t.w, scope, t.w.log[i].key) && Address(t.w, scope, t.w.log[i].key) == t.w.log[i].address
  {
  }

  /**
   * Wherever a run of the bridge and liquidity script stops, every proxy it deployed is recorded, except
   * possibly the one it had just deployed.
   */
  lemma BridgeSavesEach(w: World, net: Net, scope: Scope, fuel: nat, confirmed: bool, configured: Protocols,
                        probe: Probe, override: Option<Addr>)
    requires !scope.Malformed?
    ensures Keeping(w.log, BridgeRun(w, net, scope, fuel, confirmed, configured, probe, override), scope)
  {
    var c := CheckedProtocols(w, net, fuel, confirmed, configured, probe);
    CheckedFrame(w, net, fuel, confirmed, configured, probe);
    if c.0.live && c.1.spokePool.Some? {
      var r, s := ChosenFeeRouter(c.0.record, override), Tick(c.0);
      if s.live && r.Some? && r.value in s.w.code {
        InstallSavesEach(s, scope, net.local, r.value, c.1.spokePool.value, c.1.positionManager);
      }
    }
  }

  lemma InstallSavesEach(s: Session, scope: Scope, local: bool, feeRouter: Addr, spokePool: Addr, manager: Option<Addr>)
    requires s.live && !scope.Malformed?
    ensures Keeping(s.w.log, Install(s, scope, local, feeRouter, spokePool, manager), scope)
  {
    var bridge, liquidity := Target(spokePool, feeRouter), LiquidityTarget(manager, feeRouter);
    var t := EnsureRouters(s, scope, local, bridge, liquidity);
    EnsureRoutersSave(s, scope, local, bridge, liquidity);
    if t.live {
      FinishKeepsSaving(s.w.log, t, scope, feeRouter);
    }
  }
}
