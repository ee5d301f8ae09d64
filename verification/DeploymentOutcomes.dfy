/** What one run of a deployment script achieves: what exit code 0 means, and when a run gets there. */
module DeploymentOutcomes {
  import opened Deployment
  import opened DeploymentRuns
  import opened Results

  // ---------------------------------------------------------------- registration

  lemma TableCons(w: World, router: Addr, t: seq<TableEntry>, e: TableEntry, rest: seq<TableEntry>)
    requires t == [e] + rest
    ensures AllPresent(w, router, t) <==> (router, e.name) in w.services && AllPresent(w, router, rest)
    ensures Live(w, router, t) <==>
            (router, e.name) in w.services && w.services[(router, e.name)] == e.service && Live(w, router, rest)
    ensures Undrifted(w, router, t) <==>
            ((router, e.name) in w.services ==> w.services[(router, e.name)] == e.service) && Undrifted(w, router, rest)
  {
    assert e in t && forall x | x in rest :: x in t;
  }

  ghost predicate KeepsServices(w: World, v: World) {
    forall r | r in w.services :: r in v.services && v.services[r] == w.services[r]
  }

  ghost predicate NoneThere(w: World, router: Addr, t: seq<TableEntry>) {
    forall e | e in t :: (router, e.name) !in w.services
  }

  lemma DistinctTail(t: seq<TableEntry>)
    requires t != [] && DistinctNames(t)
    ensures t == [t[0]] + t[1..] && DistinctNames(t[1..]) && forall e | e in t[1..] :: e.name != t[0].name
  {
  }

  lemma SentStep(w: World, u: World, v: World, router: Addr, e: TableEntry, rest: seq<TableEntry>)
    requires u == Registered(w, router, e) && KeepsServices(u, v) && (router, e.name) !in w.services
    ensures Live(v, router, rest) ==> Live(v, router, [e] + rest)
    ensures KeepsServices(w, v)
  {
    assert (router, e.name) in u.services;
    TableCons(v, router, [e] + rest, e, rest);
  }

  lemma {:induction false} SendAllResult(s: Session, router: Addr, m: seq<TableEntry>)
    requires s.live && DistinctNames(m) && NoneThere(s.w, router, m)
    ensures s.fuel >= |m| ==> SendAll(s, router, m).live
    ensures SendAll(s, router, m).live ==> Live(SendAll(s, router, m).w, router, m)
    ensures KeepsServices(s.w, SendAll(s, router, m).w)
    decreases m
  {
    if m != [] && Tick(s).live {
      var u, rest := Tick(s).(w := Registered(s.w, router, m[0])), m[1..];
      DistinctTail(m);
      assert NoneThere(u.w, router, rest);
      SendAllResult(u, router, rest);
      SentStep(s.w, u.w, SendAll(u, router, rest).w, router, m[0], rest);
    }
  }

  /** The table ends up live as listed if it gets through. */
  lemma RegisterTableLive(s: Session, router: Addr, t: seq<TableEntry>)
    requires s.live && DistinctNames(t) && RegisterTable(s, router, t).live
    ensures Live(RegisterTable(s, router, t).w, router, t)
  {
    var m, read := Missing(s.w, router, t), Spend(s, |t|);
    MissingFacts(s.w, router, t);
    if m != [] {
      SendAllResult(Tick(read), router, m);
    }
    forall e | e in t
      ensures var v := RegisterTable(s, router, t).w;
              (router, e.name) in v.services && v.services[(router, e.name)] == e.service
    {
      assert e in m || (router, e.name) in s.w.services;
    }
  }

  /** What stops it is lost steps, a lost role or drift. */
  lemma RegisterTableConverges(s: Session, router: Addr, t: seq<TableEntry>)
    requires s.live && DistinctNames(t) && s.fuel > 2 * |t| && (router in s.w.holds || AllPresent(s.w, router, t))
    ensures AllPresent(RegisterTable(s, router, t).w, router, t)
    ensures RegisterTable(s, router, t).live <==> Undrifted(s.w, router, t)
  {
    var m, read := Missing(s.w, router, t), Spend(s, |t|);
    MissingFacts(s.w, router, t);
    if m != [] {
      assert m[0] in m;
      SendAllResult(Tick(read), router, m);
    }
    assert forall e | e in t :: e in m || (router, e.name) in s.w.services;
  }

  // ---------------------------------------------------------------- the fee router script

  /** The recorded implementation is the one the proxy points at. */
  predicate ImplReconciled(w: World, s: Scope, k: Key) {
    && Recorded(w, s, k) && Address(w, s, k) in w.slot && k in Saved(w, s).value.impls
    && Saved(w, s).value.impls[k] == w.slot[Address(w, s, k)]
  }

  /** A state the fee router script can finish from: what is recorded is really there, and administrable. */
  ghost predicate Resumable(w: World) {
    && w.file.Some?
    && (Recorded(w, Shared, FeeRouter) ==>
          var r := Address(w, Shared, FeeRouter);
          r in w.code && r in w.slot && (r in w.holds || AllPresent(w, r, LAUNCH)))
  }

  /** The saved record after a successful reconciliation, and a router that is the one it names. */
  lemma Reconciled(s: Session, scope: Scope, router: Addr)
    requires FeeRouter in s.record.contracts && s.record.contracts[FeeRouter] == router
    ensures var t := Reconcile(s, scope, router);
            && (t.live ==> ImplReconciled(t.w, scope, FeeRouter) && Address(t.w, scope, FeeRouter) == router)
            && t.w.services == s.w.services && t.w.holds == s.w.holds && t.w.slot == s.w.slot && t.w.log == s.w.log
            && (s.live && s.fuel > 1 && !scope.Malformed? && router in s.w.slot ==> t.live && t.fuel == s.fuel - 2)
  {
  }

  lemma Obtained(s: Session, scope: Scope, treasury: Addr)
    ensures var t := ObtainRouter(s, scope, treasury);
            && (t.live ==>
                  && FeeRouter in t.record.contracts
                  && t.record.contracts[FeeRouter]
                     == if FeeRouter in s.record.contracts then s.record.contracts[FeeRouter] else s.w.next)
            && (FeeRouter in s.record.contracts ==> t.w == s.w)
            && (FeeRouter !in s.record.contracts ==>
                  t.w == s.w || t.w == Deployed(s.w, scope, FeeRouter, Target(treasury, ZERO_ADDRESS)))
  {
  }

  lemma SetUpExits(s: Session, scope: Scope, treasury: Addr)
    requires SetUp(s, scope, treasury).live
    ensures var v, r := SetUp(s, scope, treasury).w, s.record;
            && ImplReconciled(v, scope, FeeRouter) && Live(v, Address(v, scope, FeeRouter), LAUNCH)
            && Address(v, scope, FeeRouter) == (if FeeRouter in r.contracts then r.contracts[FeeRouter] else s.w.next)
            && Address(v, scope, FeeRouter) in v.code
  {
    var obtained := ObtainRouter(s, scope, treasury);
    Obtained(s, scope, treasury);
    var router := obtained.record.contracts[FeeRouter];
    var saved := Reconcile(obtained, scope, router);
    Reconciled(obtained, scope, router);
    TablesAreDistinct();
    RegisterTableLive(saved, router, LAUNCH);
    RegisterTableFrame(saved, router, LAUNCH);
  }

  /** Exit code 0: the router of this scope is recorded, reconciled, and every launch service is live as listed. */
  lemma FeeExits(w: World, net: Net, scope: Scope, fuel: nat, op: Operator)
    requires FeeRun(w, net, scope, fuel, op).live
    ensures var v := FeeRun(w, net, scope, fuel, op).w;
            && ImplReconciled(v, scope, FeeRouter) && Live(v, Address(v, scope, FeeRouter), LAUNCH)
            && Address(v, scope, FeeRouter)
               == (if Recorded(w, Shared, FeeRouter) then Address(w, Shared, FeeRouter) else w.next)
            && Address(v, scope, FeeRouter) in v.code
  {
    SetUpExits(Spend(Begin(w, fuel), 2).(record := w.file.value), scope, TreasuryFor(op, w.file.value));
  }

  lemma SetUpConverges(s: Session, scope: Scope, treasury: Addr)
    requires s.live && s.fuel > 2 * |LAUNCH| + 3 && !scope.Malformed? && s.w.file == Some(s.record) && Resumable(s.w)
    requires forall x | x in s.w.services :: x.0 < s.w.next
    ensures var t := SetUp(s, scope, treasury);
            && Recorded(t.w, scope, FeeRouter) && AllPresent(t.w, Address(t.w, scope, FeeRouter), LAUNCH)
            && (t.live <==> (FeeRouter in s.record.contracts ==> Undrifted(s.w, s.record.contracts[FeeRouter], LAUNCH)))
  {
    var obtained := ObtainRouter(s, scope, treasury);
    Obtained(s, scope, treasury);
    assert Recorded(s.w, Shared, FeeRouter) <==> FeeRouter in s.record.contracts;
    var router := obtained.record.contracts[FeeRouter];
    assert router in obtained.w.slot && (router in obtained.w.holds || AllPresent(obtained.w, router, LAUNCH));
    var saved := Reconcile(obtained, scope, router);
    Reconciled(obtained, scope, router);
    TablesAreDistinct();
    RegisterTableConverges(saved, router, LAUNCH);
    RegisterTableFrame(saved, router, LAUNCH);
  }

  /** Convergence: with enough steps nothing is missing, and the exit code tells whether anything had drifted. */
  lemma FeeConverges(w: World, net: Net, scope: Scope, fuel: nat, op: Operator)
    requires fuel > 2 * |LAUNCH| + 5 && (net.mainnet ==> op.confirmed) && !scope.Malformed? && Resumable(w)
    requires forall s | s in w.services :: s.0 < w.next
    ensures var v := FeeRun(w, net, scope, fuel, op);
            && Recorded(v.w, scope, FeeRouter) && AllPresent(v.w, Address(v.w, scope, FeeRouter), LAUNCH)
            && (v.live <==> (Recorded(w, Shared, FeeRouter) ==> Undrifted(w, Address(w, Shared, FeeRouter), LAUNCH)))
  {
    SetUpConverges(Spend(Begin(w, fuel), 2).(record := w.file.value), scope, TreasuryFor(op, w.file.value));
  }

  /** At most one proxy, and only where the shared record has none. */
  lemma FeeDeploysOnce(w: World, net: Net, scope: Scope, fuel: nat, op: Operator)
    ensures var log := FeeRun(w, net, scope, fuel, op).w.log;
            log == w.log || (!Recorded(w, Shared, FeeRouter) && log == w.log + [Proxy(scope, FeeRouter, w.next)])
  {
    var s := Spend(Begin(w, fuel), 2);
    if s.live && (net.mainnet ==> op.confirmed) && w.file.Some? {
      var obtained := ObtainRouter(s.(record := w.file.value), scope, TreasuryFor(op, w.file.value));
      if obtained.live {
        var router := obtained.record.contracts[FeeRouter];
        Reconciled(obtained, scope, router);
        RegisterTableFrame(Reconcile(obtained, scope, router), router, LAUNCH);
      }
    }
  }

  // ---------------------------------------------------------------- the bridge and liquidity script

  lemma {:induction false} RegisterMissingFrame(s: Session, router: Addr, t: seq<TableEntry>)
    ensures var r := RegisterMissing(s, router, t);
            && r.w == s.w.(services := r.w.services, sends := r.w.sends) && r.record == s.record
            && KeepsServices(s.w, r.w)
            && (s.live && s.fuel >= 2 * |t| ==> r.live)
    decreases t
  {
    if t != [] && Tick(s).live {
      var r := Tick(s);
      if (router, t[0].name) in r.w.services {
        RegisterMissingFrame(r, router, t[1..]);
      } else if Tick(r).live {
        RegisterMissingFrame(Tick(r).(w := Registered(r.w, router, t[0])), router, t[1..]);
      }
    }
  }

  /** One entry registered or found, the rest done against the table as it was then. */
  lemma RegisterStep(before: World, mid: World, after: World, router: Addr, e: TableEntry, rest: seq<TableEntry>)
    requires mid == if (router, e.name) in before.services then before else Registered(before, router, e)
    requires KeepsServices(mid, after) && forall x | x in rest :: x.name != e.name
    requires AllPresent(after, router, rest) && (Live(after, router, rest) <==> Undrifted(mid, router, rest))
    ensures AllPresent(after, router, [e] + rest)
    ensures Live(after, router, [e] + rest) <==> Undrifted(before, router, [e] + rest)
  {
    TableCons(after, router, [e] + rest, e, rest);
    TableCons(before, router, [e] + rest, e, rest);
    assert Undrifted(mid, router, rest) <==> Undrifted(before, router, rest);
  }

  /** Every entry ends up present, and live as listed exactly when none had drifted. */
  lemma {:induction false} RegisterMissingResult(s: Session, router: Addr, t: seq<TableEntry>)
    requires DistinctNames(t) && RegisterMissing(s, router, t).live
    ensures AllPresent(RegisterMissing(s, router, t).w, router, t)
    ensures Live(RegisterMissing(s, router, t).w, router, t) <==> Undrifted(s.w, router, t)
    decreases t
  {
    if t != [] {
      var r, v, rest := Tick(s), RegisterMissing(s, router, t).w, t[1..];
      var u := if (router, t[0].name) in s.w.services then r else Tick(r).(w := Registered(r.w, router, t[0]));
      DistinctTail(t);
      RegisterMissingResult(u, router, rest);
      RegisterMissingFrame(u, router, rest);
      RegisterStep(s.w, u.w, v, router, t[0], rest);
    }
  }

  /** A router in the record in memory is really there. */
  predicate There(s: Session, k: Key) {
    k in s.record.contracts ==> s.record.contracts[k] in s.w.code && s.record.contracts[k] in s.w.points
  }

  /** What keeping or deploying one router comes to. */
  ghost predicate Ensured(s: Session, t: Session, scope: Scope, k: Key) {
    && (t.w.log == s.w.log || t.w.log == s.w.log + [Proxy(scope, k, s.w.next)])
    && t.w.services == s.w.services && s.w.holds <= t.w.holds && s.w.code <= t.w.code
    && (t.live ==> k in t.record.contracts && t.record.contracts[k] in t.w.code && (There(s, k) ==> There(t, k)))
    && (forall j | j != k && j in s.record.contracts ::
          j in t.record.contracts && t.record.contracts[j] == s.record.contracts[j])
    && (forall j | j != k && There(s, j) :: There(t, j))
    && s.fuel <= t.fuel + 3
  }

  lemma DeployAndSaveResult(s: Session, scope: Scope, k: Key, target: Target)
    requires s.live
    ensures var t := DeployAndSave(s, scope, k, target);
            && Ensured(s, t, scope, k) && s.fuel <= t.fuel + 2
            && (s.fuel > 1 && !scope.Malformed? ==> t.live)
            && (t.live ==> There(t, k))
  {
    var t := DeployAndSave(s, scope, k, target);
    if Tick(s).live {
      assert t.record.contracts == s.record.contracts[k := s.w.next];
      assert t.w.code == s.w.code + {s.w.next, s.w.next + 1} && t.w.points == s.w.points[s.w.next := target.points];
    }
  }

  lemma EnsureRouterResult(s: Session, scope: Scope, local: bool, k: Key, target: Target)
    requires s.live
    ensures Ensured(s, EnsureRouter(s, scope, local, k, target), scope, k)
    ensures s.fuel > 2 && !scope.Malformed? && There(s, k) ==> EnsureRouter(s, scope, local, k, target).live
  {
    if k !in s.record.contracts {
      DeployAndSaveResult(s, scope, k, target);
    } else if Tick(s).live && s.record.contracts[k] !in s.w.code && local {
      DeployAndSaveResult(Tick(s), scope, k, target);
    }
  }

  /**
   * When a recorded address gives way: only on a local network, only if it carries no code, and only
   * once the new proxy is deployed and saved.
   */
  lemma ReplacedExactly(s: Session, scope: Scope, local: bool, k: Key, target: Target)
    requires s.live && Saved(s.w, scope) == Some(s.record)
             && k in s.record.contracts && s.record.contracts[k] < s.w.next
    ensures var v := EnsureRouter(s, scope, local, k, target).w;
            && Recorded(v, scope, k)
            && (Address(v, scope, k) != s.record.contracts[k] <==>
                  local && s.record.contracts[k] !in s.w.code && s.fuel > 2)
            && (Address(v, scope, k) != s.record.contracts[k] ==> Address(v, scope, k) == s.w.next)
  {
    if Tick(s).live && s.record.contracts[k] !in s.w.code && local {
      ReplacedBySave(Tick(s), scope, k, target);
    }
  }

  /** The saved record has the new address once the save is reached, and is as it was until then. */
  lemma ReplacedBySave(s: Session, scope: Scope, k: Key, target: Target)
    requires s.live && !scope.Malformed?
    ensures var v := DeployAndSave(s, scope, k, target).w;
            && (s.fuel > 1 ==> Recorded(v, scope, k) && Address(v, scope, k) == s.w.next)
            && (s.fuel <= 1 ==> Saved(v, scope) == Saved(s.w, scope))
  {
    if s.fuel > 1 {
      var u := Noted(s, scope, k, target);
      assert Save(u, scope).w == Store(u.w, scope, u.record);
    }
  }

  lemma RecordLiveResult(s: Session, scope: Scope, b: Addr, l: Addr)
    ensures var t := RecordLiveValues(s, scope, b, l);
            && t.w == s.w.(file := t.w.file, tenants := t.w.tenants) && t.record.contracts == s.record.contracts
            && (t.live ==>
                  && b in s.w.points && l in s.w.points && Saved(t.w, scope) == Some(t.record)
                  && t.record.spokePool == Some(s.w.points[b])
                  && t.record.positionManager == if s.w.points[l] == ZERO_ADDRESS then None else Some(s.w.points[l]))
            && (s.live && s.fuel > 2 && !scope.Malformed? && b in s.w.points && l in s.w.points ==>
                  t.live && t.fuel == s.fuel - 3)
  {
  }

  /** What a bridge run that exits 0 has reached. */
  ghost predicate BridgeDone(w: World, scope: Scope, feeRouter: Option<Addr>) {
    && Recorded(w, scope, BridgeRouter) && Recorded(w, scope, LiquidityRouter)
    && Address(w, scope, BridgeRouter) in w.code && Address(w, scope, LiquidityRouter) in w.code
    && feeRouter.Some? && feeRouter.value in w.code && AllPresent(w, feeRouter.value, BRIDGE)
  }

  /** At most one proxy for each of the two keys. */
  ghost predicate DeployedOnce(before: seq<Proxy>, after: seq<Proxy>, scope: Scope) {
    forall s, k :: Deploys(after, s, k) <= Deploys(before, s, k) + if s == scope && k != FeeRouter then 1 else 0
  }

  lemma LogGrows(before: seq<Proxy>, after: seq<Proxy>, scope: Scope, k: Key, a: Addr, s: Scope, j: Key)
    requires after == before || after == before + [Proxy(scope, k, a)]
    ensures Deploys(after, s, j) <= Deploys(before, s, j) + if s == scope && j == k then 1 else 0
  {
    OneMore(before, Proxy(scope, k, a), s, j);
  }

  lemma TwoProxies(before: seq<Proxy>, mid: seq<Proxy>, after: seq<Proxy>, scope: Scope, a: Addr, b: Addr)
    requires mid == before || mid == before + [Proxy(scope, BridgeRouter, a)]
    requires after == mid || after == mid + [Proxy(scope, LiquidityRouter, b)]
    ensures DeployedOnce(before, after, scope)
  {
    forall s, k
      ensures Deploys(after, s, k) <= Deploys(before, s, k) + if s == scope && k != FeeRouter then 1 else 0
    {
      LogGrows(before, mid, scope, BridgeRouter, a, s, k);
      LogGrows(mid, after, scope, LiquidityRouter, b, s, k);
    }
  }

  lemma EnsureRoutersResult(s: Session, scope: Scope, local: bool, bridge: Target, liquidity: Target)
    requires s.live
    ensures var t := EnsureRouters(s, scope, local, bridge, liquidity);
            && DeployedOnce(s.w.log, t.w.log, scope)
            && t.w.services == s.w.services && s.w.holds <= t.w.holds && s.w.code <= t.w.code && s.fuel <= t.fuel + 6
            && (t.live ==>
                  && BridgeRouter in t.record.contracts && LiquidityRouter in t.record.contracts
                  && t.record.contracts[BridgeRouter] in t.w.code && t.record.contracts[LiquidityRouter] in t.w.code)
            && (There(s, BridgeRouter) && There(s, LiquidityRouter) ==>
                  && There(t, BridgeRouter) && (t.live ==> There(t, LiquidityRouter))
                  && (s.fuel > 5 && !scope.Malformed? ==> t.live))
  {
    var mid := EnsureRouter(s, scope, local, BridgeRouter, bridge);
    EnsureRouterResult(s, scope, local, BridgeRouter, bridge);
    if mid.live {
      EnsureRouterResult(mid, scope, local, LiquidityRouter, liquidity);
      var t := EnsureRouter(mid, scope, local, LiquidityRouter, liquidity);
      TwoProxies(s.w.log, mid.w.log, t.w.log, scope, s.w.next, mid.w.next);
    } else {
      TwoProxies(s.w.log, mid.w.log, mid.w.log, scope, s.w.next, mid.w.next);
    }
  }

  /** A state the bridge script can finish from. Nothing is asked of services already registered. */
  ghost predicate BridgeResumable(w: World, override: Option<Addr>) {
    && w.file.Some?
    && (forall k | k != FeeRouter && Recorded(w, Shared, k) ::
          Address(w, Shared, k) in w.code && Address(w, Shared, k) in w.points)
    && var r := ChosenFeeRouter(w.file.value, override);
       r.Some? && r.value in w.code && r.value in w.holds
  }

  lemma FinishResult(s: Session, scope: Scope, feeRouter: Addr)
    requires s.live && BridgeRouter in s.record.contracts && LiquidityRouter in s.record.contracts
    ensures var t := Finish(s, scope, feeRouter);
            && t.w.log == s.w.log && t.w.code == s.w.code
            && (t.live ==>
                  && Saved(t.w, scope).Some? && Saved(t.w, scope).value.contracts == s.record.contracts
                  && AllPresent(t.w, feeRouter, BRIDGE)
                  && (Live(t.w, feeRouter, BRIDGE) <==> Undrifted(s.w, feeRouter, BRIDGE)))
            && (There(s, BridgeRouter) && There(s, LiquidityRouter) && feeRouter in s.w.holds && !scope.Malformed? ==>
                  s.fuel > 2 * |BRIDGE| + 3 ==> t.live)
  {
    var b, l := s.record.contracts[BridgeRouter], s.record.contracts[LiquidityRouter];
    var t := RecordLiveValues(s, scope, b, l);
    RecordLiveResult(s, scope, b, l);
    if t.live && Tick(t).live && feeRouter in t.w.holds {
      var u := Tick(t);
      TablesAreDistinct();
      RegisterMissingFrame(u, feeRouter, BRIDGE);
      if RegisterMissing(u, feeRouter, BRIDGE).live {
        RegisterMissingResult(u, feeRouter, BRIDGE);
      }
    }
  }

  ghost predicate ReadyFor(s: Session, scope: Scope, feeRouter: Addr) {
    && There(s, BridgeRouter) && There(s, LiquidityRouter) && feeRouter in s.w.holds && !scope.Malformed?
    && s.fuel > 2 * |BRIDGE| + 9
  }

  lemma InstallResult(s: Session, scope: Scope, local: bool, feeRouter: Addr, spokePool: Addr, manager: Option<Addr>)
    requires s.live && feeRouter in s.w.code
    ensures var t := Install(s, scope, local, feeRouter, spokePool, manager);
            && DeployedOnce(s.w.log, t.w.log, scope)
            && (t.live ==> BridgeDone(t.w, scope, Some(feeRouter)))
            && (t.live ==> (Live(t.w, feeRouter, BRIDGE) <==> Undrifted(s.w, feeRouter, BRIDGE)))
            && (ReadyFor(s, scope, feeRouter) ==> t.live)
  {
    var bridge, liquidity := Target(spokePool, feeRouter), LiquidityTarget(manager, feeRouter);
    var t := EnsureRouters(s, scope, local, bridge, liquidity);
    EnsureRoutersResult(s, scope, local, bridge, liquidity);
    if t.live {
      FinishResult(t, scope, feeRouter);
    }
  }

  /** Exit code 0: both routers are saved for this scope and carry code, and both services are there. */
  lemma BridgeExits(w: World, net: Net, scope: Scope, fuel: nat, confirmed: bool, configured: Protocols,
                    probe: Probe, override: Option<Addr>)
    requires BridgeRun(w, net, scope, fuel, confirmed, configured, probe, override).live
    ensures w.file.Some? && ChosenFeeRouter(w.file.value, override).Some?
    ensures var v, r := BridgeRun(w, net, scope, fuel, confirmed, configured, probe, override).w,
                        ChosenFeeRouter(w.file.value, override);
            BridgeDone(v, scope, r) && (Live(v, r.value, BRIDGE) <==> Undrifted(w, r.value, BRIDGE))
  {
    var c := CheckedProtocols(w, net, fuel, confirmed, configured, probe);
    CheckedFrame(w, net, fuel, confirmed, configured, probe);
    InstallResult(Tick(c.0), scope, net.local, ChosenFeeRouter(c.0.record, override).value, c.1.spokePool.value,
                  c.1.positionManager);
  }

  lemma CheckedFrame(w: World, net: Net, fuel: nat, confirmed: bool, configured: Protocols, probe: Probe)
    ensures var c := CheckedProtocols(w, net, fuel, confirmed, configured, probe).0;
            c.w == w.(code := c.w.code, next := c.w.next) && (c.live ==> w.file == Some(c.record))
  {
  }

  lemma BridgeDeploysOnce(w: World, net: Net, scope: Scope, fuel: nat, confirmed: bool, configured: Protocols,
                          probe: Probe, override: Option<Addr>)
    ensures DeployedOnce(w.log, BridgeRun(w, net, scope, fuel, confirmed, configured, probe, override).w.log, scope)
  {
    var c := CheckedProtocols(w, net, fuel, confirmed, configured, probe);
    CheckedFrame(w, net, fuel, confirmed, configured, probe);
    if c.0.live && c.1.spokePool.Some? {
      var r, t := ChosenFeeRouter(c.0.record, override), Tick(c.0);
      if t.live && r.Some? && r.value in t.w.code {
        InstallResult(t, scope, net.local, r.value, c.1.spokePool.value, c.1.positionManager);
      }
    }
  }

  /**
   * The protocol addresses a run goes on with: the configured ones, or on a local network with none
   * configured the stand-ins, recorded and live ones before the next two unused addresses.
   */
  function Chosen(w: World, r: Record, local: bool, configured: Protocols): Protocols {
    if configured.spokePool.Some? || configured.positionManager.Some? || !local then configured
    else if r.spokePool.Some? && r.positionManager.Some?
            && r.spokePool.value in w.code && r.positionManager.value in w.code
    then Protocols(r.spokePool, None, None, r.positionManager)
    else Protocols(Some(w.next), None, None, Some(w.next + 1))
  }

  /** What is configured passes the guard, and so does what the run goes on with, a SpokePool among it. */
  ghost predicate AddressesHold(w: World, net: Net, configured: Protocols, probe: Probe) {
    && w.file.Some? && GuardHolds(net.chainId, configured, w.code, probe)
    && var p := Chosen(w, w.file.value, net.local, configured);
       p.spokePool.Some? && GuardHolds(net.chainId, p, w.code + {w.next, w.next + 1}, probe)
  }

  lemma CheckedConverges(w: World, net: Net, fuel: nat, confirmed: bool, configured: Protocols, probe: Probe)
    requires fuel > 2 && (net.mainnet ==> confirmed) && AddressesHold(w, net, configured, probe)
    ensures var c := CheckedProtocols(w, net, fuel, confirmed, configured, probe);
            && c.0.live && c.0.record == w.file.value
            && c.0.fuel >= fuel - (if configured.spokePool.Some? then 1 else 3)
            && c.1 == Chosen(w, w.file.value, net.local, configured)
            && w.code <= c.0.w.code && c.0.w == w.(code := c.0.w.code, next := c.0.w.next)
  {
    var s, p := Tick(Begin(w, fuel)).(record := w.file.value), Chosen(w, w.file.value, net.local, configured);
    if configured.spokePool.None? && configured.positionManager.None? {
      var d := LocalDoubles(s);
      assert d.1 == p && d.0.live;
      assert Configured(p) == [p.spokePool.value, p.positionManager.value];
      assert p.spokePool.value in d.0.w.code && p.positionManager.value in d.0.w.code;
      assert GuardHolds(net.chainId, p, d.0.w.code, probe);
    }
  }

  lemma RecordedAreThere(w: World, t: Session, override: Option<Addr>, k: Key)
    requires BridgeResumable(w, override) && k != FeeRouter && t.record == w.file.value
    requires w.code <= t.w.code && t.w.points == w.points
    ensures There(t, k)
  {
    assert Recorded(w, Shared, k) <==> k in t.record.contracts;
  }

  /** Enough steps for a run to its end; stand-ins may take two more. */
  function StepsFor(configured: Protocols): nat {
    2 * |BRIDGE| + 11 + if configured.spokePool.Some? then 0 else 2
  }

  /** Convergence: with enough steps, checked addresses and the admin role the run exits 0. */
  lemma BridgeConverges(w: World, net: Net, scope: Scope, fuel: nat, confirmed: bool, configured: Protocols,
                        probe: Probe, override: Option<Addr>)
    requires fuel > StepsFor(configured) && (net.mainnet ==> confirmed) && !scope.Malformed?
    requires BridgeResumable(w, override) && AddressesHold(w, net, configured, probe)
    ensures BridgeRun(w, net, scope, fuel, confirmed, configured, probe, override).live
  {
    var c, p := CheckedProtocols(w, net, fuel, confirmed, configured, probe),
                Chosen(w, w.file.value, net.local, configured);
    CheckedConverges(w, net, fuel, confirmed, configured, probe);
    RecordedAreThere(w, c.0, override, BridgeRouter);
    RecordedAreThere(w, c.0, override, LiquidityRouter);
    ProceedConverges(c.0, scope, net.local, override, p);
  }

  lemma ProceedConverges(s: Session, scope: Scope, local: bool, override: Option<Addr>, p: Protocols)
    requires s.live && There(s, BridgeRouter) && There(s, LiquidityRouter) && !scope.Malformed? && p.spokePool.Some?
    requires var r := ChosenFeeRouter(s.record, override); r.Some? && r.value in s.w.code && r.value in s.w.holds
    requires s.fuel > 2 * |BRIDGE| + 10
    ensures Proceed(s, scope, local, override, p).live
  {
    var r := ChosenFeeRouter(s.record, override).value;
    InstallResult(Tick(s), scope, local, r, p.spokePool.value, p.positionManager);
  }

  // ---------------------------------------------------------------- the bootstrap script

  /** The endpoint reports a chain id, and of configuration and operator at least one says the same, neither another. */
  ghost predicate Agreed(reported: Option<nat>, declared: Option<nat>, expected: Option<nat>) {
    exists id :: reported == Some(id) && (declared, expected) in
                   {(Some(id), None), (None, Some(id)), (Some(id), Some(id))}
  }

  /** A record is created exactly where there is none, for a settled chain id, treasury and deployer. */
  lemma InitExits(w: World, scope: Scope, fuel: nat, i: Inputs)
    ensures var t := InitRun(w, scope, fuel, i);
            && (t.live <==>
                  && w.file == None && Agreed(i.reported, i.declared, i.expected)
                  && i.treasury.Some? && i.treasury.value != ZERO_ADDRESS
                  && (i.override.Override? || (i.override.Unset? && i.signer.Some?))
                  && fuel > 1 && !scope.Malformed?)
            && (!t.live ==> t.w == w)
            && (t.live ==>
                  var deployer := if i.override.Override? then i.override.address else i.signer.value;
                  t.w == Store(w, scope, Record(map[], map[], i.treasury.value, deployer, None, None)))
  {
  }
}
