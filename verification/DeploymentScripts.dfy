/**
 * scripts/deploy/deploy-fee-router.js, deploy-bridge-liquidity.js and init-deployment-record.js as
 * programs that change the world, the record they hold and the table on the chain step by step.
 */
module DeploymentScripts {
  import opened Deployment
  import opened DeploymentRuns
  import opened DeploymentOutcomes
  import opened DeploymentTargets
  import opened Results

  class Estate {
    const net: Net
    var w: World
    var record: Record
    var fuel: nat

    ghost function Now(live: bool): Session
      reads this
    {
      Session(w, record, fuel, live)
    }

    constructor (net: Net, w: World)
      ensures this.net == net && this.w == w
    {
      this.net, this.w, this.record, this.fuel := net, w, EMPTY, 0;
    }

    method Await() returns (alive: bool)
      modifies this`fuel
      ensures Now(alive) == Tick(old(Now(true)))
    {
      alive := fuel > 0;
      if alive {
        fuel := fuel - 1;
      }
    }

    method AwaitTwice() returns (alive: bool)
      modifies this`fuel
      ensures Now(alive) == Spend(old(Now(true)), 2)
    {
      alive := Await();
      if alive {
        alive := Await();
      }
    }

    method DeployProxy(scope: Scope, k: Key, target: Target) returns (alive: bool)
      modifies this`w, this`fuel
      ensures Now(alive) == Deploy(old(Now(true)), scope, k, target)
    {
      alive := Await();
      if alive {
        w := Deployed(w, scope, k, target);
      }
    }

    /** saveDeployment: the scope of the run decides the file. */
    method SaveDeployment(scope: Scope) returns (alive: bool)
      modifies this`w, this`fuel
      ensures Now(alive) == Save(old(Now(true)), scope)
    {
      alive := Await();
      if scope.Malformed? {
        return false;
      }
      if alive {
        w := Store(w, scope, record);
      }
    }

    /** registerService, which the chain reverts for a registered id: no script may send it for one. */
    method Register(router: Addr, e: TableEntry) returns (alive: bool)
      requires (router, e.name) !in w.services
      modifies this`w, this`fuel
      ensures Now(alive) == (var t := Tick(old(Now(true))); if t.live then t.(w := Registered(t.w, router, e)) else t)
    {
      alive := Await();
      if alive {
        w := Registered(w, router, e);
      }
    }

    // -------------------------------------------------------------- deploy-fee-router.js

    /**
     * Deploys the router or resumes a recorded one, saves the reconciled record, registers what is
     * missing; drift is reported last.
     */
    method FeeRouterMain(scope: Scope, op: Operator) returns (exit: nat)
      requires Good(w)
      modifies this`w, this`record, this`fuel
      ensures exit <= 1 && Now(exit == 0) == FeeRun(old(w), net, scope, old(fuel), op)
      ensures Good(w) && Keeps(old(w), w, scope, net.local) && FreshSends(old(w), w)
      ensures exit == 0 ==> ImplReconciled(w, scope, FeeRouter) && Live(w, Address(w, scope, FeeRouter), LAUNCH)
      ensures exit == 0 ==> Address(w, scope, FeeRouter) in w.code
      ensures w != old(w) || exit == 0 ==> (net.mainnet ==> op.confirmed) && old(w).file.Some?
      ensures w != old(w) && Recorded(old(w), Shared, FeeRouter) ==> Address(old(w), Shared, FeeRouter) in old(w).code
      ensures w.log == old(w).log ==> w.points == old(w).points
      ensures w.log != old(w).log ==>
                exists t :: PaysInto(old(w), op, t) && w.points == old(w).points[old(w).next := t]
      ensures SentTo(old(w), w, if Recorded(old(w), Shared, FeeRouter) then Address(old(w), Shared, FeeRouter)
                                else old(w).next)
      ensures w.log == old(w).log
              || (!Recorded(old(w), Shared, FeeRouter) && w.log == old(w).log + [Proxy(scope, FeeRouter, old(w).next)])
      ensures old(fuel) > 2 * |LAUNCH| + 5 && (net.mainnet ==> op.confirmed) && !scope.Malformed? ==>
                Resumable(old(w)) ==>
                && Recorded(w, scope, FeeRouter) && AllPresent(w, Address(w, scope, FeeRouter), LAUNCH)
                && (exit == 0 <==> (Recorded(old(w), Shared, FeeRouter) ==>
                                      Undrifted(old(w), Address(old(w), Shared, FeeRouter), LAUNCH)))
    {
      var alive := RunFee(scope, op);
      exit := if alive then 0 else 1;
      FeeKeeps(old(w), net, scope, old(fuel), op);
      FeeDeploysOnce(old(w), net, scope, old(fuel), op);
      FeePoints(old(w), net, scope, old(fuel), op);
      FeeSends(old(w), net, scope, old(fuel), op);
      if w != old(w) || exit == 0 {
        FeeGuarded(old(w), net, scope, old(fuel), op);
      }
      if exit == 0 {
        FeeExits(old(w), net, scope, old(fuel), op);
      }
      if old(fuel) > 2 * |LAUNCH| + 5 && (net.mainnet ==> op.confirmed) && !scope.Malformed? && Resumable(old(w)) {
        FeeConverges(old(w), net, scope, old(fuel), op);
      }
    }

    method RunFee(scope: Scope, op: Operator) returns (alive: bool)
      modifies this`w, this`record, this`fuel
      ensures Now(alive) == FeeRun(old(w), net, scope, old(fuel), op)
    {
      record := EMPTY;
      alive := AwaitTwice();
      if !alive {
        return;
      }
      if (net.mainnet && !op.confirmed) || w.file == None {
        return false;
      }
      record := w.file.value;
      alive := SetUpRouter(scope, if op.treasury.Some? then op.treasury.value else record.treasury);
    }

    method SetUpRouter(scope: Scope, treasury: Addr) returns (alive: bool)
      modifies this`w, this`record, this`fuel
      ensures Now(alive) == SetUp(old(Now(true)), scope, treasury)
    {
      alive := Obtain(scope, treasury);
      if !alive {
        return;
      }
      var router := record.contracts[FeeRouter];
      alive := ReconcileRecord(scope, router);
      if alive {
        TablesAreDistinct();
        alive := RegisterAll(router, LAUNCH);
      }
    }

    method Obtain(scope: Scope, treasury: Addr) returns (alive: bool)
      modifies this`w, this`record, this`fuel
      ensures Now(alive) == ObtainRouter(old(Now(true)), scope, treasury)
      ensures alive ==> FeeRouter in record.contracts
    {
      if FeeRouter in record.contracts {
        alive := Await();
        alive := alive && record.contracts[FeeRouter] in w.code;
      } else {
        var router := w.next;
        alive := DeployProxy(scope, FeeRouter, Target(treasury, ZERO_ADDRESS));
        if alive {
          record := record.(contracts := record.contracts[FeeRouter := router]);
        }
      }
    }

    method ReconcileRecord(scope: Scope, router: Addr) returns (alive: bool)
      modifies this`w, this`record, this`fuel
      ensures Now(alive) == Reconcile(old(Now(true)), scope, router)
    {
      alive := Await();
      if !alive || router !in w.slot {
        return false;
      }
      record := record.(impls := record.impls[FeeRouter := w.slot[router]]);
      alive := SaveDeployment(scope);
    }

    method RegisterAll(router: Addr, t: seq<TableEntry>) returns (alive: bool)
      requires DistinctNames(t)
      modifies this`w, this`fuel
      ensures Now(alive) == RegisterTable(old(Now(true)), router, t)
    {
      var missing, drift;
      alive, missing, drift := ReadTable(router, t);
      if !alive {
        return;
      }
      if missing != [] {
        alive := Await();
        if !alive || router !in w.holds {
          return false;
        }
        MissingFacts(w, router, t);
        alive := SendMissingOnes(router, missing);
      }
      alive := alive && drift == [];
    }

    method ReadTable(router: Addr, t: seq<TableEntry>)
      returns (alive: bool, missing: seq<TableEntry>, drift: seq<string>)
      modifies this`fuel
      ensures Now(alive) == Spend(old(Now(true)), |t|)
      ensures alive ==> missing == Missing(w, router, t) && (drift == [] <==> Undrifted(w, router, t))
    {
      missing, drift := [], [];
      for i := 0 to |t|
        invariant old(fuel) >= i && fuel == old(fuel) - i
        invariant missing == Missing(w, router, t[..i])
        invariant drift == [] <==> Undrifted(w, router, t[..i])
      {
        alive := Await();
        if !alive {
          return;
        }
        assert t[..i + 1] == t[..i] + [t[i]];
        MissingSnoc(w, router, t[..i], t[i]);
        UndriftedSnoc(w, router, t[..i], t[i]);
        if (router, t[i].name) !in w.services {
          missing := missing + [t[i]];
        } else if w.services[(router, t[i].name)] != t[i].service {
          drift := drift + [t[i].name];
        }
      }
      alive := true;
      assert t[..|t|] == t;
    }

    method SendMissingOnes(router: Addr, missing: seq<TableEntry>) returns (alive: bool)
      requires DistinctNames(missing) && NoneThere(w, router, missing)
      modifies this`w, this`fuel
      ensures Now(alive) == SendAll(old(Now(true)), router, missing)
    {
      assert missing[0..] == missing;
      for i := 0 to |missing|
        invariant record == old(record) && NoneThere(w, router, missing[i..])
        invariant SendAll(old(Now(true)), router, missing) == SendAll(Now(true), router, missing[i..])
      {
        assert missing[i..][1..] == missing[i + 1..];
        assert missing[i] in missing[i..];
        alive := Register(router, missing[i]);
        if !alive {
          return;
        }
        assert forall e | e in missing[i + 1..] :: e in missing[i..] && e.name != missing[i].name;
      }
      alive := true;
    }

    // -------------------------------------------------------------- deploy-bridge-liquidity.js

    /**
     * Checks every configured address first; then each router is kept or deployed and saved at
     * once; then the live values are recorded and the two services registered.
     */
    method BridgeMain(scope: Scope, confirmed: bool, configured: Protocols, probe: Probe, override: Option<Addr>)
      returns (exit: nat)
      requires Good(w)
      modifies this`w, this`record, this`fuel
      ensures exit <= 1
      ensures Now(exit == 0) == BridgeRun(old(w), net, scope, old(fuel), confirmed, configured, probe, override)
      ensures Good(w) && Keeps(old(w), w, scope, net.local) && FreshSends(old(w), w)
      ensures DeployedOnce(old(w).log, w.log, scope)
      ensures w != old(w) || exit == 0 ==>
                && (net.mainnet ==> confirmed) && old(w).file.Some?
                && GuardHolds(net.chainId, configured, old(w).code, probe)
                && (configured.spokePool.Some? || (net.local && configured.positionManager.None?))
      ensures w.sends == old(w).sends || exists r :: ChargesThrough(old(w), override, r) && SentTo(old(w), w, r)
      ensures !scope.Malformed? ==> Keeping(old(w).log, Now(exit == 0), scope)
      ensures exit == 0 ==> old(w).file.Some? && ChosenFeeRouter(old(w).file.value, override).Some?
      ensures exit == 0 ==>
                var r := ChosenFeeRouter(old(w).file.value, override);
                BridgeDone(w, scope, r) && (Live(w, r.value, BRIDGE) <==> Undrifted(old(w), r.value, BRIDGE))
      ensures exit == 0 ==>
                var p, r := Chosen(old(w), old(w).file.value, net.local, configured),
                            ChosenFeeRouter(old(w).file.value, override).value;
                && ChargesThrough(old(w), override, r) && r in w.holds && p.spokePool.Some?
                && SetUpAs(old(w), w, scope, p.spokePool.value, p.positionManager, r)
      ensures old(fuel) > StepsFor(configured) && (net.mainnet ==> confirmed) && !scope.Malformed? ==>
                BridgeResumable(old(w), override) && AddressesHold(old(w), net, configured, probe) ==> exit == 0
    {
      var alive := RunBridge(scope, confirmed, configured, probe, override);
      exit := if alive then 0 else 1;
      BridgeKeeps(old(w), net, scope, old(fuel), confirmed, configured, probe, override);
      BridgeDeploysOnce(old(w), net, scope, old(fuel), confirmed, configured, probe, override);
      BridgeSends(old(w), net, scope, old(fuel), confirmed, configured, probe, override);
      if !scope.Malformed? {
        BridgeSavesEach(old(w), net, scope, old(fuel), confirmed, configured, probe, override);
      }
      if w != old(w) || exit == 0 {
        BridgeChanges(old(w), net, scope, old(fuel), confirmed, configured, probe, override);
      }
      if exit == 0 {
        var p, r := BridgePoints(old(w), net, scope, old(fuel), confirmed, configured, probe, override);
        BridgeExits(old(w), net, scope, old(fuel), confirmed, configured, probe, override);
      }
      if old(fuel) > StepsFor(configured) && (net.mainnet ==> confirmed) && !scope.Malformed?
         && BridgeResumable(old(w), override) && AddressesHold(old(w), net, configured, probe) {
        BridgeConverges(old(w), net, scope, old(fuel), confirmed, configured, probe, override);
      }
    }

    method RunBridge(scope: Scope, confirmed: bool, configured: Protocols, probe: Probe, override: Option<Addr>)
      returns (alive: bool)
      modifies this`w, this`record, this`fuel
      ensures Now(alive) == BridgeRun(old(w), net, scope, old(fuel), confirmed, configured, probe, override)
    {
      var protocols;
      alive, protocols := CheckProtocols(confirmed, configured, probe);
      if !alive || protocols.spokePool == None {
        return false;
      }
      alive := ProceedWith(scope, override, protocols);
    }

    method ProceedWith(scope: Scope, override: Option<Addr>, p: Protocols) returns (alive: bool)
      modifies this`w, this`record, this`fuel
      ensures Now(alive) == Proceed(old(Now(true)), scope, net.local, override, p)
    {
      var feeRouter := ChosenFeeRouter(record, override);
      alive := Await();
      if !alive || feeRouter == None || feeRouter.value !in w.code || p.spokePool == None {
        return false;
      }
      var manager := if p.positionManager.Some? then p.positionManager.value else ZERO_ADDRESS;
      alive := EnsureBoth(scope, Target(p.spokePool.value, feeRouter.value), Target(manager, feeRouter.value));
      if alive {
        alive := FinishSetup(scope, feeRouter.value);
      }
    }

    method CheckProtocols(confirmed: bool, configured: Protocols, probe: Probe) returns (alive: bool, p: Protocols)
      modifies this`w, this`record, this`fuel
      ensures (Now(alive), p) == CheckedProtocols(old(w), net, old(fuel), confirmed, configured, probe)
    {
      p, record := configured, EMPTY;
      alive := Await();
      if !alive || (net.mainnet && !confirmed) || w.file == None {
        return false, p;
      }
      var failures := VerifyProtocolAddresses(net.chainId, configured, w.code, probe);
      if failures != [] {
        return false, p;
      }
      record := w.file.value;
      if configured.spokePool.Some? || configured.positionManager.Some? {
        return;
      }
      if !net.local {
        return false, p;
      }
      alive, p := DeployLocalDoubles();
      if alive {
        failures := VerifyProtocolAddresses(net.chainId, p, w.code, probe);
        alive := failures == [];
      }
    }

    /** Recorded stand-ins that are live are the ones returned, and nothing changes. */
    method DeployLocalDoubles() returns (alive: bool, p: Protocols)
      modifies this`w, this`fuel
      ensures (Now(alive), p) == LocalDoubles(old(Now(true)))
      ensures record.spokePool.Some? && record.positionManager.Some?
              && record.spokePool.value in old(w).code && record.positionManager.value in old(w).code ==>
                alive && w == old(w) && p == Protocols(record.spokePool, None, None, record.positionManager)
    {
      if record.spokePool.Some? && record.positionManager.Some?
         && record.spokePool.value in w.code && record.positionManager.value in w.code {
        return true, Protocols(record.spokePool, None, None, record.positionManager);
      }
      p := Protocols(None, None, None, None);
      alive := Await();
      if !alive {
        return;
      }
      var spoke := w.next;
      w := w.(code := w.code + {spoke}, next := w.next + 1);
      alive := Await();
      if !alive {
        return;
      }
      var manager := w.next;
      w := w.(code := w.code + {manager}, next := w.next + 1);
      p := Protocols(Some(spoke), None, None, Some(manager));
    }

    method FinishSetup(scope: Scope, feeRouter: Addr) returns (alive: bool)
      modifies this`w, this`record, this`fuel
      ensures Now(alive) == Finish(old(Now(true)), scope, feeRouter)
    {
      if BridgeRouter !in record.contracts || LiquidityRouter !in record.contracts {
        return false;
      }
      alive := RecordLive(scope, record.contracts[BridgeRouter], record.contracts[LiquidityRouter]);
      if !alive {
        return;
      }
      alive := Await();
      if !alive || feeRouter !in w.holds {
        return false;
      }
      alive := RegisterEach(feeRouter, BRIDGE);
    }

    method EnsureBoth(scope: Scope, bridge: Target, liquidity: Target) returns (alive: bool)
      modifies this`w, this`record, this`fuel
      ensures Now(alive) == EnsureRouters(old(Now(true)), scope, net.local, bridge, liquidity)
    {
      alive := Ensure(scope, BridgeRouter, bridge);
      if alive {
        alive := Ensure(scope, LiquidityRouter, liquidity);
      }
    }

    method Ensure(scope: Scope, k: Key, target: Target) returns (alive: bool)
      modifies this`w, this`record, this`fuel
      ensures Now(alive) == EnsureRouter(old(Now(true)), scope, net.local, k, target)
    {
      if k in record.contracts {
        alive := Await();
        if !alive || record.contracts[k] in w.code {
          return;
        }
        if !net.local {
          return false;
        }
      }
      alive := DeployThenSave(scope, k, target);
    }

    method DeployThenSave(scope: Scope, k: Key, target: Target) returns (alive: bool)
      modifies this`w, this`record, this`fuel
      ensures Now(alive) == DeployAndSave(old(Now(true)), scope, k, target)
    {
      var a := w.next;
      alive := DeployProxy(scope, k, target);
      if !alive {
        return;
      }
      record := record.(contracts := record.contracts[k := a], impls := record.impls[k := a + 1]);
      alive := SaveDeployment(scope);
    }

    method RecordLive(scope: Scope, b: Addr, l: Addr) returns (alive: bool)
      modifies this`w, this`record, this`fuel
      ensures Now(alive) == RecordLiveValues(old(Now(true)), scope, b, l)
    {
      alive := Await();
      if !alive || b !in w.points {
        return false;
      }
      alive := Await();
      if !alive || l !in w.points {
        return false;
      }
      var manager := if w.points[l] == ZERO_ADDRESS then None else Some(w.points[l]);
      record := record.(spokePool := Some(w.points[b]), positionManager := manager);
      alive := SaveDeployment(scope);
    }

    method RegisterEach(router: Addr, t: seq<TableEntry>) returns (alive: bool)
      modifies this`w, this`fuel
      ensures Now(alive) == RegisterMissing(old(Now(true)), router, t)
    {
      assert t[0..] == t;
      for i := 0 to |t|
        invariant record == old(record)
        invariant RegisterMissing(old(Now(true)), router, t) == RegisterMissing(Now(true), router, t[i..])
      {
        assert t[i..][1..] == t[i + 1..];
        alive := Await();
        if !alive {
          return;
        }
        if (router, t[i].name) !in w.services {
          alive := Register(router, t[i]);
          if !alive {
            return;
          }
        }
      }
      alive := true;
    }

    // -------------------------------------------------------------- init-deployment-record.js

    /**
     * Looks for the shared file, then creates an empty record for the scope. The chain id must be
     * known twice over: declared by the configuration or stated by the operator, and reported by the
     * endpoint.
     */
    method InitMain(scope: Scope, i: Inputs) returns (exit: nat)
      requires Good(w)
      modifies this`w, this`record, this`fuel
      ensures exit <= 1
      ensures Now(exit == 0) == InitRun(old(w), scope, old(fuel), i)
      ensures Good(w) && Keeps(old(w), w, scope, net.local)
      ensures exit == 0 <==>
              && old(w).file == None && Agreed(i.reported, i.declared, i.expected)
              && i.treasury.Some? && i.treasury.value != ZERO_ADDRESS
              && (i.override.Override? || (i.override.Unset? && i.signer.Some?))
              && old(fuel) > 1 && !scope.Malformed?
      ensures exit == 1 ==> w == old(w)
      ensures exit == 0 ==>
                var deployer := if i.override.Override? then i.override.address else i.signer.value;
                w == Store(old(w), scope, Record(map[], map[], i.treasury.value, deployer, None, None))
    {
      InitKeeps(w, scope, fuel, i, net.local);
      InitExits(w, scope, fuel, i);
      exit, record := 1, EMPTY;
      if i.reported == None {
        return;
      }
      if i.declared.Some? && i.declared != i.reported {
        return;
      }
      if i.declared == None && i.expected == None {
        return;
      }
      if i.expected.Some? && i.expected != i.reported {
        return;
      }
      if w.file.Some? {
        return;
      }
      if i.treasury == None || i.treasury.value == ZERO_ADDRESS {
        return;
      }
      var deployer := ResolveDeployer(i.override, i.signer);
      if deployer == None {
        return;
      }
      record := EMPTY.(treasury := i.treasury.value, deployer := deployer.value);
      var alive := Await();
      if alive {
        alive := SaveDeployment(scope);
      }
      exit := if alive then 0 else 1;
    }

    // -------------------------------------------------------------- any sequence of runs

    /** Runs one after the other, each stopped wherever its fuel ends, others acting in between. */
    method Campaign(runs: seq<Run>)
      requires Good(w)
      modifies this
      ensures w == RunAll(old(w), net, runs) && Good(w) && KeepsChain(old(w), w)
      ensures forall saved | Untouched(runs, saved) :: KeepsSaved(old(w), w, saved, net.local)
      ensures forall r :: |SendsTo(w.sends, r)| <= |LAUNCH| + |BRIDGE|
      ensures forall i | |old(w).sends| <= i < |w.sends| :: SentFresh(old(w), net, runs, i)
    {
      for i := 0 to |runs|
        invariant Good(w) && w == RunAll(old(w), net, runs[..i])
      {
        assert runs[..i + 1][..i] == runs[..i];
        OneKeeps(w, net, runs[i], Shared);
        match runs[i] {
          case Init(scope, n, inputs) =>
            fuel := n;
            var _ := InitMain(scope, inputs);
          case Fee(scope, n, op) =>
            fuel := n;
            var _ := FeeRouterMain(scope, op);
          case Bridge(scope, n, confirmed, configured, probe, override) =>
            fuel := n;
            var _ := BridgeMain(scope, confirmed, configured, probe, override);
          case Others(change) =>
            w := After(w, change);
        }
      }
      assert runs[..|runs|] == runs;
      CampaignKeeps(old(w), net, runs, Shared);
      forall saved | Untouched(runs, saved)
        ensures KeepsSaved(old(w), w, saved, net.local)
      {
        CampaignKeeps(old(w), net, runs, saved);
      }
      forall i | |old(w).sends| <= i < |w.sends|
        ensures SentFresh(old(w), net, runs, i)
      {
        var n := CampaignFresh(old(w), net, runs, i);
      }
      forall r {:trigger SendsTo(w.sends, r)}
        ensures |SendsTo(w.sends, r)| <= |LAUNCH| + |BRIDGE|
      {
        SendsBounded(w, r);
      }
    }
  }
}
