/**
 * scripts/deploy/check-storage-layout.js: every implementation recorded as live is compared with the
 * layout its own chain's manifest holds, and comparing less than the known estate is no pass.
 */
module StorageGate {
  import opened Hex
  import opened Results

  // ---------------------------------------------------------------- deployment records

  /** A field that is absent or falsy is the empty text. */
  datatype Content = Content(top: map<string, string>, contracts: map<string, string>)

  /** `record` is None for malformed JSON, `chain` None when the file name says nothing. */
  datatype File = File(name: string, chain: Option<nat>, record: Option<Content>)

  datatype Live = Live(impl: string, chain: nat, where: string)

  const LOCAL_CHAINS: set<nat> := {1337, 31337}

  function ImplIn(c: Content, key: string): string {
    var k := key + "Impl";
    if k in c.top && c.top[k] != "" then c.top[k] else if k in c.contracts then c.contracts[k] else ""
  }

  /** The text a record names: that at the top if it is there and not empty, otherwise that under contracts. */
  ghost predicate Says(c: Content, key: string, impl: string) {
    var k := key + "Impl";
    && impl != ""
    && ((k in c.top && c.top[k] == impl)
        || ((k in c.top ==> c.top[k] == "") && k in c.contracts && c.contracts[k] == impl))
  }

  /** A readable record of a known chain that is none of the two local ones names this implementation. */
  ghost predicate Records(f: File, key: string, l: Live) {
    && f.record.Some? && Says(f.record.value, key, l.impl)
    && f.chain == Some(l.chain) && l.chain != 1337 && l.chain != 31337 && l.where == f.name
  }

  /** A readable record of a local chain that names some implementation. */
  ghost predicate RecordsLocally(f: File, key: string) {
    && f.record.Some? && (exists impl :: Says(f.record.value, key, impl))
    && (f.chain == Some(1337) || f.chain == Some(31337))
  }

  lemma ImplExactly(c: Content, key: string, impl: string)
    ensures Says(c, key, impl) <==> impl != "" && ImplIn(c, key) == impl
  {
  }

  lemma LocalExactly(f: File, key: string)
    ensures RecordsLocally(f, key) <==> Names(f, key) && f.chain.value in LOCAL_CHAINS
  {
    if f.record.Some? {
      var impl := ImplIn(f.record.value, key);
      ImplExactly(f.record.value, key, impl);
      forall i | Says(f.record.value, key, i)
        ensures i == impl
      {
        ImplExactly(f.record.value, key, i);
      }
    }
  }

  lemma LiveOfExactly(f: File, key: string, l: Live)
    ensures l in LiveOf(f, key) <==> Records(f, key, l)
    ensures |LiveOf(f, key)| <= 1
  {
    if f.record.Some? {
      ImplExactly(f.record.value, key, l.impl);
    }
  }

  ghost predicate SomeRecords(files: seq<File>, key: string, l: Live) {
    exists i | 0 <= i < |files| :: Records(files[i], key, l)
  }

  /** What is gathered is exactly what the record files name. */
  lemma {:induction false} LiveExactly(files: seq<File>, key: string, l: Live)
    ensures l in LiveIn(files, key) <==> SomeRecords(files, key, l)
  {
    if files != [] {
      var front, last := files[..|files| - 1], files[|files| - 1];
      LiveExactly(front, key, l);
      LiveOfExactly(last, key, l);
      assert SomeRecords(files, key, l) <==> SomeRecords(front, key, l) || Records(last, key, l) by {
        if SomeRecords(front, key, l) {
          var i :| 0 <= i < |front| && Records(front[i], key, l);
          assert files[i] == front[i];
        }
        assert files[|files| - 1] == last;
      }
    }
  }

  predicate Names(f: File, key: string) {
    f.record.Some? && f.chain.Some? && ImplIn(f.record.value, key) != ""
  }

  function LiveOf(f: File, key: string): seq<Live> {
    if Names(f, key) && f.chain.value !in LOCAL_CHAINS
    then [Live(ImplIn(f.record.value, key), f.chain.value, f.name)]
    else []
  }

  function LiveIn(files: seq<File>, key: string): seq<Live> {
    if files == [] then [] else LiveIn(files[..|files| - 1], key) + LiveOf(files[|files| - 1], key)
  }

  method LoadRecordedImpls(key: string, files: seq<File>) returns (out: seq<Live>, skipped: set<string>)
    ensures out == LiveIn(files, key)
    ensures forall l :: l in out <==> SomeRecords(files, key, l)
    ensures forall w :: w in skipped <==>
              exists i | 0 <= i < |files| :: files[i].name == w && RecordsLocally(files[i], key)
  {
    out, skipped := Gather(key, files);
    forall i | 0 <= i < |files|
      ensures RecordsLocally(files[i], key) <==> Names(files[i], key) && files[i].chain.value in LOCAL_CHAINS
    {
      LocalExactly(files[i], key);
    }
    forall l
      ensures l in LiveIn(files, key) <==> SomeRecords(files, key, l)
    {
      LiveExactly(files, key, l);
    }
  }

  method Gather(key: string, files: seq<File>) returns (out: seq<Live>, skipped: set<string>)
    ensures out == LiveIn(files, key)
    ensures forall w :: w in skipped <==>
              exists i | 0 <= i < |files| ::
                files[i].name == w && Names(files[i], key) && files[i].chain.value in LOCAL_CHAINS
  {
    out, skipped := [], {};
    for i := 0 to |files|
      invariant out == LiveIn(files[..i], key)
      invariant forall w :: w in skipped <==>
                  exists j | 0 <= j < i ::
                    files[j].name == w && Names(files[j], key) && files[j].chain.value in LOCAL_CHAINS
    {
      var f := files[i];
      assert files[..i + 1][..i] == files[..i];
      if f.record.None? {
        continue;
      }
      var impl := ImplIn(f.record.value, key);
      if impl == "" || f.chain.None? {
        continue;
      }
      if f.chain.value in LOCAL_CHAINS {
        skipped := skipped + {f.name};
        continue;
      }
      out := out + [Live(impl, f.chain.value, f.name)];
    }
    assert files[..|files|] == files;
  }

  lemma {:induction false} LiveConcat(files: seq<File>, more: seq<File>, key: string)
    ensures LiveIn(files + more, key) == LiveIn(files, key) + LiveIn(more, key)
  {
    if more == [] {
      assert files + more == files;
    } else {
      assert (files + more)[..|files + more| - 1] == files + more[..|more| - 1];
      LiveConcat(files, more[..|more| - 1], key);
    }
  }

  lemma {:induction false} LiveHas(files: seq<File>, key: string, i: nat)
    requires i < |files| && Names(files[i], key) && files[i].chain.value !in LOCAL_CHAINS
    ensures Live(ImplIn(files[i].record.value, key), files[i].chain.value, files[i].name) in LiveIn(files, key)
  {
    if i < |files| - 1 {
      LiveHas(files[..|files| - 1], key, i);
    }
  }

  // ---------------------------------------------------------------- manifests

  datatype Entry = Entry(address: string, layout: string)

  datatype Manifest = Manifest(chain: nat, entries: seq<Entry>)

  type Layouts = map<nat, map<string, string>>

  function LayoutIn(es: seq<Entry>, a: string): Option<string> {
    if es == [] then None
    else
      var last := es[|es| - 1];
      if last.address != "" && last.layout != "" && Lower(last.address) == a then Some(last.layout)
      else LayoutIn(es[..|es| - 1], a)
  }

  /** The layout recorded last for an address, among the manifests of one chain. */
  function LayoutAt(ms: seq<Manifest>, chain: nat, a: string): Option<string> {
    if ms == [] then None
    else
      var last := ms[|ms| - 1];
      if last.chain == chain && LayoutIn(last.entries, a).Some? then LayoutIn(last.entries, a)
      else LayoutAt(ms[..|ms| - 1], chain, a)
  }

  function Find(m: map<string, string>, a: string): Option<string> {
    if a in m then Some(m[a]) else None
  }

  function FindAt(m: Layouts, chain: nat, a: string): Option<string> {
    if chain in m then Find(m[chain], a) else None
  }

  method AddManifest(known: map<string, string>, es: seq<Entry>) returns (m: map<string, string>)
    ensures forall a :: Find(m, a) == if LayoutIn(es, a).Some? then LayoutIn(es, a) else Find(known, a)
  {
    m := known;
    for i := 0 to |es|
      invariant forall a :: Find(m, a) == if LayoutIn(es[..i], a).Some? then LayoutIn(es[..i], a) else Find(known, a)
    {
      assert es[..i + 1][..i] == es[..i];
      if es[i].address != "" && es[i].layout != "" {
        m := m[Lower(es[i].address) := es[i].layout];
      }
    }
    assert es[..|es|] == es;
  }

  method LoadManifestLayouts(ms: seq<Manifest>) returns (m: Layouts)
    ensures forall chain, a :: FindAt(m, chain, a) == LayoutAt(ms, chain, a)
  {
    m := map[];
    for i := 0 to |ms|
      invariant forall chain, a :: FindAt(m, chain, a) == LayoutAt(ms[..i], chain, a)
    {
      assert ms[..i + 1][..i] == ms[..i];
      var known := if ms[i].chain in m then m[ms[i].chain] else map[];
      assert forall a :: Find(known, a) == FindAt(m, ms[i].chain, a);
      var row := AddManifest(known, ms[i].entries);
      m := m[ms[i].chain := row];
    }
    assert ms[..|ms|] == ms;
  }

  function OfChain(ms: seq<Manifest>, chain: nat): seq<Manifest> {
    if ms == [] then []
    else OfChain(ms[..|ms| - 1], chain) + if ms[|ms| - 1].chain == chain then [ms[|ms| - 1]] else []
  }

  /** The same address on another chain never supplies a layout. */
  lemma {:induction false} ChainScoped(ms: seq<Manifest>, chain: nat, a: string)
    ensures LayoutAt(ms, chain, a) == LayoutAt(OfChain(ms, chain), chain, a)
  {
    if ms != [] {
      var front, last := ms[..|ms| - 1], ms[|ms| - 1];
      ChainScoped(front, chain, a);
      if last.chain == chain {
        assert OfChain(ms, chain)[..|OfChain(ms, chain)| - 1] == OfChain(front, chain);
      } else {
        assert OfChain(ms, chain) == OfChain(front, chain);
      }
    }
  }

  // ---------------------------------------------------------------- judging one implementation

  /** `layout` is None when compiling or the upgrade-safety check of the contract itself fails. */
  datatype Contract = Contract(key: string, layout: Option<string>)

  datatype Declared = Declared(key: string, chain: nat, impl: string)

  datatype Floor = Floor(records: nat, diffed: nat)

  /** `safe` is OpenZeppelin's comparison of a deployed layout with a compiled one. */
  datatype Estate = Estate(files: seq<File>, manifests: seq<Manifest>, declared: seq<Declared>,
                           floors: map<nat, Floor>, safe: (string, string) -> bool)

  datatype Outcome = Diffed | DeclaredGap | NoLayout | Incompatible

  const ANY: set<Outcome> := {Diffed, DeclaredGap, NoLayout, Incompatible}

  predicate IsUnverifiable(declared: seq<Declared>, key: string, l: Live) {
    exists i | 0 <= i < |declared| ::
      declared[i].key == key && declared[i].chain == l.chain && Lower(declared[i].impl) == Lower(l.impl)
  }

  function Judge(e: Estate, key: string, layout: string, l: Live): Outcome {
    var deployed := LayoutAt(e.manifests, l.chain, Lower(l.impl));
    if deployed.None? then if IsUnverifiable(e.declared, key, l) then DeclaredGap else NoLayout
    else if e.safe(deployed.value, layout) then Diffed
    else Incompatible
  }

  predicate Sound(o: Outcome) {
    o.Diffed? || o.DeclaredGap?
  }

  /** How many of the given implementations on a chain came out in one of these ways. */
  function Count(e: Estate, key: string, layout: string, ls: seq<Live>, chain: nat, os: set<Outcome>): nat {
    if ls == [] then 0
    else
      var l := ls[|ls| - 1];
      Count(e, key, layout, ls[..|ls| - 1], chain, os)
      + if l.chain == chain && Judge(e, key, layout, l) in os then 1 else 0
  }

  function CountAll(e: Estate, cs: seq<Contract>, chain: nat, os: set<Outcome>): nat {
    if cs == [] then 0
    else
      var c := cs[|cs| - 1];
      CountAll(e, cs[..|cs| - 1], chain, os)
      + if c.layout.Some? then Count(e, c.key, c.layout.value, LiveIn(e.files, c.key), chain, os) else 0
  }

  // ---------------------------------------------------------------- the gate

  ghost predicate SoundLive(e: Estate, key: string, layout: string, ls: seq<Live>) {
    forall l | l in ls :: Sound(Judge(e, key, layout, l))
  }

  ghost predicate AllSound(e: Estate, c: Contract) {
    c.layout.Some? && SoundLive(e, c.key, c.layout.value, LiveIn(e.files, c.key))
  }

  ghost predicate SoundAll(e: Estate, cs: seq<Contract>) {
    forall c | c in cs :: AllSound(e, c)
  }

  ghost predicate FloorMet(e: Estate, cs: seq<Contract>, chain: nat)
    requires chain in e.floors
  {
    CountAll(e, cs, chain, ANY) >= e.floors[chain].records && CountAll(e, cs, chain, {Diffed}) >= e.floors[chain].diffed
  }

  ghost predicate Passes(e: Estate, facets: seq<bool>, cs: seq<Contract>) {
    && (forall i | 0 <= i < |facets| :: facets[i])
    && SoundAll(e, cs)
    && (forall chain | chain in e.floors :: FloorMet(e, cs, chain))
  }

  datatype Row = Row(records: nat, diffed: nat)

  function Got(observed: map<nat, Row>, chain: nat): Row {
    if chain in observed then observed[chain] else Row(0, 0)
  }

  /** What the loops over contracts and implementations accumulate. */
  datatype Progress = Progress(failed: bool, observed: map<nat, Row>, unverified: seq<Live>)

  function Bump(observed: map<nat, Row>, chain: nat, diffed: bool): map<nat, Row> {
    var row := Got(observed, chain);
    observed[chain := if diffed then row.(diffed := row.diffed + 1) else row.(records := row.records + 1)]
  }

  function Gaps(e: Estate, key: string, layout: string, ls: seq<Live>): seq<Live> {
    if ls == [] then []
    else
      var l := ls[|ls| - 1];
      Gaps(e, key, layout, ls[..|ls| - 1]) + if Judge(e, key, layout, l).DeclaredGap? then [l] else []
  }

  function GapsAll(e: Estate, cs: seq<Contract>): seq<Live> {
    if cs == [] then []
    else
      var c := cs[|cs| - 1];
      GapsAll(e, cs[..|cs| - 1])
      + if c.layout.Some? then Gaps(e, c.key, c.layout.value, LiveIn(e.files, c.key)) else []
  }

  ghost predicate ObservedAt(e: Estate, key: string, layout: string, ls: seq<Live>,
                             before: Row, after: Row, chain: nat) {
    && after.records == before.records + Count(e, key, layout, ls, chain, ANY)
    && after.diffed == before.diffed + Count(e, key, layout, ls, chain, {Diffed})
  }

  /** What a loop over `ls` that starts in `st` has made of it. */
  ghost predicate Seen(e: Estate, key: string, layout: string, ls: seq<Live>, st: Progress, r: Progress) {
    && (r.failed <==> st.failed || !SoundLive(e, key, layout, ls))
    && (forall chain :: ObservedAt(e, key, layout, ls, Got(st.observed, chain), Got(r.observed, chain), chain))
    && r.unverified == st.unverified + Gaps(e, key, layout, ls)
  }

  function Step(o: Outcome, l: Live, r: Progress): Progress {
    var observed := Bump(r.observed, l.chain, false);
    match o
    case Diffed => r.(observed := Bump(observed, l.chain, true))
    case DeclaredGap => r.(observed := observed, unverified := r.unverified + [l])
    case _ => r.(failed := true, observed := observed)
  }

  lemma SnocCount(e: Estate, key: string, layout: string, ls: seq<Live>, l: Live, chain: nat, os: set<Outcome>)
    ensures Count(e, key, layout, ls + [l], chain, os)
            == Count(e, key, layout, ls, chain, os)
               + if l.chain == chain && Judge(e, key, layout, l) in os then 1 else 0
  {
    assert (ls + [l])[..|ls|] == ls;
  }

  lemma StepObserved(e: Estate, key: string, layout: string, ls: seq<Live>, l: Live,
                     st: Progress, r: Progress, o: Outcome, chain: nat)
    requires o == Judge(e, key, layout, l)
    requires ObservedAt(e, key, layout, ls, Got(st.observed, chain), Got(r.observed, chain), chain)
    ensures ObservedAt(e, key, layout, ls + [l], Got(st.observed, chain), Got(Step(o, l, r).observed, chain), chain)
  {
    SnocCount(e, key, layout, ls, l, chain, ANY);
    SnocCount(e, key, layout, ls, l, chain, {Diffed});
  }

  lemma StepSeen(e: Estate, key: string, layout: string, ls: seq<Live>, l: Live, st: Progress, r: Progress, o: Outcome)
    requires o == Judge(e, key, layout, l) && Seen(e, key, layout, ls, st, r)
    ensures Seen(e, key, layout, ls + [l], st, Step(o, l, r))
  {
    assert SoundLive(e, key, layout, ls + [l]) <==> SoundLive(e, key, layout, ls) && Sound(o) by {
      assert l in ls + [l];
      assert forall x | x in ls :: x in ls + [l];
    }
    forall chain
      ensures ObservedAt(e, key, layout, ls + [l], Got(st.observed, chain), Got(Step(o, l, r).observed, chain), chain)
    {
      StepObserved(e, key, layout, ls, l, st, r, o, chain);
    }
    assert (ls + [l])[..|ls|] == ls;
  }

  method CheckLive(e: Estate, layouts: Layouts, key: string, layout: string, ls: seq<Live>, st: Progress)
    returns (r: Progress)
    requires forall chain, a :: FindAt(layouts, chain, a) == LayoutAt(e.manifests, chain, a)
    ensures Seen(e, key, layout, ls, st, r)
  {
    r := st;
    for i := 0 to |ls|
      invariant Seen(e, key, layout, ls[..i], st, r)
    {
      var l := ls[i];
      assert ls[..i + 1] == ls[..i] + [l];
      StepSeen(e, key, layout, ls[..i], l, st, r, Judge(e, key, layout, l));
      var observed := Bump(r.observed, l.chain, false);
      var deployed := FindAt(layouts, l.chain, Lower(l.impl));
      if deployed.None? {
        if IsUnverifiable(e.declared, key, l) {
          r := r.(observed := observed, unverified := r.unverified + [l]);
        } else {
          r := r.(failed := true, observed := observed);
        }
      } else if e.safe(deployed.value, layout) {
        r := r.(observed := Bump(observed, l.chain, true));
      } else {
        r := r.(failed := true, observed := observed);
      }
    }
    assert ls[..|ls|] == ls;
  }

  ghost predicate ObservedAll(e: Estate, cs: seq<Contract>, observed: map<nat, Row>) {
    forall chain :: Got(observed, chain) == Row(CountAll(e, cs, chain, ANY), CountAll(e, cs, chain, {Diffed}))
  }

  ghost predicate Checked(e: Estate, cs: seq<Contract>, failed: bool, r: Progress) {
    && (r.failed <==> failed || !SoundAll(e, cs))
    && ObservedAll(e, cs, r.observed)
    && r.unverified == GapsAll(e, cs)
  }

  lemma SoundSnoc(e: Estate, cs: seq<Contract>, c: Contract)
    ensures SoundAll(e, cs + [c]) <==> SoundAll(e, cs) && AllSound(e, c)
  {
    assert c in cs + [c];
    assert forall x | x in cs :: x in cs + [c];
  }

  lemma ObservedSnoc(e: Estate, cs: seq<Contract>, c: Contract, before: Row, after: Row, chain: nat)
    requires before == Row(CountAll(e, cs, chain, ANY), CountAll(e, cs, chain, {Diffed}))
    requires c.layout.None? ==> after == before
    requires c.layout.Some? ==> ObservedAt(e, c.key, c.layout.value, LiveIn(e.files, c.key), before, after, chain)
    ensures after == Row(CountAll(e, cs + [c], chain, ANY), CountAll(e, cs + [c], chain, {Diffed}))
  {
    assert (cs + [c])[..|cs|] == cs;
  }

  lemma GapsSnoc(e: Estate, cs: seq<Contract>, c: Contract)
    ensures c.layout.None? ==> GapsAll(e, cs + [c]) == GapsAll(e, cs)
    ensures c.layout.Some? ==>
            GapsAll(e, cs + [c]) == GapsAll(e, cs) + Gaps(e, c.key, c.layout.value, LiveIn(e.files, c.key))
  {
    assert (cs + [c])[..|cs|] == cs;
  }

  lemma CheckedStep(e: Estate, cs: seq<Contract>, c: Contract, failed: bool, st: Progress, r: Progress)
    requires Checked(e, cs, failed, st)
    requires c.layout.None? ==> r == st.(failed := true)
    requires c.layout.Some? ==> Seen(e, c.key, c.layout.value, LiveIn(e.files, c.key), st, r)
    ensures Checked(e, cs + [c], failed, r)
  {
    SoundSnoc(e, cs, c);
    GapsSnoc(e, cs, c);
    forall chain
      ensures Got(r.observed, chain) == Row(CountAll(e, cs + [c], chain, ANY), CountAll(e, cs + [c], chain, {Diffed}))
    {
      ObservedSnoc(e, cs, c, Got(st.observed, chain), Got(r.observed, chain), chain);
    }
  }

  method CheckFacets(facets: seq<bool>) returns (failed: bool)
    ensures failed <==> exists k | 0 <= k < |facets| :: !facets[k]
  {
    failed := false;
    for i := 0 to |facets|
      invariant failed <==> exists k | 0 <= k < i :: !facets[k]
    {
      if !facets[i] {
        failed := true;
      }
    }
  }

  method CheckContracts(e: Estate, failed: bool, cs: seq<Contract>) returns (r: Progress)
    ensures Checked(e, cs, failed, r)
  {
    var layouts := LoadManifestLayouts(e.manifests);
    r := Progress(failed, map[], []);
    for i := 0 to |cs|
      invariant Checked(e, cs[..i], failed, r)
    {
      var c := cs[i];
      assert cs[..i + 1] == cs[..i] + [c];
      ghost var st := r;
      if c.layout.None? {
        r := r.(failed := true);
      } else {
        var recorded, _ := LoadRecordedImpls(c.key, e.files);
        r := CheckLive(e, layouts, c.key, c.layout.value, recorded, r);
      }
      CheckedStep(e, cs[..i], c, failed, st, r);
    }
    assert cs[..|cs|] == cs;
  }

  /** main: exit code 0 exactly when everything recorded is sound and every floor is reached. */
  method RunGate(e: Estate, facets: seq<bool>, cs: seq<Contract>)
    returns (exit: nat, observed: map<nat, Row>, unverified: seq<Live>)
    ensures exit == 0 || exit == 1
    ensures exit == 0 <==> Passes(e, facets, cs)
    ensures exit == 0 <==>
            && (forall i | 0 <= i < |facets| :: facets[i]) && RecordsCovered(e, cs)
            && forall chain | chain in e.floors :: FloorMet(e, cs, chain)
    ensures ObservedAll(e, cs, observed)
    ensures unverified == GapsAll(e, cs)
  {
    SoundAllExactly(e, cs);
    var facetsFailed := CheckFacets(facets);
    var st := CheckContracts(e, facetsFailed, cs);
    observed, unverified := st.observed, st.unverified;
    var failed := st.failed;
    var chains := e.floors.Keys;
    while chains != {}
      invariant chains <= e.floors.Keys
      invariant failed <==> st.failed || exists chain | chain in e.floors && chain !in chains :: !FloorMet(e, cs, chain)
      decreases |chains|
    {
      ghost var before := chains;
      var chain :| chain in chains;
      var got := Got(observed, chain);
      assert got == Row(CountAll(e, cs, chain, ANY), CountAll(e, cs, chain, {Diffed}));
      if got.records < e.floors[chain].records || got.diffed < e.floors[chain].diffed {
        failed := true;
      }
      chains := chains - {chain};
      assert forall x :: x in before <==> x in chains || x == chain;
    }
    exit := if failed then 1 else 0;
  }

  // ---------------------------------------------------------------- what a pass means

  /** The declaration that an implementation cannot be compared: same contract, same chain, same address. */
  ghost predicate IsDeclared(declared: seq<Declared>, key: string, l: Live) {
    exists d | d in declared :: d.key == key && d.chain == l.chain && Lower(d.impl) == Lower(l.impl)
  }

  lemma DeclaredExactly(declared: seq<Declared>, key: string, l: Live)
    ensures IsUnverifiable(declared, key, l) <==> IsDeclared(declared, key, l)
  {
    if IsUnverifiable(declared, key, l) {
      var i :| 0 <= i < |declared| && declared[i].key == key && declared[i].chain == l.chain
               && Lower(declared[i].impl) == Lower(l.impl);
      assert declared[i] in declared;
    }
  }

  /** An entry with an address and a layout, for this address in whatever case. */
  ghost predicate Gives(entry: Entry, a: string, layout: string) {
    entry.address != "" && entry.layout == layout && layout != "" && Lower(entry.address) == a
  }

  /** Entry j of manifest i is the last one of this chain that has a layout for the address. */
  ghost predicate LastGives(ms: seq<Manifest>, chain: nat, a: string, layout: string, i: nat, j: nat) {
    && i < |ms| && ms[i].chain == chain && j < |ms[i].entries| && Gives(ms[i].entries[j], a, layout)
    && (forall k, d | j < k < |ms[i].entries| :: !Gives(ms[i].entries[k], a, d))
    && forall m, k, d | i < m < |ms| && ms[m].chain == chain && 0 <= k < |ms[m].entries| ::
         !Gives(ms[m].entries[k], a, d)
  }

  lemma {:induction false} LayoutInExactly(es: seq<Entry>, a: string) returns (j: nat)
    ensures LayoutIn(es, a).None? ==> forall k, d | 0 <= k < |es| :: !Gives(es[k], a, d)
    ensures LayoutIn(es, a).Some? ==> j < |es| && Gives(es[j], a, LayoutIn(es, a).value)
    ensures LayoutIn(es, a).Some? ==> forall k, d | j < k < |es| :: !Gives(es[k], a, d)
  {
    j := 0;
    if es != [] {
      var last := es[|es| - 1];
      if last.address != "" && last.layout != "" && Lower(last.address) == a {
        j := |es| - 1;
      } else {
        j := LayoutInExactly(es[..|es| - 1], a);
        assert forall k | 0 <= k < |es| - 1 :: es[..|es| - 1][k] == es[k];
      }
    }
  }

  /** The layout found for an address on a chain is the one its manifests give last; none if none does. */
  lemma {:induction false} LayoutAtExactly(ms: seq<Manifest>, chain: nat, a: string) returns (i: nat, j: nat)
    ensures LayoutAt(ms, chain, a).Some? ==> LastGives(ms, chain, a, LayoutAt(ms, chain, a).value, i, j)
    ensures LayoutAt(ms, chain, a).None? ==>
              forall m, k, d | 0 <= m < |ms| && ms[m].chain == chain && 0 <= k < |ms[m].entries| ::
                !Gives(ms[m].entries[k], a, d)
  {
    i, j := 0, 0;
    if ms != [] {
      var front, last := ms[..|ms| - 1], ms[|ms| - 1];
      var own := LayoutInExactly(last.entries, a);
      if last.chain == chain && LayoutIn(last.entries, a).Some? {
        i, j := |ms| - 1, own;
      } else {
        i, j := LayoutAtExactly(front, chain, a);
        assert forall m | 0 <= m < |front| :: front[m] == ms[m];
      }
    }
  }

  /** A layout committed for this implementation on its own chain, and none that any later entry replaces. */
  ghost predicate Committed(e: Estate, l: Live, layout: string) {
    exists i: nat, j: nat :: LastGives(e.manifests, l.chain, Lower(l.impl), layout, i, j)
  }

  /** Compatible with what its own chain committed, or declared where nothing is. */
  ghost predicate Covered(e: Estate, key: string, layout: string, l: Live) {
    || (exists d :: Committed(e, l, d) && e.safe(d, layout))
    || ((forall d :: !Committed(e, l, d)) && IsDeclared(e.declared, key, l))
  }

  lemma GivenOnce(ms: seq<Manifest>, chain: nat, a: string, d: string, i: nat, j: nat, d': string, i': nat, j': nat)
    requires LastGives(ms, chain, a, d, i, j) && LastGives(ms, chain, a, d', i', j')
    ensures d == d'
  {
    assert Gives(ms[i].entries[j], a, d) && Gives(ms[i'].entries[j'], a, d');
    assert i == i';
    assert j == j';
  }

  lemma CommittedExactly(e: Estate, l: Live, d: string)
    ensures Committed(e, l, d) <==> LayoutAt(e.manifests, l.chain, Lower(l.impl)) == Some(d)
  {
    var ms, a := e.manifests, Lower(l.impl);
    var i, j := LayoutAtExactly(ms, l.chain, a);
    if Committed(e, l, d) {
      var i': nat, j': nat :| LastGives(ms, l.chain, a, d, i', j');
      assert Gives(ms[i'].entries[j'], a, d);
      GivenOnce(ms, l.chain, a, d, i', j', LayoutAt(ms, l.chain, a).value, i, j);
    }
  }

  lemma SoundExactly(e: Estate, key: string, layout: string, l: Live)
    ensures Sound(Judge(e, key, layout, l)) <==> Covered(e, key, layout, l)
    ensures Judge(e, key, layout, l).Diffed? <==> exists d :: Committed(e, l, d) && e.safe(d, layout)
  {
    forall d
      ensures Committed(e, l, d) <==> LayoutAt(e.manifests, l.chain, Lower(l.impl)) == Some(d)
    {
      CommittedExactly(e, l, d);
    }
    DeclaredExactly(e.declared, key, l);
  }

  /**
   * What a pass asks of what is recorded, said by the files alone: every contract has a layout, and every
   * implementation a record file names for it off the local chains is covered.
   */
  ghost predicate RecordsCovered(e: Estate, cs: seq<Contract>) {
    forall c | c in cs ::
      c.layout.Some? && forall l | SomeRecords(e.files, c.key, l) :: Covered(e, c.key, c.layout.value, l)
  }

  lemma SoundAllExactly(e: Estate, cs: seq<Contract>)
    ensures SoundAll(e, cs) <==> RecordsCovered(e, cs)
  {
    forall c | c in cs
      ensures AllSound(e, c) <==>
              c.layout.Some? && forall l | SomeRecords(e.files, c.key, l) :: Covered(e, c.key, c.layout.value, l)
    {
      if c.layout.Some? {
        forall l
          ensures l in LiveIn(e.files, c.key) <==> SomeRecords(e.files, c.key, l)
          ensures Sound(Judge(e, c.key, c.layout.value, l)) <==> Covered(e, c.key, c.layout.value, l)
        {
          LiveExactly(e.files, c.key, l);
          SoundExactly(e, c.key, c.layout.value, l);
        }
      }
    }
  }

  /** The file names, on this chain, an implementation that came out in one of these ways. */
  ghost predicate NamesOne(e: Estate, key: string, layout: string, f: File, chain: nat, os: set<Outcome>) {
    exists l :: Records(f, key, l) && l.chain == chain && Judge(e, key, layout, l) in os
  }

  /** The files that name, on this chain, an implementation that came out in one of these ways. */
  ghost function Naming(e: Estate, key: string, layout: string, n: nat, chain: nat, os: set<Outcome>): set<nat>
    requires n <= |e.files|
  {
    set i: nat | i < n && NamesOne(e, key, layout, e.files[i], chain, os)
  }

  /** What a floor is held against: how many record files name an implementation there, counted by the files. */
  lemma {:induction false} CountExactly(e: Estate, key: string, layout: string, n: nat, chain: nat, os: set<Outcome>)
    requires n <= |e.files|
    ensures Count(e, key, layout, LiveIn(e.files[..n], key), chain, os) == |Naming(e, key, layout, n, chain, os)|
  {
    if n == 0 {
      assert Naming(e, key, layout, n, chain, os) == {};
    } else {
      var f := e.files[n - 1];
      CountExactly(e, key, layout, n - 1, chain, os);
      assert e.files[..n][..n - 1] == e.files[..n - 1];
      CountOne(e, key, layout, LiveIn(e.files[..n - 1], key), f, chain, os);
      NamingOneMore(e, key, layout, n, chain, os);
    }
  }

  lemma NamingOneMore(e: Estate, key: string, layout: string, n: nat, chain: nat, os: set<Outcome>)
    requires 0 < n <= |e.files|
    ensures |Naming(e, key, layout, n, chain, os)|
            == |Naming(e, key, layout, n - 1, chain, os)|
               + if NamesOne(e, key, layout, e.files[n - 1], chain, os) then 1 else 0
  {
    NamingGrows(e, key, layout, n - 1, chain, os);
    var last: nat := n - 1;
    assert last !in Naming(e, key, layout, n - 1, chain, os);
  }

  lemma NamingGrows(e: Estate, key: string, layout: string, n: nat, chain: nat, os: set<Outcome>)
    requires n < |e.files|
    ensures Naming(e, key, layout, n + 1, chain, os)
            == Naming(e, key, layout, n, chain, os)
               + if NamesOne(e, key, layout, e.files[n], chain, os) then {n} else {}
  {
  }

  lemma CountOne(e: Estate, key: string, layout: string, ls: seq<Live>, f: File, chain: nat, os: set<Outcome>)
    ensures Count(e, key, layout, ls + LiveOf(f, key), chain, os)
            == Count(e, key, layout, ls, chain, os) + if NamesOne(e, key, layout, f, chain, os) then 1 else 0
  {
    forall l
      ensures l in LiveOf(f, key) <==> Records(f, key, l)
      ensures |LiveOf(f, key)| <= 1
    {
      LiveOfExactly(f, key, l);
    }
    if LiveOf(f, key) == [] {
      assert ls + LiveOf(f, key) == ls;
    } else {
      var l := LiveOf(f, key)[0];
      assert LiveOf(f, key) == [l] && l in LiveOf(f, key);
      SnocCount(e, key, layout, ls, l, chain, os);
    }
  }

  /** Every implementation a record names off the local chains was found compatible on its own chain, or is declared. */
  lemma PassCovers(e: Estate, facets: seq<bool>, cs: seq<Contract>, c: Contract, i: nat, l: Live)
    requires Passes(e, facets, cs) && c in cs && i < |e.files| && Records(e.files[i], c.key, l)
    ensures c.layout.Some? && Covered(e, c.key, c.layout.value, l)
  {
    SoundAllExactly(e, cs);
    assert SomeRecords(e.files, c.key, l);
  }

  /** So one recorded under `contracts` with nothing at the top, as the committed records have it. */
  lemma PassCoversContracts(e: Estate, facets: seq<bool>, cs: seq<Contract>, c: Contract, i: nat, chain: nat)
    requires Passes(e, facets, cs) && c in cs && i < |e.files|
    requires e.files[i].chain == Some(chain) && chain != 1337 && chain != 31337 && e.files[i].record.Some?
    requires c.key + "Impl" !in e.files[i].record.value.top
    requires var r := e.files[i].record.value; c.key + "Impl" in r.contracts && r.contracts[c.key + "Impl"] != ""
    ensures c.layout.Some?
    ensures var impl := e.files[i].record.value.contracts[c.key + "Impl"];
            Covered(e, c.key, c.layout.value, Live(impl, chain, e.files[i].name))
  {
    var impl := e.files[i].record.value.contracts[c.key + "Impl"];
    PassCovers(e, facets, cs, c, i, Live(impl, chain, e.files[i].name));
  }

  lemma {:induction false} CountSplit(e: Estate, key: string, layout: string, ls: seq<Live>, chain: nat)
    requires forall l | l in ls :: Sound(Judge(e, key, layout, l))
    ensures Count(e, key, layout, ls, chain, ANY)
            == Count(e, key, layout, ls, chain, {Diffed}) + Count(e, key, layout, ls, chain, {DeclaredGap})
  {
    if ls != [] {
      CountSplit(e, key, layout, ls[..|ls| - 1], chain);
      assert ls[|ls| - 1] in ls;
    }
  }

  /** On every chain of a passing estate, records are the diffed ones and the declared ones. */
  lemma {:induction false} PassConserves(e: Estate, cs: seq<Contract>, chain: nat)
    requires SoundAll(e, cs)
    ensures CountAll(e, cs, chain, ANY) == CountAll(e, cs, chain, {Diffed}) + CountAll(e, cs, chain, {DeclaredGap})
  {
    if cs != [] {
      var front, c := cs[..|cs| - 1], cs[|cs| - 1];
      assert cs == front + [c];
      SoundSnoc(e, front, c);
      PassConserves(e, front, chain);
      CountSplit(e, c.key, c.layout.value, LiveIn(e.files, c.key), chain);
    }
  }

  // ---------------------------------------------------------------- growing the estate

  /** The estate with one more record file, wherever the directory listing puts it. */
  function Grown(e: Estate, p: nat, f: File): Estate
    requires p <= |e.files|
  {
    e.(files := e.files[..p] + [f] + e.files[p..])
  }

  lemma LiveGrown(e: Estate, p: nat, f: File, key: string) returns (a: seq<Live>, b: seq<Live>)
    requires p <= |e.files|
    ensures LiveIn(e.files, key) == a + b
    ensures LiveIn(Grown(e, p, f).files, key) == a + LiveOf(f, key) + b
  {
    var front, back := e.files[..p], e.files[p..];
    a, b := LiveIn(front, key), LiveIn(back, key);
    assert e.files == front + back;
    LiveConcat(front, back, key);
    LiveConcat(front + [f], back, key);
    assert (front + [f])[..|front|] == front;
  }

  lemma {:induction false} CountConcat(e: Estate, key: string, layout: string, ls: seq<Live>, ms: seq<Live>,
                                       chain: nat, os: set<Outcome>)
    ensures Count(e, key, layout, ls + ms, chain, os)
            == Count(e, key, layout, ls, chain, os) + Count(e, key, layout, ms, chain, os)
  {
    if ms == [] {
      assert ls + ms == ls;
    } else {
      CountConcat(e, key, layout, ls, ms[..|ms| - 1], chain, os);
      assert ls + ms == (ls + ms[..|ms| - 1]) + [ms[|ms| - 1]];
      SnocCount(e, key, layout, ls + ms[..|ms| - 1], ms[|ms| - 1], chain, os);
    }
  }

  /** Counts do not depend on the files, nor, for outcomes with a layout, on what is declared. */
  lemma {:induction false} CountSame(e: Estate, e': Estate, key: string, layout: string, ls: seq<Live>,
                                     chain: nat, os: set<Outcome>)
    requires e.manifests == e'.manifests && e.safe == e'.safe
    requires e.declared == e'.declared || os <= {Diffed, Incompatible}
    ensures Count(e, key, layout, ls, chain, os) == Count(e', key, layout, ls, chain, os)
  {
    if ls != [] {
      CountSame(e, e', key, layout, ls[..|ls| - 1], chain, os);
    }
  }

  lemma {:induction false} CountGrown(e: Estate, p: nat, f: File, cs: seq<Contract>, chain: nat, os: set<Outcome>)
    requires p <= |e.files|
    ensures CountAll(Grown(e, p, f), cs, chain, os) >= CountAll(e, cs, chain, os)
  {
    if cs != [] {
      var c := cs[|cs| - 1];
      CountGrown(e, p, f, cs[..|cs| - 1], chain, os);
      if c.layout.Some? {
        var a, b := LiveGrown(e, p, f, c.key);
        CountConcat(e, c.key, c.layout.value, a, b, chain, os);
        CountConcat(e, c.key, c.layout.value, a + LiveOf(f, c.key), b, chain, os);
        CountConcat(e, c.key, c.layout.value, a, LiveOf(f, c.key), chain, os);
        CountSame(e, Grown(e, p, f), c.key, c.layout.value, a + LiveOf(f, c.key) + b, chain, os);
      }
    }
  }

  lemma SoundGrown(e: Estate, p: nat, f: File, key: string, layout: string)
    requires p <= |e.files|
    requires SoundLive(e, key, layout, LiveIn(e.files, key)) && SoundLive(e, key, layout, LiveOf(f, key))
    ensures SoundLive(Grown(e, p, f), key, layout, LiveIn(Grown(e, p, f).files, key))
  {
    var a, b := LiveGrown(e, p, f, key);
    forall l | l in a + LiveOf(f, key) + b
      ensures Sound(Judge(Grown(e, p, f), key, layout, l))
    {
      assert l in a + b || l in LiveOf(f, key);
      assert Judge(Grown(e, p, f), key, layout, l) == Judge(e, key, layout, l);
    }
  }

  /** Deploying more never fails the gate, as long as what is added is sound. */
  lemma PassGrows(e: Estate, p: nat, f: File, facets: seq<bool>, cs: seq<Contract>)
    requires p <= |e.files| && Passes(e, facets, cs)
    requires forall c | c in cs && c.layout.Some? :: SoundLive(e, c.key, c.layout.value, LiveOf(f, c.key))
    ensures Passes(Grown(e, p, f), facets, cs)
  {
    forall c | c in cs
      ensures AllSound(Grown(e, p, f), c)
    {
      assert AllSound(e, c);
      SoundGrown(e, p, f, c.key, c.layout.value);
    }
    forall chain | chain in e.floors
      ensures FloorMet(Grown(e, p, f), cs, chain)
    {
      assert FloorMet(e, cs, chain);
      CountGrown(e, p, f, cs, chain, ANY);
      CountGrown(e, p, f, cs, chain, {Diffed});
    }
  }

  /** Declaring gaps changes no count of diffed implementations, and silences no incompatible one. */
  lemma {:induction false} DeclaringDiffsNothing(e: Estate, declared: seq<Declared>, cs: seq<Contract>,
                                                 chain: nat, os: set<Outcome>)
    requires os <= {Diffed, Incompatible}
    ensures CountAll(e.(declared := declared), cs, chain, os) == CountAll(e, cs, chain, os)
  {
    if cs != [] {
      var c := cs[|cs| - 1];
      DeclaringDiffsNothing(e, declared, cs[..|cs| - 1], chain, os);
      if c.layout.Some? {
        CountSame(e, e.(declared := declared), c.key, c.layout.value, LiveIn(e.files, c.key), chain, os);
      }
    }
  }
}
