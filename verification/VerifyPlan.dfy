/**
 * scripts/deploy/verify.js: a plan that accounts for every recorded address, and an exit code that
 * means what it says.
 */
module VerifyPlan {
  import opened Results

  // ---------------------------------------------------------------- the record and the catalog

  /** A recorded key, under `mocks` or under `contracts`. */
  datatype Id = Id(mock: bool, key: string)

  /** Absent is null, undefined or the empty text; Junk is anything else that is no usable address. */
  datatype Value = Absent | Address(address: string) | Junk(text: string)

  datatype Entry = Entry(id: Id, value: Value)

  type Args = seq<string>

  /** Where a source is, and the constructor arguments that can be reconstructed for it, if any. */
  datatype Source = Source(fqn: string, args: Option<Args>)

  datatype Known =
    | Proxy(implKey: string, legacy: Option<Source>)
    | Ours(rank: nat, source: Source)
    | NotOurs
    | Retired

  /** `persisted` holds recorded constructor arguments; a recorded null is None. */
  datatype Ctx = Ctx(contracts: seq<Entry>, mocks: seq<Entry>, catalog: map<string, Known>,
                     artifacts: set<string>, persisted: map<string, Option<Args>>)

  /** The bags as the record gives them: keys of one bag differ. */
  ghost predicate WellFormed(ctx: Ctx) {
    && (forall i | 0 <= i < |ctx.contracts| :: !ctx.contracts[i].id.mock)
    && (forall i | 0 <= i < |ctx.mocks| :: ctx.mocks[i].id.mock)
    && (forall i, j | 0 <= i < j < |ctx.contracts| :: ctx.contracts[i].id != ctx.contracts[j].id)
    && (forall i, j | 0 <= i < j < |ctx.mocks| :: ctx.mocks[i].id != ctx.mocks[j].id)
  }

  function All(ctx: Ctx): seq<Entry> {
    ctx.contracts + ctx.mocks
  }

  /** An entry of either bag of the record. */
  ghost predicate Recorded(ctx: Ctx, e: Entry) {
    e in ctx.contracts || e in ctx.mocks
  }

  lemma AllExactly(ctx: Ctx, e: Entry)
    ensures e in All(ctx) <==> Recorded(ctx, e)
  {
  }

  /** ctx.c[key]: the value recorded under contracts. */
  function Lookup(bag: seq<Entry>, key: string): Value {
    if bag == [] then Absent else if bag[0].id.key == key then bag[0].value else Lookup(bag[1..], key)
  }

  /** In a bag whose keys differ: the value of the entry with that key, and nothing without one. */
  lemma {:induction false} LookupExactly(bag: seq<Entry>, key: string, mock: bool)
    requires forall i | 0 <= i < |bag| :: bag[i].id.mock == mock
    requires forall i, j | 0 <= i < j < |bag| :: bag[i].id != bag[j].id
    ensures forall e | e in bag && e.id.key == key :: Lookup(bag, key) == e.value
    ensures (forall e | e in bag :: e.id.key != key) ==> Lookup(bag, key) == Absent
  {
    if bag != [] {
      LookupExactly(bag[1..], key, mock);
      assert forall e | e in bag :: e == bag[0] || e in bag[1..];
      assert forall e | e in bag[1..] && e.id.key == key :: bag[0].id != e.id;
    }
  }

  // ---------------------------------------------------------------- the plan

  const UNRANKED := 9

  datatype Body = Submit(fqn: string, args: Args, rank: nat) | ProxyOf(implKey: string, impl: string) | Noted

  datatype Item = Item(id: Id, address: string, body: Body)

  datatype Plan = Plan(verify: seq<Item>, proxies: seq<Item>, skipped: seq<Item>, historical: seq<Item>,
                       unverifiable: seq<Item>)

  /** How many items stand for a recorded key. */
  function Count(s: seq<Item>, id: Id): nat {
    if s == [] then 0 else Count(s[..|s| - 1], id) + if s[|s| - 1].id == id then 1 else 0
  }

  /** How often the plan as a whole accounts for a recorded key. */
  function Total(p: Plan, id: Id): nat {
    Count(p.verify, id) + Count(p.proxies, id) + Count(p.skipped, id) + Count(p.historical, id)
    + Count(p.unverifiable, id)
  }

  /** How many entries with a value a key has. */
  function Present(es: seq<Entry>, id: Id): nat {
    if es == [] then 0
    else Present(es[..|es| - 1], id) + if es[|es| - 1].id == id && !es[|es| - 1].value.Absent? then 1 else 0
  }

  lemma CountSnoc(s: seq<Item>, x: Item, id: Id)
    ensures Count(s + [x], id) == Count(s, id) + if x.id == id then 1 else 0
  {
    assert (s + [x])[..|s|] == s;
  }

  lemma {:induction false} CountConcat(s: seq<Item>, t: seq<Item>, id: Id)
    ensures Count(s + t, id) == Count(s, id) + Count(t, id)
  {
    if t == [] {
      assert s + t == s;
    } else {
      CountConcat(s, t[..|t| - 1], id);
      assert s + t == (s + t[..|t| - 1]) + [t[|t| - 1]];
      CountSnoc(s + t[..|t| - 1], t[|t| - 1], id);
    }
  }

  /** The arguments that would be submitted: persisted ones win, even a persisted null. */
  function ResolveArgs(ctx: Ctx, key: string, source: Source): Option<Args> {
    if key in ctx.persisted then ctx.persisted[key] else source.args
  }

  /** Recorded arguments are the only ones where any are recorded, a null included. */
  ghost predicate Supplies(ctx: Ctx, key: string, source: Source, args: Args) {
    if key in ctx.persisted then ctx.persisted[key] == Some(args) else source.args == Some(args)
  }

  /** What puts an entry in each bucket; `RouteExactly` has that no two of the five conditions meet. */
  ghost predicate BelongsVerify(ctx: Ctx, e: Entry, it: Item) {
    && e.value.Address? && e.id.key in ctx.catalog && it.body.Submit?
    && var k := ctx.catalog[e.id.key];
       && (k.Ours? || (k.Proxy? && k.legacy.Some? && !Lookup(ctx.contracts, k.implKey).Address?))
       && var source := if k.Ours? then k.source else k.legacy.value;
          && source.fqn in ctx.artifacts && it.body.fqn == source.fqn
          && Supplies(ctx, e.id.key, source, it.body.args)
          && it.body.rank == if k.Ours? then k.rank else 9
  }

  ghost predicate BelongsProxy(ctx: Ctx, e: Entry, it: Item) {
    && e.value.Address? && e.id.key in ctx.catalog && ctx.catalog[e.id.key].Proxy?
    && it.body.ProxyOf? && it.body.implKey == ctx.catalog[e.id.key].implKey
    && Lookup(ctx.contracts, it.body.implKey) == Address(it.body.impl)
  }

  ghost predicate BelongsSkipped(ctx: Ctx, e: Entry) {
    e.value.Address? && e.id.key in ctx.catalog && ctx.catalog[e.id.key].NotOurs?
  }

  ghost predicate BelongsHistorical(ctx: Ctx, e: Entry) {
    e.value.Address? && e.id.key in ctx.catalog && ctx.catalog[e.id.key].Retired?
  }

  ghost predicate NoSource(ctx: Ctx, key: string, source: Source) {
    source.fqn !in ctx.artifacts || forall args :: !Supplies(ctx, key, source, args)
  }

  ghost predicate BelongsUnverifiable(ctx: Ctx, e: Entry) {
    || e.value.Junk?
    || (e.value.Address? &&
          (e.id.key !in ctx.catalog
           || match ctx.catalog[e.id.key]
              case Ours(_, source) => NoSource(ctx, e.id.key, source)
              case Proxy(implKey, legacy) =>
                !Lookup(ctx.contracts, implKey).Address? && (legacy == None || NoSource(ctx, e.id.key, legacy.value))
              case _ => false))
  }

  function Reached(v: Value): string {
    match v
    case Address(address) => address
    case Junk(text) => text
    case Absent => ""
  }

  /** The item stands for the entry: the same key and the address recorded there. */
  ghost predicate Addressed(e: Entry, it: Item) {
    it.id == e.id && it.address == Reached(e.value)
  }

  /** Every item of the plan is in the bucket where an entry of the record belongs. */
  ghost predicate Placed(ctx: Ctx, es: seq<Entry>, p: Plan) {
    && (forall it | it in p.verify :: exists e | e in es :: Addressed(e, it) && BelongsVerify(ctx, e, it))
    && (forall it | it in p.proxies :: exists e | e in es :: Addressed(e, it) && BelongsProxy(ctx, e, it))
    && (forall it | it in p.skipped :: exists e | e in es :: Addressed(e, it) && BelongsSkipped(ctx, e))
    && (forall it | it in p.historical :: exists e | e in es :: Addressed(e, it) && BelongsHistorical(ctx, e))
    && (forall it | it in p.unverifiable :: exists e | e in es :: Addressed(e, it) && BelongsUnverifiable(ctx, e))
  }

  datatype Bucket = ToVerify | ToProxies | ToSkipped | ToHistorical | ToUnverifiable

  function Add(p: Plan, b: Bucket, it: Item): Plan {
    match b
    case ToVerify => p.(verify := p.verify + [it])
    case ToProxies => p.(proxies := p.proxies + [it])
    case ToSkipped => p.(skipped := p.skipped + [it])
    case ToHistorical => p.(historical := p.historical + [it])
    case ToUnverifiable => p.(unverifiable := p.unverifiable + [it])
  }

  ghost predicate Belongs(ctx: Ctx, e: Entry, b: Bucket, it: Item) {
    && Addressed(e, it)
    && match b
       case ToVerify => BelongsVerify(ctx, e, it)
       case ToProxies => BelongsProxy(ctx, e, it)
       case ToSkipped => it.body.Noted? && BelongsSkipped(ctx, e)
       case ToHistorical => it.body.Noted? && BelongsHistorical(ctx, e)
       case ToUnverifiable => it.body.Noted? && BelongsUnverifiable(ctx, e)
  }

  lemma AddCounts(p: Plan, b: Bucket, it: Item, id: Id)
    ensures Total(Add(p, b, it), id) == Total(p, id) + if it.id == id then 1 else 0
  {
    match b
    case ToVerify => CountSnoc(p.verify, it, id);
    case ToProxies => CountSnoc(p.proxies, it, id);
    case ToSkipped => CountSnoc(p.skipped, it, id);
    case ToHistorical => CountSnoc(p.historical, it, id);
    case ToUnverifiable => CountSnoc(p.unverifiable, it, id);
  }

  lemma PlacedGrows(ctx: Ctx, es: seq<Entry>, e: Entry, p: Plan)
    requires Placed(ctx, es, p)
    ensures Placed(ctx, es + [e], p)
  {
    assert forall x | x in es :: x in es + [e];
  }

  lemma AddPlaces(ctx: Ctx, es: seq<Entry>, e: Entry, p: Plan, b: Bucket, it: Item)
    requires Placed(ctx, es, p) && e in es && Belongs(ctx, e, b, it)
    ensures Placed(ctx, es, Add(p, b, it))
  {
  }

  /** pushVerifyOrUnverifiable: nothing is submitted on guessed arguments. */
  function Submission(e: Entry, source: Source, args: Option<Args>, rank: nat): (r: (Bucket, Item))
    requires e.value.Address?
  {
    if args == None then (ToUnverifiable, Item(e.id, e.value.address, Noted))
    else (ToVerify, Item(e.id, e.value.address, Submit(source.fqn, args.value, rank)))
  }

  /** Where one entry with a value goes, decided as the loop body decides it. */
  function Route(ctx: Ctx, e: Entry): (r: (Bucket, Item))
    requires !e.value.Absent?
    ensures Belongs(ctx, e, r.0, r.1)
  {
    if e.value.Junk? then (ToUnverifiable, Item(e.id, e.value.text, Noted))
    else
      var noted := Item(e.id, e.value.address, Noted);
      if e.id.key !in ctx.catalog then (ToUnverifiable, noted)
      else
        match ctx.catalog[e.id.key]
        case NotOurs => (ToSkipped, noted)
        case Retired => (ToHistorical, noted)
        case Proxy(implKey, legacy) =>
          var impl := Lookup(ctx.contracts, implKey);
          if impl.Address? then (ToProxies, Item(e.id, e.value.address, ProxyOf(implKey, impl.address)))
          else if legacy.Some? && legacy.value.fqn in ctx.artifacts then
            Submission(e, legacy.value, ResolveArgs(ctx, e.id.key, legacy.value), UNRANKED)
          else (ToUnverifiable, noted)
        case Ours(rank, source) =>
          if source.fqn !in ctx.artifacts then (ToUnverifiable, noted)
          else Submission(e, source, ResolveArgs(ctx, e.id.key, source), rank)
  }

  /** The conditions of the buckets exclude each other, and each determines the item. */
  lemma RouteExactly(ctx: Ctx, e: Entry, b: Bucket, it: Item)
    requires !e.value.Absent?
    ensures Belongs(ctx, e, b, it) <==> Route(ctx, e) == (b, it)
  {
    var r := Route(ctx, e);
    assert Belongs(ctx, e, r.0, r.1);
  }

  const EMPTY := Plan([], [], [], [], [])

  function Gathered(ctx: Ctx, es: seq<Entry>): Plan {
    if es == [] then EMPTY
    else
      var front, e := Gathered(ctx, es[..|es| - 1]), es[|es| - 1];
      if e.value.Absent? then front else Add(front, Route(ctx, e).0, Route(ctx, e).1)
  }

  lemma {:induction false} GatheredCounts(ctx: Ctx, es: seq<Entry>, id: Id)
    ensures Total(Gathered(ctx, es), id) == Present(es, id)
  {
    if es != [] {
      var front, e := es[..|es| - 1], es[|es| - 1];
      GatheredCounts(ctx, front, id);
      if !e.value.Absent? {
        AddCounts(Gathered(ctx, front), Route(ctx, e).0, Route(ctx, e).1, id);
      }
    }
  }

  lemma {:induction false} GatheredPlaces(ctx: Ctx, es: seq<Entry>)
    ensures Placed(ctx, es, Gathered(ctx, es))
  {
    if es != [] {
      var front, e := es[..|es| - 1], es[|es| - 1];
      GatheredPlaces(ctx, front);
      PlacedGrows(ctx, front, e, Gathered(ctx, front));
      assert es == front + [e];
      if !e.value.Absent? {
        AddPlaces(ctx, es, e, Gathered(ctx, front), Route(ctx, e).0, Route(ctx, e).1);
      }
    }
  }

  function In(p: Plan, b: Bucket): seq<Item> {
    match b
    case ToVerify => p.verify
    case ToProxies => p.proxies
    case ToSkipped => p.skipped
    case ToHistorical => p.historical
    case ToUnverifiable => p.unverifiable
  }

  ghost predicate SomeBelongs(ctx: Ctx, es: seq<Entry>, b: Bucket, it: Item) {
    exists e | e in es && !e.value.Absent? :: Belongs(ctx, e, b, it)
  }

  lemma InSnoc(ctx: Ctx, es: seq<Entry>, e: Entry, b: Bucket, it: Item)
    ensures SomeBelongs(ctx, es + [e], b, it) <==>
            SomeBelongs(ctx, es, b, it) || (!e.value.Absent? && Belongs(ctx, e, b, it))
  {
    assert e in es + [e];
    assert forall x :: x in es + [e] <==> x in es || x == e;
  }

  lemma AddIn(p: Plan, b: Bucket, x: Item, b': Bucket, it: Item)
    ensures it in In(Add(p, b, x), b') <==> it in In(p, b') || (b, x) == (b', it)
  {
  }

  /** Each bucket holds exactly the items of the entries that belong there. */
  lemma {:induction false} GatheredExactly(ctx: Ctx, es: seq<Entry>, b: Bucket, it: Item)
    ensures it in In(Gathered(ctx, es), b) <==> SomeBelongs(ctx, es, b, it)
  {
    if es != [] {
      var front, e := es[..|es| - 1], es[|es| - 1];
      GatheredExactly(ctx, front, b, it);
      InSnoc(ctx, front, e, b, it);
      assert es == front + [e];
      if !e.value.Absent? {
        AddIn(Gathered(ctx, front), Route(ctx, e).0, Route(ctx, e).1, b, it);
        RouteExactly(ctx, e, b, it);
      }
    }
  }

  /** A bucket keeps the order of the record: what comes first there comes first here. */
  lemma {:induction false} GatheredInOrder(ctx: Ctx, es: seq<Entry>, more: seq<Entry>, b: Bucket)
    ensures In(Gathered(ctx, es + more), b) == In(Gathered(ctx, es), b) + In(Gathered(ctx, more), b)
  {
    if more == [] {
      assert es + more == es;
      assert In(Gathered(ctx, more), b) == [];
    } else {
      var front, e := more[..|more| - 1], more[|more| - 1];
      GatheredInOrder(ctx, es, front, b);
      assert (es + more)[..|es + more| - 1] == es + front && (es + more)[|es + more| - 1] == e;
      if !e.value.Absent? {
        AddAtEnd(Gathered(ctx, es + front), Route(ctx, e).0, Route(ctx, e).1, b);
        AddAtEnd(Gathered(ctx, front), Route(ctx, e).0, Route(ctx, e).1, b);
      }
    }
  }

  lemma AddAtEnd(p: Plan, b: Bucket, it: Item, c: Bucket)
    ensures In(Add(p, b, it), c) == In(p, c) + if b == c then [it] else []
  {
  }

  function PlanOf(ctx: Ctx): Plan {
    var p := Gathered(ctx, All(ctx));
    p.(verify := SortByRank(p.verify))
  }

  /** The finished plan: each bucket holds exactly the items of the recorded entries that belong there. */
  lemma PlanExactly(ctx: Ctx, b: Bucket, it: Item)
    ensures it in In(PlanOf(ctx), b) <==> exists e | Recorded(ctx, e) && !e.value.Absent? :: Belongs(ctx, e, b, it)
  {
    assert forall e :: e in All(ctx) <==> Recorded(ctx, e);
    GatheredExactly(ctx, All(ctx), b, it);
    SortSorts(Gathered(ctx, All(ctx)).verify);
  }

  /**
   * The plan: every entry with a value lands in exactly one bucket, in the one where it belongs, and
   * submissions go by rank and, within a rank, in the order of the record.
   */
  method BuildPlan(ctx: Ctx) returns (p: Plan)
    ensures p == PlanOf(ctx)
    ensures forall id :: Total(p, id) == Present(All(ctx), id)
    ensures Placed(ctx, All(ctx), p)
    ensures ByRank(p.verify)
    ensures forall it | it in p.verify :: it.body.Submit?
    ensures forall i, j | 0 <= i < j < |p.verify| && p.verify[i].body.Submit? && p.verify[j].body.Submit? ::
              p.verify[i].body.rank <= p.verify[j].body.rank
    ensures forall r :: OfRank(p.verify, r) == OfRank(Gathered(ctx, ctx.contracts + ctx.mocks).verify, r)
  {
    var es := All(ctx);
    p := EMPTY;
    for i := 0 to |es|
      invariant p == Gathered(ctx, es[..i])
    {
      assert es[..i + 1][..i] == es[..i];
      if es[i].value.Absent? {
        continue;
      }
      var r := Route(ctx, es[i]);
      p := Add(p, r.0, r.1);
    }
    assert es[..|es|] == es;
    GatheredPlaces(ctx, es);
    SortSorts(p.verify);
    forall id
      ensures Count(SortByRank(p.verify), id) == Count(p.verify, id) && Total(p, id) == Present(es, id)
    {
      SortCounts(p.verify, id);
      GatheredCounts(ctx, es, id);
    }
    forall r
      ensures OfRank(SortByRank(p.verify), r) == OfRank(p.verify, r)
    {
      SortStable(p.verify, r);
    }
    p := p.(verify := SortByRank(p.verify));
  }

  // ---------------------------------------------------------------- the stable sort by rank

  function Rank(it: Item): nat {
    if it.body.Submit? then it.body.rank else UNRANKED
  }

  /** Insert behind everything of the same rank. */
  function Insert(s: seq<Item>, x: Item): seq<Item> {
    if s == [] || Rank(s[|s| - 1]) <= Rank(x) then s + [x]
    else Insert(s[..|s| - 1], x) + [s[|s| - 1]]
  }

  function SortByRank(s: seq<Item>): seq<Item> {
    if s == [] then [] else Insert(SortByRank(s[..|s| - 1]), s[|s| - 1])
  }

  function OfRank(s: seq<Item>, r: nat): seq<Item> {
    if s == [] then [] else OfRank(s[..|s| - 1], r) + if Rank(s[|s| - 1]) == r then [s[|s| - 1]] else []
  }

  ghost predicate ByRank(s: seq<Item>) {
    forall i, j | 0 <= i < j < |s| :: Rank(s[i]) <= Rank(s[j])
  }

  lemma SnocByRank(s: seq<Item>, x: Item)
    requires ByRank(s) && forall y | y in s :: Rank(y) <= Rank(x)
    ensures ByRank(s + [x])
  {
    forall i | 0 <= i < |s|
      ensures Rank(s[i]) <= Rank(x)
    {
      assert s[i] in s;
    }
  }

  lemma {:induction false} InsertSorts(s: seq<Item>, x: Item)
    requires ByRank(s)
    ensures ByRank(Insert(s, x)) && (forall y :: y in Insert(s, x) <==> y in s || y == x)
  {
    if s == [] || Rank(s[|s| - 1]) <= Rank(x) {
      assert forall i | 0 <= i < |s| - 1 :: Rank(s[i]) <= Rank(s[|s| - 1]);
      SnocByRank(s, x);
    } else {
      var front, last := s[..|s| - 1], s[|s| - 1];
      InsertSorts(front, x);
      assert s == front + [last];
      SnocByRank(Insert(front, x), last);
    }
  }

  lemma {:induction false} InsertCounts(s: seq<Item>, x: Item, id: Id)
    ensures Count(Insert(s, x), id) == Count(s, id) + if x.id == id then 1 else 0
  {
    if s == [] || Rank(s[|s| - 1]) <= Rank(x) {
      CountSnoc(s, x, id);
    } else {
      InsertCounts(s[..|s| - 1], x, id);
      CountSnoc(Insert(s[..|s| - 1], x), s[|s| - 1], id);
    }
  }

  lemma OfRankSnoc(s: seq<Item>, x: Item, r: nat)
    ensures OfRank(s + [x], r) == OfRank(s, r) + if Rank(x) == r then [x] else []
  {
    assert (s + [x])[..|s|] == s;
  }

  lemma {:induction false} InsertStable(s: seq<Item>, x: Item, r: nat)
    requires ByRank(s)
    ensures OfRank(Insert(s, x), r) == OfRank(s, r) + if Rank(x) == r then [x] else []
  {
    if s == [] || Rank(s[|s| - 1]) <= Rank(x) {
      OfRankSnoc(s, x, r);
    } else {
      InsertStable(s[..|s| - 1], x, r);
      OfRankSnoc(Insert(s[..|s| - 1], x), s[|s| - 1], r);
    }
  }

  /** Sorting orders by rank, loses nothing and adds nothing. */
  lemma {:induction false} SortSorts(s: seq<Item>)
    ensures ByRank(SortByRank(s)) && (forall y :: y in SortByRank(s) <==> y in s)
  {
    if s != [] {
      SortSorts(s[..|s| - 1]);
      InsertSorts(SortByRank(s[..|s| - 1]), s[|s| - 1]);
      assert s == s[..|s| - 1] + [s[|s| - 1]];
    }
  }

  lemma {:induction false} SortCounts(s: seq<Item>, id: Id)
    ensures Count(SortByRank(s), id) == Count(s, id)
  {
    if s != [] {
      SortCounts(s[..|s| - 1], id);
      InsertCounts(SortByRank(s[..|s| - 1]), s[|s| - 1], id);
    }
  }

  /** Items of one rank keep the order in which the record lists them. */
  lemma {:induction false} SortStable(s: seq<Item>, r: nat)
    ensures OfRank(SortByRank(s), r) == OfRank(s, r)
  {
    if s != [] {
      SortStable(s[..|s| - 1], r);
      SortSorts(s[..|s| - 1]);
      InsertStable(SortByRank(s[..|s| - 1]), s[|s| - 1], r);
    }
  }
}
