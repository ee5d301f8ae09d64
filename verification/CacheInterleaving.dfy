/**
 * The same cache under every interleaving: each await of frontend/public/sw.js is a step, any step
 * may fault, the worker may be terminated and the browser may drop the whole cache.
 */
module CacheInterleaving {
  import opened Lru
  import opened Results
  import opened PackageCache
  import opened Sequences

  /** Where a request is: the await it is stopped at. */
  datatype Pc =
    | Matching
    | Fetching
    | Storing(body: Body)
    | ReadingIndex
    | Evicting(index: seq<Url>, pending: set<Url>)
    | Finished

  datatype Task = Task(url: Url, pc: Pc, answer: Answer)

  datatype Served = Served(url: Url, answer: Answer)

  /**
   * `loose` are deletes that were issued and whose issuer no longer waits for them; `fetched` is
   * the history of storable network answers.
   */
  datatype World = World(entries: Contents, tasks: map<nat, Task>, loose: set<Url>,
                         fetched: set<(Url, Body)>, served: seq<Served>)

  const START := World(map[], map[], {}, {}, [])

  datatype Step =
    | Arrive(id: nat, url: Url)
    | Match(id: nat)
    | MatchFault(id: nat)
    | Fetch(id: nat, response: Response)
    | FetchFault(id: nat)
    | Put(id: nat)
    | PutFault(id: nat)
    | Read(id: nat)
    | ReadFault(id: nat)
    | Delete(id: nat, url: Url)
    | DeleteFault(id: nat, url: Url)
    | PutIndex(id: nat)
    | PutIndexFault(id: nat)
    | Respond(id: nat)
    | LooseDelete(url: Url)
    | LooseFault(url: Url)
    | Terminate(id: nat)
    | Wipe

  predicate AtPc(w: World, id: nat, pc: Pc) {
    id in w.tasks && w.tasks[id].pc == pc
  }

  predicate Evicts(w: World, id: nat) {
    id in w.tasks && w.tasks[id].pc.Evicting?
  }

  predicate Enabled(w: World, s: Step) {
    match s
    case Arrive(id, url) => id !in w.tasks && IsPackageUrl(url)
    case Match(id) => AtPc(w, id, Matching)
    case MatchFault(id) => AtPc(w, id, Matching)
    case Fetch(id, _) => AtPc(w, id, Fetching)
    case FetchFault(id) => AtPc(w, id, Fetching)
    case Put(id) => id in w.tasks && w.tasks[id].pc.Storing?
    case PutFault(id) => id in w.tasks && w.tasks[id].pc.Storing?
    case Read(id) => AtPc(w, id, ReadingIndex)
    case ReadFault(id) => AtPc(w, id, ReadingIndex)
    case Delete(id, url) => Evicts(w, id) && url in w.tasks[id].pc.pending
    case DeleteFault(id, url) => Evicts(w, id) && url in w.tasks[id].pc.pending
    case PutIndex(id) => Evicts(w, id) && w.tasks[id].pc.pending == {}
    case PutIndexFault(id) => Evicts(w, id) && w.tasks[id].pc.pending == {}
    case Respond(id) => AtPc(w, id, Finished)
    case LooseDelete(url) => url in w.loose
    case LooseFault(url) => url in w.loose
    case Terminate(id) => id in w.tasks
    case Wipe => true
  }

  function Goto(w: World, id: nat, pc: Pc): World
    requires id in w.tasks
  {
    w.(tasks := w.tasks[id := w.tasks[id].(pc := pc)])
  }

  function Answering(w: World, id: nat, pc: Pc, a: Answer): World
    requires id in w.tasks
  {
    w.(tasks := w.tasks[id := w.tasks[id].(pc := pc, answer := a)])
  }

  function Touching(w: World, id: nat, index: seq<Url>): World
    requires id in w.tasks
  {
    var t := Touch(index, w.tasks[id].url, MAX_ENTRIES);
    Goto(w, id, Evicting(t.index, Elements(t.evict)))
  }

  /** A rejected delete ends the bookkeeping at once; the other deletes are already under way. */
  function Abandon(w: World, id: nat, rest: set<Url>): World
    requires id in w.tasks
  {
    Goto(w, id, Finished).(loose := w.loose + rest)
  }

  function Apply(w: World, s: Step): World
    requires Enabled(w, s)
  {
    match s
    case Arrive(id, url) => w.(tasks := w.tasks[id := Task(url, Matching, Rejected)])
    case Match(id) =>
      var url := w.tasks[id].url;
      if url in w.entries then Answering(w, id, ReadingIndex, Cached(w.entries[url])) else Goto(w, id, Fetching)
    case MatchFault(id) => Answering(w, id, Finished, Rejected)
    case Fetch(id, r) =>
      if Storable(r) then
        Answering(w, id, Storing(r.body), Live(r)).(fetched := w.fetched + {(w.tasks[id].url, r.body)})
      else Answering(w, id, Finished, Live(r))
    case FetchFault(id) => Answering(w, id, Finished, Rejected)
    case Put(id) =>
      var t := w.tasks[id];
      Goto(w, id, ReadingIndex).(entries := w.entries[t.url := Package(t.pc.body)])
    case PutFault(id) => Goto(w, id, Finished)
    case Read(id) => Touching(w, id, ReadIndex(w.entries))
    case ReadFault(id) => Touching(w, id, [])
    case Delete(id, url) =>
      var pc := w.tasks[id].pc;
      Goto(w, id, pc.(pending := pc.pending - {url})).(entries := w.entries - {url})
    case DeleteFault(id, url) => Abandon(w, id, w.tasks[id].pc.pending - {url})
    case PutIndex(id) =>
      Goto(w, id, Finished).(entries := w.entries[INDEX_URL := Written(w.tasks[id].pc.index)])
    case PutIndexFault(id) => Goto(w, id, Finished)
    case Respond(id) =>
      w.(served := w.served + [Served(w.tasks[id].url, w.tasks[id].answer)], tasks := w.tasks - {id})
    case LooseDelete(url) => w.(loose := w.loose - {url}, entries := w.entries - {url})
    case LooseFault(url) => w.(loose := w.loose - {url})
    case Terminate(id) =>
      var pc := w.tasks[id].pc;
      w.(tasks := w.tasks - {id}, loose := w.loose + if pc.Evicting? then pc.pending else {})
    case Wipe => w.(entries := map[])
  }

  /** Where a sequence of steps leads from the empty cache; None when some step was not enabled. */
  function Exec(steps: seq<Step>): Option<World> {
    if steps == [] then Some(START)
    else
      match Exec(steps[..|steps| - 1])
      case None => None
      case Some(w) => if Enabled(w, steps[|steps| - 1]) then Some(Apply(w, steps[|steps| - 1])) else None
  }

  // ---------------------------------------------------------------- what every step keeps

  ghost predicate GoodIndex(index: seq<Url>) {
    NoDup(index) && |index| <= MAX_ENTRIES && forall u | u in index :: IsPackageUrl(u)
  }

  ghost predicate Known(fetched: set<(Url, Body)>, url: Url, s: Stored) {
    IsPackageUrl(url) && s.Package? && (url, s.body) in fetched
  }

  ghost predicate EntryOk(u: Url, s: Stored, fetched: set<(Url, Body)>) {
    if u == INDEX_URL then exists index :: s == Written(index) && GoodIndex(index)
    else Known(fetched, u, s)
  }

  ghost predicate AnswerOk(url: Url, a: Answer, fetched: set<(Url, Body)>) {
    a.Cached? ==> Known(fetched, url, a.stored)
  }

  ghost predicate PcOk(url: Url, pc: Pc, fetched: set<(Url, Body)>) {
    && (pc.Storing? ==> (url, pc.body) in fetched)
    && (pc.Evicting? ==> GoodIndex(pc.index) && forall u | u in pc.pending :: IsPackageUrl(u))
  }

  ghost predicate TaskOk(t: Task, fetched: set<(Url, Body)>) {
    IsPackageUrl(t.url) && PcOk(t.url, t.pc, fetched) && AnswerOk(t.url, t.answer, fetched)
  }

  ghost predicate EntriesOk(c: Contents, fetched: set<(Url, Body)>) {
    forall u | u in c :: EntryOk(u, c[u], fetched)
  }

  ghost predicate Inv(w: World) {
    && EntriesOk(w.entries, w.fetched)
    && (forall id | id in w.tasks :: TaskOk(w.tasks[id], w.fetched))
    && (forall s | s in w.served :: AnswerOk(s.url, s.answer, w.fetched))
    && (forall u | u in w.loose :: IsPackageUrl(u))
  }

  lemma TouchKeepsGood(index: seq<Url>, url: Url)
    requires GoodIndex(index) && IsPackageUrl(url)
    ensures var t := Touch(index, url, MAX_ENTRIES);
            GoodIndex(t.index) && forall u | u in t.evict :: IsPackageUrl(u)
  {
    WithoutNoDup(index, url);
    var next := [url] + Without(index, url);
    assert NoDup(next) && forall u | u in next :: IsPackageUrl(u);
    assert next == Touch(index, url, MAX_ENTRIES).index + Touch(index, url, MAX_ENTRIES).evict;
  }

  lemma StoredIndexIsGood(w: World)
    requires Inv(w)
    ensures GoodIndex(ReadIndex(w.entries))
  {
    if INDEX_URL in w.entries {
      assert EntryOk(INDEX_URL, w.entries[INDEX_URL], w.fetched);
      var index :| w.entries[INDEX_URL] == Written(index) && GoodIndex(index);
      StringsOfSome(index, Written(index).file.items);
    }
  }

  /** More history never hurts. */
  lemma HistoryGrows(w: World, more: set<(Url, Body)>)
    requires Inv(w)
    ensures Inv(w.(fetched := w.fetched + more))
  {
    forall u | u in w.entries
      ensures EntryOk(u, w.entries[u], w.fetched + more)
    {
      assert EntryOk(u, w.entries[u], w.fetched);
    }
  }

  lemma TaskKeepsInv(w: World, id: nat, t: Task)
    requires Inv(w) && TaskOk(t, w.fetched)
    ensures Inv(w.(tasks := w.tasks[id := t]))
  {
  }

  lemma EntriesKeepInv(w: World, c: Contents)
    requires Inv(w) && EntriesOk(c, w.fetched)
    ensures Inv(w.(entries := c))
  {
  }

  lemma TouchingKeepsInv(w: World, id: nat, index: seq<Url>)
    requires Inv(w) && id in w.tasks && GoodIndex(index)
    ensures Inv(Touching(w, id, index))
  {
    TouchKeepsGood(index, w.tasks[id].url);
    var t := Touch(index, w.tasks[id].url, MAX_ENTRIES);
    TaskKeepsInv(w, id, w.tasks[id].(pc := Evicting(t.index, Elements(t.evict))));
  }

  predicate Asks(s: Step) {
    s.Arrive? || s.Match? || s.MatchFault? || s.Fetch? || s.FetchFault? || s.Put? || s.PutFault? || s.Respond?
  }

  lemma MatchKeepsInv(w: World, id: nat)
    requires Inv(w) && Enabled(w, Match(id))
    ensures Inv(Apply(w, Match(id)))
  {
    var t := w.tasks[id];
    if t.url in w.entries {
      assert EntryOk(t.url, w.entries[t.url], w.fetched);
      IndexIsNoPackage();
      TaskKeepsInv(w, id, t.(pc := ReadingIndex, answer := Cached(w.entries[t.url])));
    } else {
      TaskKeepsInv(w, id, t.(pc := Fetching));
    }
  }

  lemma FetchKeepsInv(w: World, id: nat, r: Response)
    requires Inv(w) && Enabled(w, Fetch(id, r))
    ensures Inv(Apply(w, Fetch(id, r)))
  {
    var t := w.tasks[id];
    if Storable(r) {
      HistoryGrows(w, {(t.url, r.body)});
      TaskKeepsInv(w.(fetched := w.fetched + {(t.url, r.body)}), id, t.(pc := Storing(r.body), answer := Live(r)));
    } else {
      TaskKeepsInv(w, id, t.(pc := Finished, answer := Live(r)));
    }
  }

  lemma PutKeepsInv(w: World, id: nat)
    requires Inv(w) && Enabled(w, Put(id))
    ensures Inv(Apply(w, Put(id)))
  {
    var t := w.tasks[id];
    var c := w.entries[t.url := Package(t.pc.body)];
    IndexIsNoPackage();
    EntriesKeepInv(w, c);
    TaskKeepsInv(w.(entries := c), id, t.(pc := ReadingIndex));
  }

  lemma AskingKeepsInv(w: World, s: Step)
    requires Inv(w) && Enabled(w, s) && Asks(s)
    ensures Inv(Apply(w, s))
  {
    match s
    case Arrive(id, url) => TaskKeepsInv(w, id, Task(url, Matching, Rejected));
    case Match(id) => MatchKeepsInv(w, id);
    case MatchFault(id) => TaskKeepsInv(w, id, w.tasks[id].(pc := Finished, answer := Rejected));
    case Fetch(id, r) => FetchKeepsInv(w, id, r);
    case FetchFault(id) => TaskKeepsInv(w, id, w.tasks[id].(pc := Finished, answer := Rejected));
    case Put(id) => PutKeepsInv(w, id);
    case PutFault(id) => TaskKeepsInv(w, id, w.tasks[id].(pc := Finished));
    case Respond(id) => RespondKeepsInv(w, id);
  }

  lemma RespondKeepsInv(w: World, id: nat)
    requires Inv(w) && Enabled(w, Respond(id))
    ensures Inv(Apply(w, Respond(id)))
  {
  }

  lemma BookkeepingKeepsInv(w: World, s: Step)
    requires Inv(w) && Enabled(w, s) && !Asks(s)
    ensures Inv(Apply(w, s))
  {
    match s
    case Read(id) =>
      StoredIndexIsGood(w);
      TouchingKeepsInv(w, id, ReadIndex(w.entries));
    case ReadFault(id) => TouchingKeepsInv(w, id, []);
    case Delete(id, url) =>
      var t := w.tasks[id];
      EntriesKeepInv(w, w.entries - {url});
      TaskKeepsInv(w.(entries := w.entries - {url}), id, t.(pc := t.pc.(pending := t.pc.pending - {url})));
    case DeleteFault(id, url) =>
    case PutIndex(id) =>
      var t := w.tasks[id];
      var c := w.entries[INDEX_URL := Written(t.pc.index)];
      assert EntryOk(INDEX_URL, c[INDEX_URL], w.fetched);
      EntriesKeepInv(w, c);
      TaskKeepsInv(w.(entries := c), id, t.(pc := Finished));
    case PutIndexFault(id) =>
    case LooseDelete(url) =>
    case LooseFault(url) =>
    case Terminate(id) =>
    case Wipe =>
  }

  lemma {:induction false} RunKeepsInv(steps: seq<Step>)
    requires Exec(steps).Some?
    ensures Inv(Exec(steps).value)
  {
    if steps != [] {
      var before, s := Exec(steps[..|steps| - 1]).value, steps[|steps| - 1];
      RunKeepsInv(steps[..|steps| - 1]);
      if Asks(s) {
        AskingKeepsInv(before, s);
      } else {
        BookkeepingKeepsInv(before, s);
      }
    }
  }

  // ---------------------------------------------------------------- what that gives a caller

  /** Step i was an ok, readable network answer with this body to a request for this URL. */
  ghost predicate FetchedAt(steps: seq<Step>, i: nat, url: Url, body: Body) {
    && i < |steps| && steps[i].Fetch?
    && steps[i].response.ok && !steps[i].response.opaque_ && steps[i].response.body == body
    && var w := Exec(steps[..i]);
       w.Some? && steps[i].id in w.value.tasks && w.value.tasks[steps[i].id].url == url
  }

  lemma {:induction false} FetchedOrigin(steps: seq<Step>, url: Url, body: Body)
    requires Exec(steps).Some? && (url, body) in Exec(steps).value.fetched
    ensures exists i: nat :: FetchedAt(steps, i, url, body)
  {
    if steps != [] {
      var before, n := steps[..|steps| - 1], |steps| - 1;
      if (url, body) in Exec(before).value.fetched {
        FetchedOrigin(before, url, body);
        var i: nat :| FetchedAt(before, i, url, body);
        assert steps[..i] == before[..i];
        assert FetchedAt(steps, i, url, body);
      } else {
        assert FetchedAt(steps, n, url, body);
      }
    }
  }

  /**
   * Cache transparency: under any interleaving of requests, evictions and faults, whatever the
   * cache answers for a URL is a copy of an earlier ok, readable fetch of that same URL.
   */
  lemma Transparency(steps: seq<Step>, s: Served)
    requires Exec(steps).Some? && s in Exec(steps).value.served && s.answer.Cached?
    ensures IsPackageUrl(s.url) && s.answer.stored.Package?
    ensures exists i: nat :: FetchedAt(steps, i, s.url, s.answer.stored.body)
  {
    RunKeepsInv(steps);
    FetchedOrigin(steps, s.url, s.answer.stored.body);
  }

  /** With immutable content behind every URL, the cache's answer is the network's answer. */
  lemma ImmutableContent(steps: seq<Step>, s: Served, content: Url -> Body)
    requires Exec(steps).Some? && s in Exec(steps).value.served && s.answer.Cached?
    requires forall i: nat, url, body | FetchedAt(steps, i, url, body) :: body == content(url)
    ensures s.answer == Cached(Package(content(s.url)))
  {
    Transparency(steps, s);
  }

  /**
   * The stored index stays duplicate-free, bounded and made of package URLs only; no package is
   * ever stored under its key.
   */
  lemma IndexStaysGood(steps: seq<Step>)
    requires Exec(steps).Some?
    ensures var c := Exec(steps).value.entries;
            GoodIndex(ReadIndex(c)) && (INDEX_URL in c ==> c[INDEX_URL] == Written(ReadIndex(c)))
  {
    RunKeepsInv(steps);
    var w := Exec(steps).value;
    StoredIndexIsGood(w);
    if INDEX_URL in w.entries {
      assert EntryOk(INDEX_URL, w.entries[INDEX_URL], w.fetched);
      var index :| w.entries[INDEX_URL] == Written(index) && GoodIndex(index);
      StringsOfSome(index, Written(index).file.items);
    }
  }

  // ---------------------------------------------------------------- what is lost

  predicate Faulty(s: Step) {
    || s.MatchFault? || s.FetchFault? || s.PutFault? || s.ReadFault? || s.DeleteFault?
    || s.PutIndexFault? || s.LooseFault? || s.Terminate? || s.Wipe?
  }

  lemma ExecNext(steps: seq<Step>, w: World, s: Step)
    requires Exec(steps) == Some(w) && Enabled(w, s)
    ensures Exec(steps + [s]) == Some(Apply(w, s))
  {
    assert (steps + [s])[..|steps|] == steps;
  }

  lemma TouchEmpty(url: Url)
    ensures Touch([], url, MAX_ENTRIES) == Touched([url], []) && Elements<Url>([]) == {}
  {
  }

  /**
   * Agreement of cache and index does not survive interleaving, even without any fault: two first
   * uses that both read the index before either writes it leave one package stored and unindexed.
   */
  lemma LostUpdate(u: Url, v: Url, r: Response) returns (steps: seq<Step>)
    requires u != v && IsPackageUrl(u) && IsPackageUrl(v) && Storable(r)
    ensures forall s | s in steps :: !Faulty(s)
    ensures Exec(steps).Some?
    ensures var w := Exec(steps).value;
            && (forall id | id in w.tasks :: w.tasks[id].pc == Finished)
            && u in w.entries && u !in ReadIndex(w.entries)
  {
    var w;
    steps, w := BothRead(u, v, r);
    steps, w := WriteOne(steps, w, 0, [u]);
    steps, w := WriteOne(steps, w, 1, [v]);
  }

  /** Two requests have stored their packages and read the index that neither has written. */
  lemma BothRead(u: Url, v: Url, r: Response) returns (steps: seq<Step>, w: World)
    requires u != v && IsPackageUrl(u) && IsPackageUrl(v) && Storable(r)
    ensures Exec(steps) == Some(w) && forall s | s in steps :: !Faulty(s)
    ensures w.tasks.Keys == {0, 1} && u in w.entries
    ensures w.tasks[0].pc == Evicting([u], {}) && w.tasks[1].pc == Evicting([v], {})
  {
    IndexIsNoPackage();
    assert Exec([]) == Some(START);
    steps, w := StoreOne([], START, 0, u, r);
    steps, w := StoreOne(steps, w, 1, v, r);
    steps, w := ReadOne(steps, w, 0);
    steps, w := ReadOne(steps, w, 1);
  }

  /** A request misses, fetches and stores; it has not read the index yet. */
  lemma StoreOne(before: seq<Step>, w: World, id: nat, url: Url, r: Response) returns (steps: seq<Step>, after: World)
    requires Exec(before) == Some(w) && (forall s | s in before :: !Faulty(s))
    requires id !in w.tasks && url !in w.entries && IsPackageUrl(url) && Storable(r)
    ensures Exec(steps) == Some(after) && forall s | s in steps :: !Faulty(s)
    ensures after.tasks == w.tasks[id := Task(url, ReadingIndex, Live(r))]
    ensures after.entries == w.entries[url := Package(r.body)]
  {
    steps, after := MissOne(before, w, id, url);
    ExecNext(steps, after, Fetch(id, r));
    steps, after := steps + [Fetch(id, r)], Apply(after, Fetch(id, r));
    assert after.tasks[id] == Task(url, Storing(r.body), Live(r));
    ExecNext(steps, after, Put(id));
    steps, after := steps + [Put(id)], Apply(after, Put(id));
  }

  lemma MissOne(before: seq<Step>, w: World, id: nat, url: Url) returns (steps: seq<Step>, after: World)
    requires Exec(before) == Some(w) && (forall s | s in before :: !Faulty(s))
    requires id !in w.tasks && url !in w.entries && IsPackageUrl(url)
    ensures Exec(steps) == Some(after) && forall s | s in steps :: !Faulty(s)
    ensures after.tasks == w.tasks[id := Task(url, Fetching, Rejected)] && after.entries == w.entries
  {
    ExecNext(before, w, Arrive(id, url));
    steps, after := before + [Arrive(id, url)], Apply(w, Arrive(id, url));
    ExecNext(steps, after, Match(id));
    steps, after := steps + [Match(id)], Apply(after, Match(id));
  }

  /** A request reads an index that is not there yet. */
  lemma ReadOne(before: seq<Step>, w: World, id: nat) returns (steps: seq<Step>, after: World)
    requires Exec(before) == Some(w) && (forall s | s in before :: !Faulty(s))
    requires AtPc(w, id, ReadingIndex) && INDEX_URL !in w.entries
    ensures Exec(steps) == Some(after) && forall s | s in steps :: !Faulty(s)
    ensures after == Goto(w, id, Evicting([w.tasks[id].url], {}))
  {
    TouchEmpty(w.tasks[id].url);
    ExecNext(before, w, Read(id));
    steps, after := before + [Read(id)], Apply(w, Read(id));
  }

  /** A request with nothing to evict writes the index it computed. */
  lemma WriteOne(before: seq<Step>, w: World, id: nat, index: seq<Url>) returns (steps: seq<Step>, after: World)
    requires Exec(before) == Some(w) && (forall s | s in before :: !Faulty(s))
    requires AtPc(w, id, Evicting(index, {}))
    ensures Exec(steps) == Some(after) && forall s | s in steps :: !Faulty(s)
    ensures after.tasks == Goto(w, id, Finished).tasks
    ensures after.entries.Keys == w.entries.Keys + {INDEX_URL} && ReadIndex(after.entries) == index
  {
    ReadsBack(w.entries, index);
    ExecNext(before, w, PutIndex(id));
    steps, after := before + [PutIndex(id)], Apply(w, PutIndex(id));
  }
}
