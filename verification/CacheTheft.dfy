/**
 * frontend/public/sw.js: keeping index sections apart is not enough once the cache is full. A package
 * found in the cache may be evicted before its own use is recorded, and is then listed but not stored.
 */
module CacheTheft {
  import opened CacheAgreement
  import opened CacheInterleaving
  import opened Lru
  import opened PackageCache
  import opened Results
  import opened Sequences

  /** A run so far: without any fault, and with no section disturbed. */
  ghost predicate Clean(steps: seq<Step>, w: World) {
    Exec(steps) == Some(w) && Undisturbed(steps) && forall s | s in steps :: !Faulty(s)
  }

  lemma Extend(steps: seq<Step>, w: World, s: Step) returns (more: seq<Step>, v: World)
    requires Clean(steps, w) && Enabled(w, s) && !Faulty(s) && (s.Read? ==> NoneWriting(w))
    ensures Clean(more, v) && v == Apply(w, s)
  {
    ExecNext(steps, w, s);
    more, v := steps + [s], Apply(w, s);
    assert more[..|steps|] == steps;
  }

  // ---------------------------------------------------------------- a cache filled to the ceiling

  /** No request under way, and the index lists exactly what is stored. */
  ghost predicate Filled(w: World, urls: set<Url>) {
    && w.tasks == map[] && NoDup(ReadIndex(w.entries)) && Elements(ReadIndex(w.entries)) == urls
    && w.entries.Keys - {INDEX_URL} == urls
  }

  lemma MissAndStore(steps: seq<Step>, w: World, id: nat, u: Url, r: Response) returns (more: seq<Step>, v: World)
    requires Clean(steps, w) && id !in w.tasks && u !in w.entries && IsPackageUrl(u) && Storable(r)
    ensures Clean(more, v) && v.entries == w.entries[u := Package(r.body)]
    ensures v.tasks == w.tasks[id := Task(u, ReadingIndex, Live(r))]
  {
    more, v := Fetched(steps, w, id, u, r);
    more, v := Extend(more, v, Put(id));
    assert v.tasks == w.tasks[id := Task(u, ReadingIndex, Live(r))];
  }

  lemma Fetched(steps: seq<Step>, w: World, id: nat, u: Url, r: Response) returns (more: seq<Step>, v: World)
    requires Clean(steps, w) && id !in w.tasks && u !in w.entries && IsPackageUrl(u) && Storable(r)
    ensures Clean(more, v) && v.entries == w.entries && v.tasks.Keys == w.tasks.Keys + {id}
    ensures v.tasks[id] == Task(u, Storing(r.body), Live(r))
    ensures forall j | j in w.tasks :: v.tasks[j] == w.tasks[j]
  {
    more, v := Extend(steps, w, Arrive(id, u));
    more, v := Extend(more, v, Match(id));
    more, v := Extend(more, v, Fetch(id, r));
  }

  /** The deletes of a request that evicts at most one package. */
  lemma DeleteThem(steps: seq<Step>, w: World, id: nat, index: seq<Url>, evict: seq<Url>)
    returns (more: seq<Step>, v: World)
    requires Clean(steps, w) && AtPc(w, id, Evicting(index, Elements(evict))) && |evict| <= 1
    ensures Clean(more, v) && v.tasks == w.tasks[id := w.tasks[id].(pc := Evicting(index, {}))]
    ensures v.entries.Keys == w.entries.Keys - Elements(evict)
  {
    if evict == [] {
      assert Elements(evict) == {};
      more, v := steps, w;
    } else {
      assert Elements(evict) == {evict[0]} && Elements(evict) - {evict[0]} == {};
      more, v := Extend(steps, w, Delete(id, evict[0]));
    }
    assert v.tasks[id] == w.tasks[id].(pc := Evicting(index, {}));
  }

  /** A request at its Read, when that evicts at most one package; the index it writes and what it deletes. */
  lemma RecordIt(steps: seq<Step>, w: World, id: nat, index: seq<Url>, evict: seq<Url>)
    returns (more: seq<Step>, v: World)
    requires Clean(steps, w) && Reads(w, id) && NoneWriting(w) && |evict| <= 1
    requires Touch(ReadIndex(w.entries), w.tasks[id].url, MAX_ENTRIES) == Touched(index, evict)
    ensures Clean(more, v) && v.tasks == w.tasks[id := w.tasks[id].(pc := Finished)]
    ensures ReadIndex(v.entries) == index && v.entries.Keys == w.entries.Keys - Elements(evict) + {INDEX_URL}
  {
    more, v := Extend(steps, w, Read(id));
    more, v := DeleteThem(more, v, id, index, evict);
    ReadsBack(v.entries, index);
    more, v := Extend(more, v, PutIndex(id));
  }

  lemma TouchRoom(index: seq<Url>, urls: set<Url>, u: Url)
    requires NoDup(index) && Elements(index) == urls && |urls| < MAX_ENTRIES && u !in urls
    ensures var t := Touch(index, u, MAX_ENTRIES);
            t.evict == [] && NoDup(t.index) && Elements(t.index) == urls + {u}
  {
    NoDupSize(index);
    EvictsAtMostOne(index, u);
    var t := Touch(index, u, MAX_ENTRIES);
    assert Elements(t.evict) == {} && Elements(t.index) + {} == Elements(t.index);
  }

  lemma FillOne(steps: seq<Step>, w: World, urls: set<Url>, u: Url, r: Response) returns (more: seq<Step>, v: World)
    requires Clean(steps, w) && Filled(w, urls) && |urls| < MAX_ENTRIES && u !in urls && INDEX_URL !in urls
    requires IsPackageUrl(u) && Storable(r) && u != INDEX_URL
    ensures Clean(more, v) && Filled(v, urls + {u})
  {
    var listed := Touch(ReadIndex(w.entries), u, MAX_ENTRIES).index;
    FillFacts(w, urls, u, listed);
    more, v := StoreAndRecord(steps, w, u, r, ReadIndex(w.entries), listed);
    NowFilled(v, w.entries.Keys, urls, u, listed);
  }

  lemma FillFacts(w: World, urls: set<Url>, u: Url, listed: seq<Url>)
    requires Filled(w, urls) && |urls| < MAX_ENTRIES && u !in urls && u != INDEX_URL
    requires listed == Touch(ReadIndex(w.entries), u, MAX_ENTRIES).index
    ensures u !in w.entries && Touch(ReadIndex(w.entries), u, MAX_ENTRIES) == Touched(listed, [])
    ensures NoDup(listed) && Elements(listed) == urls + {u}
  {
    NotStored(w.entries.Keys, urls, u);
    TouchRoom(ReadIndex(w.entries), urls, u);
  }

  lemma NowFilled(v: World, before: set<Url>, urls: set<Url>, u: Url, listed: seq<Url>)
    requires v.tasks == map[] && ReadIndex(v.entries) == listed && NoDup(listed) && Elements(listed) == urls + {u}
    requires before - {INDEX_URL} == urls && u != INDEX_URL
    requires v.entries.Keys == before + {u} - Elements([]) + {INDEX_URL}
    ensures Filled(v, urls + {u})
  {
    FilledKeys(before, v.entries.Keys, urls, u);
  }

  lemma NotStored(keys: set<Url>, urls: set<Url>, u: Url)
    requires keys - {INDEX_URL} == urls && u !in urls && u != INDEX_URL
    ensures u !in keys
  {
    assert u !in keys - {INDEX_URL};
  }

  lemma StoreAndRecord(steps: seq<Step>, w: World, u: Url, r: Response, index: seq<Url>, listed: seq<Url>)
    returns (more: seq<Step>, v: World)
    requires Clean(steps, w) && w.tasks == map[] && ReadIndex(w.entries) == index && u !in w.entries
    requires IsPackageUrl(u) && u != INDEX_URL && Storable(r) && Touch(index, u, MAX_ENTRIES) == Touched(listed, [])
    ensures Clean(more, v) && v.tasks == map[]
    ensures ReadIndex(v.entries) == listed && v.entries.Keys == w.entries.Keys + {u} - Elements([]) + {INDEX_URL}
  {
    var x, y;
    more, x := MissAndStore(steps, w, 0, u, r);
    more, y := RecordAlone(more, x, u, r, index, listed);
    more, v := Retire(more, y, 0);
  }

  lemma RecordAlone(steps: seq<Step>, w: World, u: Url, r: Response, index: seq<Url>, listed: seq<Url>)
    returns (more: seq<Step>, v: World)
    requires Clean(steps, w) && w.tasks == map[][0 := Task(u, ReadingIndex, Live(r))] && ReadIndex(w.entries) == index
    requires Touch(index, u, MAX_ENTRIES) == Touched(listed, [])
    ensures Clean(more, v) && v.tasks == map[][0 := Task(u, Finished, Live(r))]
    ensures ReadIndex(v.entries) == listed && v.entries.Keys == w.entries.Keys - Elements([]) + {INDEX_URL}
  {
    assert Reads(w, 0) && NoneWriting(w);
    more, v := RecordIt(steps, w, 0, listed, []);
  }

  lemma Retire(steps: seq<Step>, w: World, id: nat) returns (more: seq<Step>, v: World)
    requires Clean(steps, w) && w.tasks.Keys == {id} && w.tasks[id].pc == Finished
    ensures Clean(more, v) && v.tasks == map[] && v.entries == w.entries
  {
    more, v := Extend(steps, w, Respond(id));
  }

  lemma FilledKeys(before: set<Url>, after: set<Url>, urls: set<Url>, u: Url)
    requires before - {INDEX_URL} == urls && u != INDEX_URL && after == before + {u} - Elements([]) + {INDEX_URL}
    ensures after - {INDEX_URL} == urls + {u}
  {
    assert Elements<Url>([]) == {};
  }

  lemma {:induction false} FillUp(us: seq<Url>, r: Response) returns (steps: seq<Step>, w: World)
    requires NoDup(us) && |us| <= MAX_ENTRIES && (forall u | u in us :: IsPackageUrl(u)) && Storable(r)
    ensures Clean(steps, w) && Filled(w, Elements(us))
  {
    if us == [] {
      steps, w := [], START;
    } else {
      var front, last := us[..|us| - 1], us[|us| - 1];
      assert us == front + [last] && last !in front && NoDup(front);
      steps, w := FillUp(front, r);
      IndexIsNoPackage();
      NoDupSize(front);
      steps, w := FillOne(steps, w, Elements(front), last, r);
      assert Elements(us) == Elements(front) + {last};
    }
  }

  // ---------------------------------------------------------------- the theft

  lemma TouchFull(index: seq<Url>, u: Url)
    requires NoDup(index) && |index| == MAX_ENTRIES && u !in index
    ensures Touch(index, u, MAX_ENTRIES) == Touched([u] + index[..MAX_ENTRIES - 1], [index[MAX_ENTRIES - 1]])
  {
    WithoutAbsent(index, u);
    var next := [u] + index;
    assert Take(next, Limit(MAX_ENTRIES)) == [u] + index[..MAX_ENTRIES - 1];
    assert Drop(next, Limit(MAX_ENTRIES)) == [index[MAX_ENTRIES - 1]];
  }

  /**
   * With 60 packages stored, a hit on the least recently used one, and a miss recorded before it: no
   * fault, no section disturbed, and in the end the first is listed and not stored.
   */
  lemma Theft(us: seq<Url>, v: Url, r: Response) returns (steps: seq<Step>, u: Url)
    requires NoDup(us) && |us| == MAX_ENTRIES && (forall x | x in us :: IsPackageUrl(x))
    requires IsPackageUrl(v) && v !in us && Storable(r)
    ensures Exec(steps).Some? && Undisturbed(steps) && forall s | s in steps :: !Faulty(s)
    ensures var w := Exec(steps).value;
            (forall id | id in w.tasks :: w.tasks[id].pc.Finished?) && u in ReadIndex(w.entries) && u !in w.entries
  {
    var w;
    steps, w := FillUp(us, r);
    IndexIsNoPackage();
    u := LastOne(w, us, v);
    var index := ReadIndex(w.entries);
    steps, w := Extend(steps, w, Arrive(0, u));
    steps, w := Extend(steps, w, Match(0));
    steps := Steal(steps, w, index, u, v, r);
  }

  lemma LastOne(w: World, us: seq<Url>, v: Url) returns (u: Url)
    requires Filled(w, Elements(us)) && NoDup(us) && |us| == MAX_ENTRIES && v !in us && v != INDEX_URL
    requires forall x | x in us :: IsPackageUrl(x)
    ensures var index := ReadIndex(w.entries);
            |index| == MAX_ENTRIES && u == index[MAX_ENTRIES - 1] && v !in index
    ensures IsPackageUrl(u) && u in w.entries && v !in w.entries
  {
    var index := ReadIndex(w.entries);
    NoDupSize(us);
    NoDupSize(index);
    u := index[MAX_ENTRIES - 1];
    assert u in Elements(index) && v !in Elements(us);
    assert v !in w.entries.Keys - {INDEX_URL};
  }

  lemma Steal(before: seq<Step>, w: World, index: seq<Url>, u: Url, v: Url, r: Response) returns (steps: seq<Step>)
    requires Clean(before, w) && ReadIndex(w.entries) == index && NoDup(index) && |index| == MAX_ENTRIES
    requires u == index[MAX_ENTRIES - 1] && u != INDEX_URL
             && v !in index && v !in w.entries && IsPackageUrl(v) && Storable(r)
    requires w.tasks.Keys == {0} && w.tasks[0].pc == ReadingIndex && w.tasks[0].url == u
    ensures Exec(steps).Some? && Undisturbed(steps) && forall s | s in steps :: !Faulty(s)
    ensures var x := Exec(steps).value;
            (forall id | id in x.tasks :: x.tasks[id].pc.Finished?) && u in ReadIndex(x.entries) && u !in x.entries
  {
    var mid: seq<Url> := [v] + index[..MAX_ENTRIES - 1];
    MidFacts(index, v, u);
    var b;
    steps, b := StealFirst(before, w, index, mid, u, v, r);
    steps := StealLast(steps, b, mid, u);
  }

  /** The hit comes to record the use of a package that is gone. */
  lemma StealLast(before: seq<Step>, w: World, mid: seq<Url>, u: Url) returns (steps: seq<Step>)
    requires Clean(before, w) && ReadIndex(w.entries) == mid && NoDup(mid) && |mid| == MAX_ENTRIES
    requires u !in mid && u !in w.entries && u != INDEX_URL
    requires w.tasks.Keys == {0, 1} && w.tasks[0].pc == ReadingIndex && w.tasks[0].url == u && w.tasks[1].pc == Finished
    ensures Exec(steps).Some? && Undisturbed(steps) && forall s | s in steps :: !Faulty(s)
    ensures var x := Exec(steps).value;
            (forall id | id in x.tasks :: x.tasks[id].pc.Finished?) && u in ReadIndex(x.entries) && u !in x.entries
  {
    var rest, evict := mid[..MAX_ENTRIES - 1], [mid[MAX_ENTRIES - 1]];
    TouchFull(mid, u);
    assert Reads(w, 0) && NoneWriting(w);
    var x;
    steps, x := RecordIt(before, w, 0, [u] + rest, evict);
    Stolen(x, w.entries.Keys, u, rest, evict);
  }

  lemma Stolen(x: World, keys: set<Url>, u: Url, rest: seq<Url>, evict: seq<Url>)
    requires ReadIndex(x.entries) == [u] + rest && u !in keys && u != INDEX_URL
    requires x.entries.Keys == keys - Elements(evict) + {INDEX_URL}
    ensures u in ReadIndex(x.entries) && u !in x.entries
  {
    assert ([u] + rest)[0] == u;
  }

  /** The miss is stored and recorded while the hit has yet to read the index. */
  lemma StealFirst(before: seq<Step>, w: World, index: seq<Url>, mid: seq<Url>, u: Url, v: Url, r: Response)
    returns (steps: seq<Step>, b: World)
    requires Clean(before, w) && ReadIndex(w.entries) == index && NoDup(index) && |index| == MAX_ENTRIES
    requires u == index[MAX_ENTRIES - 1] && mid == [v] + index[..MAX_ENTRIES - 1]
    requires u != INDEX_URL && v !in index && v !in w.entries && IsPackageUrl(v) && Storable(r)
    requires w.tasks.Keys == {0} && w.tasks[0].pc == ReadingIndex && w.tasks[0].url == u
    ensures Clean(steps, b) && ReadIndex(b.entries) == mid && u !in b.entries
    ensures b.tasks.Keys == {0, 1} && b.tasks[0] == w.tasks[0] && b.tasks[1].pc == Finished
  {
    IndexIsNoPackage();
    var a;
    steps, a := MissAndStore(before, w, 1, v, r);
    TouchFull(index, v);
    assert Reads(a, 1) && NoneWriting(a);
    steps, b := RecordIt(steps, a, 1, mid, [u]);
    assert u in Elements([u]);
  }

  lemma MidFacts(index: seq<Url>, v: Url, u: Url)
    requires NoDup(index) && |index| == MAX_ENTRIES && v !in index && u == index[MAX_ENTRIES - 1]
    ensures var mid := [v] + index[..MAX_ENTRIES - 1]; NoDup(mid) && |mid| == MAX_ENTRIES && u !in mid
  {
    assert u in index;
  }
}
