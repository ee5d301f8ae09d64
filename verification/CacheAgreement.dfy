/**
 * frontend/public/sw.js: which interleavings leave the package cache and its index in agreement, and
 * that one request after the other is the sequential cache.
 */
module CacheAgreement {
  import opened CacheInterleaving
  import opened Lru
  import opened PackageCache
  import opened Sequences

  // ---------------------------------------------------------------- conditions on a run

  /** Faults that only end a request before it uses the cache; any other one may lose bookkeeping. */
  predicate Harmless(s: Step) {
    Faulty(s) ==> s.MatchFault? || s.FetchFault? || s.PutFault?
  }

  ghost predicate AllHarmless(steps: seq<Step>) {
    forall s | s in steps :: Harmless(s)
  }

  /** Between its Read and its PutIndex a request is at Evicting. */
  predicate Writes(w: World, id: nat) {
    id in w.tasks && w.tasks[id].pc.Evicting?
  }

  predicate NoneWriting(w: World) {
    forall id | id in w.tasks :: !Writes(w, id)
  }

  predicate Waits(w: World, u: Url) {
    exists id | id in w.tasks :: w.tasks[id].pc.ReadingIndex? && w.tasks[id].url == u
  }

  /** No request reads the index while another one is between its Read and its PutIndex. */
  ghost predicate Undisturbed(steps: seq<Step>) {
    if steps == [] then true
    else
      var before, s := steps[..|steps| - 1], steps[|steps| - 1];
      Undisturbed(before) && (s.Read? && Exec(before).Some? ==> NoneWriting(Exec(before).value))
  }

  /** No package is evicted while a request that found or stored it has yet to read the index. */
  ghost predicate Unstolen(steps: seq<Step>) {
    if steps == [] then true
    else
      var before, s := steps[..|steps| - 1], steps[|steps| - 1];
      Unstolen(before) && (s.Delete? && Exec(before).Some? ==> !Waits(Exec(before).value, s.url))
  }

  // ---------------------------------------------------------------- agreement

  /** u is in the index, or in what the request that is about to write it has still to evict. */
  predicate Listed(w: World, u: Url) {
    if NoneWriting(w) then u in ReadIndex(w.entries)
    else exists id | id in w.tasks ::
           Writes(w, id) && (u in w.tasks[id].pc.index || u in w.tasks[id].pc.pending)
  }

  ghost predicate OneWriter(w: World) {
    forall i, j | Writes(w, i) && Writes(w, j) :: i == j
  }

  /** What is stored is what is listed, or waits to be. */
  ghost predicate Balanced(w: World) {
    && w.loose == {} && OneWriter(w) && Disjoint(w)
    && (forall u | u != INDEX_URL :: u in w.entries <==> Listed(w, u) || Waits(w, u))
  }

  /** Steps after which the same packages are stored, listed and waited for. */
  predicate Quiet(s: Step) {
    s.Arrive? || s.MatchFault? || s.Fetch? || s.FetchFault? || s.PutFault? || s.Respond?
  }

  /** Only the task `id` may have changed. */
  ghost predicate OthersSame(w: World, v: World, id: nat) {
    forall j | j != id :: (j in w.tasks <==> j in v.tasks) && (j in w.tasks ==> v.tasks[j] == w.tasks[j])
  }

  predicate Reads(w: World, id: nat) {
    id in w.tasks && w.tasks[id].pc.ReadingIndex?
  }

  /** What is waited for, when one task changes. */
  lemma WaitsStep(w: World, v: World, id: nat, u: Url)
    requires OthersSame(w, v, id)
    ensures !Reads(w, id) && !Reads(v, id) ==> (Waits(v, u) <==> Waits(w, u))
    ensures !Reads(w, id) && Reads(v, id) ==> (Waits(v, u) <==> Waits(w, u) || u == v.tasks[id].url)
    ensures Reads(w, id) && !Reads(v, id) ==> (Waits(w, u) <==> Waits(v, u) || u == w.tasks[id].url)
  {
    if Waits(w, u) {
      var j :| j in w.tasks && w.tasks[j].pc.ReadingIndex? && w.tasks[j].url == u;
      assert j != id ==> Reads(v, j) && v.tasks[j].url == u;
    }
    if Waits(v, u) {
      var j :| j in v.tasks && v.tasks[j].pc.ReadingIndex? && v.tasks[j].url == u;
      assert j != id ==> Reads(w, j) && w.tasks[j].url == u;
    }
  }

  /** A task that neither wrote nor writes changes nothing about what is listed. */
  lemma ListedStep(w: World, v: World, id: nat)
    requires OthersSame(w, v, id) && !Writes(w, id) && !Writes(v, id) && ReadIndex(v.entries) == ReadIndex(w.entries)
    ensures forall u :: Listed(v, u) <==> Listed(w, u)
    ensures OneWriter(w) ==> OneWriter(v)
  {
    assert forall j :: Writes(w, j) <==> Writes(v, j);
    if NoneWriting(w) {
      assert forall j | j in v.tasks :: !Writes(v, j);
    } else {
      var j :| j in w.tasks && Writes(w, j);
      assert Writes(v, j);
      assert !NoneWriting(v);
      forall u
        ensures Listed(v, u) <==> Listed(w, u)
      {
        if Listed(w, u) {
          var i :| Writes(w, i) && (u in w.tasks[i].pc.index || u in w.tasks[i].pc.pending);
          assert Writes(v, i) && v.tasks[i] == w.tasks[i];
        }
        if Listed(v, u) {
          var i :| Writes(v, i) && (u in v.tasks[i].pc.index || u in v.tasks[i].pc.pending);
          assert Writes(w, i) && v.tasks[i] == w.tasks[i];
        }
      }
    }
  }

  ghost predicate Disjoint(w: World) {
    forall id | Writes(w, id) :: forall u | u in w.tasks[id].pc.pending :: u !in w.tasks[id].pc.index
  }

  /** Steps at which a task comes, goes or moves without touching the cache. */
  lemma QuietKeeps(w: World, s: Step)
    requires Balanced(w) && Enabled(w, s) && Quiet(s)
    ensures Balanced(Apply(w, s))
  {
    var v := Apply(w, s);
    assert OthersSame(w, v, s.id) && !Writes(w, s.id) && !Writes(v, s.id) && !Reads(w, s.id) && !Reads(v, s.id);
    ListedStep(w, v, s.id);
    forall u
      ensures Waits(v, u) <==> Waits(w, u)
    {
      WaitsStep(w, v, s.id, u);
    }
    DisjointStep(w, v, s.id);
  }

  lemma DisjointStep(w: World, v: World, id: nat)
    requires OthersSame(w, v, id) && Disjoint(w) && !Writes(v, id)
    ensures Disjoint(v)
  {
    assert forall j | Writes(v, j) :: Writes(w, j) && v.tasks[j] == w.tasks[j];
  }

  lemma MatchKeeps(w: World, id: nat)
    requires Balanced(w) && Enabled(w, Match(id))
    ensures Balanced(Apply(w, Match(id)))
  {
    var v := Apply(w, Match(id));
    assert OthersSame(w, v, id) && !Writes(w, id) && !Writes(v, id) && !Reads(w, id);
    ListedStep(w, v, id);
    forall u
      ensures Waits(v, u) <==> Waits(w, u) || (Reads(v, id) && u == w.tasks[id].url)
    {
      WaitsStep(w, v, id, u);
    }
    DisjointStep(w, v, id);
  }

  lemma PutKeeps(w: World, id: nat)
    requires Balanced(w) && Enabled(w, Put(id)) && w.tasks[id].url != INDEX_URL
    ensures Balanced(Apply(w, Put(id)))
  {
    var v, url := Apply(w, Put(id)), w.tasks[id].url;
    assert OthersSame(w, v, id) && !Writes(w, id) && !Writes(v, id) && !Reads(w, id) && Reads(v, id);
    assert ReadIndex(v.entries) == ReadIndex(w.entries);
    ListedStep(w, v, id);
    forall u
      ensures Waits(v, u) <==> Waits(w, u) || u == url
    {
      WaitsStep(w, v, id, u);
    }
    DisjointStep(w, v, id);
  }

  /** The index is read: what it lists and the task's own URL are what the task now carries. */
  lemma ReadKeeps(w: World, id: nat)
    requires Balanced(w) && Enabled(w, Read(id)) && NoneWriting(w)
    requires NoDup(ReadIndex(w.entries)) && |ReadIndex(w.entries)| <= MAX_ENTRIES
    ensures Balanced(Apply(w, Read(id)))
  {
    var v, url, r := Apply(w, Read(id)), w.tasks[id].url, ReadIndex(w.entries);
    EvictsAtMostOne(r, url);
    var t := Touch(r, url, MAX_ENTRIES);
    assert OthersSame(w, v, id) && Writes(v, id) && Reads(w, id) && !Reads(v, id);
    assert v.tasks[id].pc == Evicting(t.index, Elements(t.evict));
    assert forall j :: Writes(v, j) <==> j == id;
    forall u
      ensures Listed(v, u) <==> u in r || u == url
    {
      OnlyWriter(v, id, u);
      assert u in Elements(t.index) + Elements(t.evict) <==> u in Elements(r) + {url};
    }
    forall u
      ensures Waits(w, u) <==> Waits(v, u) || u == url
    {
      WaitsStep(w, v, id, u);
    }
    assert forall u | u in Elements(t.evict) :: u !in t.index by {
      assert forall u | u in t.index :: u in Elements(t.index);
    }
  }

  lemma OnlyWriter(w: World, id: nat, u: Url)
    requires Writes(w, id) && forall j :: Writes(w, j) <==> j == id
    ensures Listed(w, u) <==> u in w.tasks[id].pc.index || u in w.tasks[id].pc.pending
  {
    assert !NoneWriting(w);
    if Listed(w, u) {
      var i :| Writes(w, i) && (u in w.tasks[i].pc.index || u in w.tasks[i].pc.pending);
      assert Writes(w, i);
    }
  }

  lemma WriterAlone(w: World, id: nat)
    requires OneWriter(w) && Writes(w, id)
    ensures forall j :: Writes(w, j) <==> j == id
  {
  }

  lemma DeleteKeeps(w: World, id: nat, x: Url)
    requires Balanced(w) && Enabled(w, Delete(id, x)) && !Waits(w, x)
    ensures Balanced(Apply(w, Delete(id, x)))
  {
    var v := Apply(w, Delete(id, x));
    WriterAlone(w, id);
    assert OthersSame(w, v, id) && Writes(v, id) && !Reads(w, id) && !Reads(v, id);
    assert forall j | j != id && Writes(v, j) :: Writes(w, j);
    assert forall j :: Writes(v, j) <==> j == id;
    forall u
      ensures Listed(v, u) <==> Listed(w, u) && u != x
      ensures Waits(v, u) <==> Waits(w, u)
    {
      OnlyWriter(w, id, u);
      OnlyWriter(v, id, u);
      WaitsStep(w, v, id, u);
    }
  }

  lemma PutIndexKeeps(w: World, id: nat)
    requires Balanced(w) && Enabled(w, PutIndex(id))
    ensures Balanced(Apply(w, PutIndex(id)))
  {
    var v := Apply(w, PutIndex(id));
    WriterAlone(w, id);
    assert OthersSame(w, v, id) && !Writes(v, id) && !Reads(w, id) && !Reads(v, id);
    assert forall j | Writes(v, j) :: j != id && Writes(w, j);
    assert NoneWriting(v) by {
      assert forall j | j in v.tasks :: !Writes(v, j);
    }
    ReadsBack(w.entries, w.tasks[id].pc.index);
    forall u
      ensures Listed(v, u) <==> Listed(w, u)
      ensures Waits(v, u) <==> Waits(w, u)
    {
      OnlyWriter(w, id, u);
      WaitsStep(w, v, id, u);
    }
  }

  /**
   * What holds after every run without lost bookkeeping whose requests neither read the index while
   * another writes it nor evict what another has yet to record.
   */
  lemma {:induction false} AgreementKept(steps: seq<Step>)
    requires Exec(steps).Some? && AllHarmless(steps) && Undisturbed(steps) && Unstolen(steps)
    ensures Balanced(Exec(steps).value)
  {
    if steps != [] {
      var before, s := steps[..|steps| - 1], steps[|steps| - 1];
      assert steps == before + [s];
      assert s in steps && forall x | x in before :: x in steps;
      AgreementKept(before);
      RunKeepsInv(before);
      StepKeeps(Exec(before).value, s);
    }
  }

  lemma StepKeeps(w: World, s: Step)
    requires Inv(w) && Balanced(w) && Enabled(w, s) && Harmless(s)
    requires s.Read? ==> NoneWriting(w)
    requires s.Delete? ==> !Waits(w, s.url)
    ensures Balanced(Apply(w, s))
  {
    StoredIndexIsGood(w);
    IndexIsNoPackage();
    match s
    case Match(id) => MatchKeeps(w, id);
    case Put(id) => PutKeeps(w, id);
    case Read(id) => ReadKeeps(w, id);
    case Delete(id, url) => DeleteKeeps(w, id, url);
    case PutIndex(id) => PutIndexKeeps(w, id);
    case LooseDelete(_) => assert false;
    case _ => QuietKeeps(w, s);
  }

  /** At the end of such a run, with no request left at its bookkeeping, cache and index agree. */
  lemma Agreement(steps: seq<Step>)
    requires Exec(steps).Some? && AllHarmless(steps) && Undisturbed(steps) && Unstolen(steps)
    requires var w := Exec(steps).value; forall id | id in w.tasks ::
               !w.tasks[id].pc.ReadingIndex? && !Writes(w, id)
    ensures var w := Exec(steps).value; w.entries.Keys - {INDEX_URL} == Elements(ReadIndex(w.entries))
  {
    AgreementKept(steps);
    RunKeepsInv(steps);
    var w := Exec(steps).value;
    StoredIndexIsGood(w);
    IndexIsNoPackage();
    assert forall u :: !Waits(w, u);
    assert NoneWriting(w);
    forall u
      ensures u in w.entries.Keys - {INDEX_URL} <==> u in Elements(ReadIndex(w.entries))
    {
      assert Listed(w, u) <==> u in ReadIndex(w.entries);
    }
  }
}
