/**
 * frontend/public/sw.js: when the bookkeeping of concurrent first uses survives, exactly, and why
 * keeping index sections apart is not enough for a full cache.
 */
module CacheOverlap {
  import opened CacheAgreement
  import opened CacheInterleaving
  import opened Lru
  import opened PackageCache
  import opened Sequences

  // ---------------------------------------------------------------- first uses

  function ArrivedUrls(steps: seq<Step>): set<Url> {
    if steps == [] then {}
    else
      var s := steps[|steps| - 1];
      ArrivedUrls(steps[..|steps| - 1]) + if s.Arrive? then {s.url} else {}
  }

  /** No URL is requested twice. */
  predicate FirstUses(steps: seq<Step>) {
    if steps == [] then true
    else
      var before, s := steps[..|steps| - 1], steps[|steps| - 1];
      FirstUses(before) && (s.Arrive? ==> s.url !in ArrivedUrls(before))
  }

  /** The URLs whose use began to be recorded. */
  function RecordedUrls(steps: seq<Step>): set<Url> {
    if steps == [] then {}
    else
      var before, s := steps[..|steps| - 1], steps[|steps| - 1];
      RecordedUrls(before)
      + if s.Read? && Exec(before).Some? && s.id in Exec(before).value.tasks
         then {Exec(before).value.tasks[s.id].url}
         else {}
  }

  /** Tasks have different URLs, and those with a URL recorded are at their bookkeeping or done. */
  ghost predicate FreshTasks(w: World, arrived: set<Url>, recorded: set<Url>) {
    && recorded <= arrived
    && (forall id | id in w.tasks :: w.tasks[id].url in arrived)
    && (forall i, j | i in w.tasks && j in w.tasks && i != j :: w.tasks[i].url != w.tasks[j].url)
    && (forall id | id in w.tasks && !w.tasks[id].pc.Finished? :: w.tasks[id].url in recorded <==> Writes(w, id))
  }

  /** What an index may hold, and where a URL may occur while its own request writes. */
  ghost predicate FreshIndex(w: World, recorded: set<Url>) {
    && (forall u | u in ReadIndex(w.entries) :: u in recorded)
    && (forall id | Writes(w, id) :: forall u | u in w.tasks[id].pc.index :: u in recorded)
    && (forall id | Writes(w, id) :: w.tasks[id].url !in ReadIndex(w.entries))
    && (forall i, j | Writes(w, i) && Writes(w, j) && i != j :: w.tasks[i].url !in w.tasks[j].pc.index)
  }

  ghost predicate Fresh(w: World, arrived: set<Url>, recorded: set<Url>) {
    FreshTasks(w, arrived, recorded) && FreshIndex(w, recorded)
  }

  lemma TouchMembers(r: seq<Url>, url: Url)
    ensures url in Touch(r, url, MAX_ENTRIES).index
    ensures forall u | u in Touch(r, url, MAX_ENTRIES).index :: u == url || u in r
  {
    var next := [url] + Without(r, url);
    assert next[0] == url && Touch(r, url, MAX_ENTRIES).index[0] == url;
    assert forall u | u in Take(next, Limit(MAX_ENTRIES)) :: u in next;
  }

  lemma ReadFresh(w: World, arrived: set<Url>, recorded: set<Url>, id: nat)
    requires Fresh(w, arrived, recorded) && Enabled(w, Read(id))
    ensures Fresh(Apply(w, Read(id)), arrived, recorded + {w.tasks[id].url})
  {
    var v, url, r := Apply(w, Read(id)), w.tasks[id].url, ReadIndex(w.entries);
    TouchMembers(r, url);
    assert v.tasks[id].pc.index == Touch(r, url, MAX_ENTRIES).index;
    assert forall j | j != id :: (Writes(v, j) <==> Writes(w, j)) && (j in w.tasks ==> v.tasks[j] == w.tasks[j]);
  }

  lemma PutIndexFresh(w: World, arrived: set<Url>, recorded: set<Url>, id: nat)
    requires Fresh(w, arrived, recorded) && Enabled(w, PutIndex(id))
    ensures Fresh(Apply(w, PutIndex(id)), arrived, recorded)
  {
    var v := Apply(w, PutIndex(id));
    ReadsBack(w.entries, w.tasks[id].pc.index);
    assert forall j | j != id :: (Writes(v, j) <==> Writes(w, j)) && (j in w.tasks ==> v.tasks[j] == w.tasks[j]);
  }

  /** No other step touches the index or what a request carries of it. */
  ghost predicate IndexKept(w: World, v: World) {
    && ReadIndex(v.entries) == ReadIndex(w.entries)
    && forall j | Writes(v, j) ::
         Writes(w, j) && v.tasks[j].url == w.tasks[j].url && v.tasks[j].pc.index == w.tasks[j].pc.index
  }

  lemma OtherKeeps(w: World, s: Step)
    requires Inv(w) && Enabled(w, s) && Harmless(s) && !s.Read? && !s.PutIndex?
    ensures IndexKept(w, Apply(w, s))
  {
    StepUrls(w, s);
  }

  lemma StepUrls(w: World, s: Step)
    requires Inv(w) && Enabled(w, s)
    ensures s.Put? ==> w.tasks[s.id].url != INDEX_URL
    ensures s.Delete? || s.LooseDelete? ==> s.url != INDEX_URL
  {
    IndexIsNoPackage();
    if s.Delete? || s.Put? {
      assert TaskOk(w.tasks[s.id], w.fetched);
    }
  }

  lemma OtherFreshTasks(w: World, arrived: set<Url>, recorded: set<Url>, s: Step)
    requires FreshTasks(w, arrived, recorded) && Enabled(w, s) && Harmless(s)
    requires !s.Read? && !s.PutIndex? && (s.Arrive? ==> s.url !in arrived)
    ensures FreshTasks(Apply(w, s), arrived + if s.Arrive? then {s.url} else {}, recorded)
  {
  }

  lemma StepFresh(w: World, arrived: set<Url>, recorded: set<Url>, s: Step)
    requires Inv(w) && Fresh(w, arrived, recorded) && Enabled(w, s) && Harmless(s) && (s.Arrive? ==> s.url !in arrived)
    ensures Fresh(Apply(w, s), arrived + if s.Arrive? then {s.url} else {},
                  recorded + if s.Read? then {w.tasks[s.id].url} else {})
  {
    if s.Read? {
      ReadFresh(w, arrived, recorded, s.id);
      assert arrived + {} == arrived;
    } else if s.PutIndex? {
      PutIndexFresh(w, arrived, recorded, s.id);
      assert arrived + {} == arrived && recorded + {} == recorded;
    } else {
      OtherFreshTasks(w, arrived, recorded, s);
      OtherKeeps(w, s);
      assert recorded + {} == recorded;
    }
  }

  lemma {:induction false} FreshKept(steps: seq<Step>)
    requires Exec(steps).Some? && AllHarmless(steps) && FirstUses(steps)
    ensures Fresh(Exec(steps).value, ArrivedUrls(steps), RecordedUrls(steps))
  {
    if steps != [] {
      var before, s := steps[..|steps| - 1], steps[|steps| - 1];
      assert steps == before + [s];
      assert s in steps && forall x | x in before :: x in steps;
      FreshKept(before);
      RunKeepsInv(before);
      StepFresh(Exec(before).value, ArrivedUrls(before), RecordedUrls(before), s);
    }
  }

  // ---------------------------------------------------------------- sections kept apart

  /** The index, or the one about to be written, has every recorded URL. */
  ghost predicate Complete(w: World, recorded: set<Url>) {
    && OneWriter(w)
    && (NoneWriting(w) ==> Elements(ReadIndex(w.entries)) == recorded)
    && forall id | Writes(w, id) :: Elements(w.tasks[id].pc.index) == recorded
  }

  lemma ReadCompletes(w: World, recorded: set<Url>, id: nat)
    requires Complete(w, recorded) && Enabled(w, Read(id)) && NoneWriting(w)
    requires NoDup(ReadIndex(w.entries)) && w.tasks[id].url !in recorded && |recorded| < MAX_ENTRIES
    ensures Complete(Apply(w, Read(id)), recorded + {w.tasks[id].url})
  {
    var v, url, r := Apply(w, Read(id)), w.tasks[id].url, ReadIndex(w.entries);
    NoDupSize(r);
    EvictsAtMostOne(r, url);
    var t := Touch(r, url, MAX_ENTRIES);
    assert forall j :: Writes(v, j) <==> j == id;
    assert Writes(v, id) && !NoneWriting(v);
    assert Elements(t.evict) == {};
    assert Elements(t.index) + {} == Elements(t.index);
  }

  lemma OtherCompletes(w: World, recorded: set<Url>, s: Step)
    requires Inv(w) && Complete(w, recorded) && Enabled(w, s) && Harmless(s) && !s.Read?
    ensures Complete(Apply(w, s), recorded)
  {
    var v := Apply(w, s);
    if s.PutIndex? {
      ReadsBack(w.entries, w.tasks[s.id].pc.index);
      WriterAlone(w, s.id);
      assert forall j | Writes(v, j) :: j != s.id && Writes(w, j);
    } else {
      OtherKeeps(w, s);
      WritersKept(w, s);
    }
  }

  lemma WritersKept(w: World, s: Step)
    requires Enabled(w, s) && Harmless(s) && !s.Read? && !s.PutIndex?
    ensures forall j :: Writes(Apply(w, s), j) <==> Writes(w, j)
    ensures NoneWriting(Apply(w, s)) <==> NoneWriting(w)
  {
    var v := Apply(w, s);
    assert forall j :: Writes(v, j) <==> Writes(w, j);
    assert NoneWriting(v) <==> forall j :: !Writes(v, j);
    assert NoneWriting(w) <==> forall j :: !Writes(w, j);
  }

  lemma StepCompletes(w: World, recorded: set<Url>, s: Step)
    requires Inv(w) && Complete(w, recorded) && Enabled(w, s) && Harmless(s)
    requires s.Read? ==>
             NoneWriting(w) && w.tasks[s.id].url !in recorded && |recorded + {w.tasks[s.id].url}| <= MAX_ENTRIES
    ensures Complete(Apply(w, s), recorded + if s.Read? then {w.tasks[s.id].url} else {})
  {
    if s.Read? {
      StoredIndexIsGood(w);
      assert |recorded + {w.tasks[s.id].url}| == |recorded| + 1;
      ReadCompletes(w, recorded, s.id);
    } else {
      OtherCompletes(w, recorded, s);
      assert recorded + {} == recorded;
    }
  }

  /** First uses whose sections are apart, no more than fit, are all recorded. */
  lemma {:induction false} ApartCompletes(steps: seq<Step>)
    requires Exec(steps).Some? && AllHarmless(steps) && FirstUses(steps)
    requires Undisturbed(steps) && |RecordedUrls(steps)| <= MAX_ENTRIES
    ensures Complete(Exec(steps).value, RecordedUrls(steps))
  {
    if steps != [] {
      var before, s := steps[..|steps| - 1], steps[|steps| - 1];
      assert steps == before + [s];
      assert s in steps && forall x | x in before :: x in steps;
      SubsetSize(RecordedUrls(before), RecordedUrls(steps));
      ApartCompletes(before);
      FreshKept(before);
      RunKeepsInv(before);
      var w, r := Exec(before).value, RecordedUrls(before);
      StepCompletes(w, r, s);
    }
  }

  // ---------------------------------------------------------------- sections that overlap

  /** x and y are together in no index, written or about to be. */
  ghost predicate Parted(w: World, x: Url, y: Url) {
    && !(x in ReadIndex(w.entries) && y in ReadIndex(w.entries))
    && forall id | Writes(w, id) :: !(x in w.tasks[id].pc.index && y in w.tasks[id].pc.index)
  }

  /** Once parted, two recorded URLs stay parted: nobody records either again. */
  lemma PartedKept(w: World, arrived: set<Url>, recorded: set<Url>, s: Step, x: Url, y: Url)
    requires Inv(w) && Fresh(w, arrived, recorded) && Enabled(w, s) && Harmless(s)
    requires Parted(w, x, y) && x in recorded && y in recorded
    ensures Parted(Apply(w, s), x, y)
  {
    if s.Read? {
      PartedRead(w, s.id, x, y);
    } else if s.PutIndex? {
      PartedPut(w, s.id, x, y);
    } else {
      OtherKeeps(w, s);
    }
  }

  lemma PartedRead(w: World, id: nat, x: Url, y: Url)
    requires Enabled(w, Read(id)) && Parted(w, x, y) && x != w.tasks[id].url && y != w.tasks[id].url
    ensures Parted(Apply(w, Read(id)), x, y)
  {
    var v := Apply(w, Read(id));
    TouchMembers(ReadIndex(w.entries), w.tasks[id].url);
    assert forall j | j != id :: (Writes(v, j) <==> Writes(w, j)) && (j in w.tasks ==> v.tasks[j] == w.tasks[j]);
  }

  lemma PartedPut(w: World, id: nat, x: Url, y: Url)
    requires Enabled(w, PutIndex(id)) && Parted(w, x, y)
    ensures Parted(Apply(w, PutIndex(id)), x, y)
  {
    var v := Apply(w, PutIndex(id));
    assert Writes(w, id);
    ReadsBack(w.entries, w.tasks[id].pc.index);
    assert forall j | Writes(v, j) :: Writes(w, j) && v.tasks[j] == w.tasks[j];
  }

  /** A request that reads the index while another writes it: neither sees the other. */
  lemma OverlapParts(w: World, arrived: set<Url>, recorded: set<Url>, i: nat, j: nat)
    requires Fresh(w, arrived, recorded) && Writes(w, i) && Enabled(w, Read(j))
    ensures Parted(Apply(w, Read(j)), w.tasks[i].url, w.tasks[j].url)
  {
    var v, x, y, r := Apply(w, Read(j)), w.tasks[i].url, w.tasks[j].url, ReadIndex(w.entries);
    assert i != j && x != y && y !in recorded;
    TouchMembers(r, y);
    assert forall m | m != j :: (Writes(v, m) <==> Writes(w, m)) && (m in w.tasks ==> v.tasks[m] == w.tasks[m]);
  }

  lemma {:induction false} OverlapLoses(steps: seq<Step>) returns (x: Url, y: Url)
    requires Exec(steps).Some? && AllHarmless(steps) && FirstUses(steps) && !Undisturbed(steps)
    ensures x in RecordedUrls(steps) && y in RecordedUrls(steps) && Parted(Exec(steps).value, x, y)
  {
    var before, s := steps[..|steps| - 1], steps[|steps| - 1];
    assert steps == before + [s];
    assert s in steps && forall z | z in before :: z in steps;
    FreshKept(before);
    RunKeepsInv(before);
    var w := Exec(before).value;
    if !Undisturbed(before) {
      x, y := OverlapLoses(before);
      PartedKept(w, ArrivedUrls(before), RecordedUrls(before), s, x, y);
    } else {
      var i :| i in w.tasks && Writes(w, i);
      x, y := w.tasks[i].url, w.tasks[s.id].url;
      OverlapParts(w, ArrivedUrls(before), RecordedUrls(before), i, s.id);
    }
  }

  /**
   * For every interleaving of first uses that fit the ceiling, however many requests and whatever
   * their order, no lost fault aside: once all bookkeeping is done, every recorded use is in the index
   * if and only if no request read the index while another was between its Read and its PutIndex.
   */
  lemma FirstUsesExactly(steps: seq<Step>)
    requires Exec(steps).Some? && AllHarmless(steps) && FirstUses(steps)
    requires NoneWriting(Exec(steps).value) && |RecordedUrls(steps)| <= MAX_ENTRIES
    ensures (forall u | u in RecordedUrls(steps) :: u in ReadIndex(Exec(steps).value.entries)) <==> Undisturbed(steps)
  {
    if Undisturbed(steps) {
      ApartCompletes(steps);
      assert forall u | u in RecordedUrls(steps) :: u in Elements(ReadIndex(Exec(steps).value.entries));
    } else {
      var x, y := OverlapLoses(steps);
    }
  }

  // ---------------------------------------------------------------- agreement, exactly

  /** With room for all, what is stored is what is recorded or waits to be, and nothing is evicted. */
  ghost predicate Stored(w: World, recorded: set<Url>) {
    && w.loose == {} && (forall id | Writes(w, id) :: w.tasks[id].pc.pending == {})
    && forall u | u != INDEX_URL :: u in w.entries <==> u in recorded || Waits(w, u)
  }

  lemma NothingToEvict(w: World, recorded: set<Url>, id: nat)
    requires Inv(w) && FreshIndex(w, recorded) && Enabled(w, Read(id)) && w.tasks[id].url !in recorded
    requires |recorded + {w.tasks[id].url}| <= MAX_ENTRIES
    ensures Touch(ReadIndex(w.entries), w.tasks[id].url, MAX_ENTRIES).evict == []
  {
    var r, url := ReadIndex(w.entries), w.tasks[id].url;
    StoredIndexIsGood(w);
    NoDupFits(r, recorded);
    assert |recorded + {url}| == |recorded| + 1;
    EvictsAtMostOne(r, url);
  }

  lemma StoredRead(w: World, recorded: set<Url>, id: nat)
    requires Stored(w, recorded) && Enabled(w, Read(id))
    requires Touch(ReadIndex(w.entries), w.tasks[id].url, MAX_ENTRIES).evict == []
    ensures Stored(Apply(w, Read(id)), recorded + {w.tasks[id].url})
  {
    var v := Apply(w, Read(id));
    assert Elements(Touch(ReadIndex(w.entries), w.tasks[id].url, MAX_ENTRIES).evict) == {};
    assert OthersSame(w, v, id) && Reads(w, id) && !Reads(v, id);
    assert forall j | j != id && Writes(v, j) :: Writes(w, j) && v.tasks[j] == w.tasks[j];
    forall u
      ensures Waits(w, u) <==> Waits(v, u) || u == w.tasks[id].url
    {
      WaitsStep(w, v, id, u);
    }
  }

  /** A first use never hits. */
  lemma StoredMatch(w: World, arrived: set<Url>, recorded: set<Url>, id: nat)
    requires FreshTasks(w, arrived, recorded) && Stored(w, recorded)
             && Enabled(w, Match(id)) && w.tasks[id].url != INDEX_URL
    ensures Stored(Apply(w, Match(id)), recorded)
  {
    var v, url := Apply(w, Match(id)), w.tasks[id].url;
    assert !Waits(w, url) && url !in recorded;
    StoredStep(w, v, recorded, id);
  }

  /** A task that neither read nor reads, and stops or never starts writing. */
  lemma StoredStep(w: World, v: World, recorded: set<Url>, id: nat)
    requires Stored(w, recorded) && OthersSame(w, v, id) && !Reads(w, id) && !Reads(v, id) && !Writes(v, id)
    requires v.loose == {} && v.entries.Keys - {INDEX_URL} == w.entries.Keys - {INDEX_URL}
    ensures Stored(v, recorded)
  {
    assert forall j | Writes(v, j) :: Writes(w, j) && v.tasks[j] == w.tasks[j];
    forall u | u != INDEX_URL
      ensures u in v.entries <==> u in recorded || Waits(v, u)
    {
      WaitsStep(w, v, id, u);
      assert u in v.entries <==> u in v.entries.Keys - {INDEX_URL};
      assert u in w.entries <==> u in w.entries.Keys - {INDEX_URL};
    }
  }

  lemma StoredPut(w: World, recorded: set<Url>, id: nat)
    requires Stored(w, recorded) && Enabled(w, Put(id))
    ensures Stored(Apply(w, Put(id)), recorded)
  {
    var v, url := Apply(w, Put(id)), w.tasks[id].url;
    assert OthersSame(w, v, id) && !Reads(w, id) && Reads(v, id);
    assert forall j | Writes(v, j) :: Writes(w, j) && v.tasks[j] == w.tasks[j];
    forall u
      ensures Waits(v, u) <==> Waits(w, u) || u == url
    {
      WaitsStep(w, v, id, u);
    }
  }

  lemma StoredQuiet(w: World, recorded: set<Url>, s: Step)
    requires Stored(w, recorded) && Enabled(w, s) && Quiet(s)
    ensures Stored(Apply(w, s), recorded)
  {
    StoredStep(w, Apply(w, s), recorded, s.id);
  }

  lemma StepStored(w: World, arrived: set<Url>, recorded: set<Url>, s: Step)
    requires Inv(w) && Fresh(w, arrived, recorded) && Stored(w, recorded) && Enabled(w, s) && Harmless(s)
    requires s.Read? ==> |recorded + {w.tasks[s.id].url}| <= MAX_ENTRIES
    ensures Stored(Apply(w, s), recorded + if s.Read? then {w.tasks[s.id].url} else {})
  {
    if Quiet(s) {
      StoredQuiet(w, recorded, s);
      assert recorded + {} == recorded;
    } else if s.Read? {
      NothingToEvict(w, recorded, s.id);
      StoredRead(w, recorded, s.id);
    } else {
      MoveStored(w, arrived, recorded, s);
      assert recorded + {} == recorded;
    }
  }

  lemma MoveStored(w: World, arrived: set<Url>, recorded: set<Url>, s: Step)
    requires Inv(w) && FreshTasks(w, arrived, recorded) && Stored(w, recorded) && Enabled(w, s) && Harmless(s)
    requires !Quiet(s) && !s.Read?
    ensures Stored(Apply(w, s), recorded)
  {
    IndexIsNoPackage();
    assert s.Delete? ==> Writes(w, s.id);
    match s
    case Match(id) => StoredMatch(w, arrived, recorded, id);
    case Put(id) => StoredPut(w, recorded, id);
    case PutIndex(id) => StoredStep(w, Apply(w, s), recorded, id);
    case _ => assert false;
  }

  lemma {:induction false} StoredKept(steps: seq<Step>)
    requires Exec(steps).Some? && AllHarmless(steps) && FirstUses(steps) && |RecordedUrls(steps)| <= MAX_ENTRIES
    ensures Stored(Exec(steps).value, RecordedUrls(steps))
  {
    if steps != [] {
      var before, s := steps[..|steps| - 1], steps[|steps| - 1];
      assert steps == before + [s];
      assert s in steps && forall x | x in before :: x in steps;
      SubsetSize(RecordedUrls(before), RecordedUrls(steps));
      StoredKept(before);
      FreshKept(before);
      RunKeepsInv(before);
      StepStored(Exec(before).value, ArrivedUrls(before), RecordedUrls(before), s);
    }
  }

  /**
   * Exactly which interleavings of first uses that fit the ceiling end in agreement of cache and
   * index: those in which no request reads the index while another is between its Read and its PutIndex.
   */
  lemma AgreementExactly(steps: seq<Step>)
    requires Exec(steps).Some? && AllHarmless(steps) && FirstUses(steps) && |RecordedUrls(steps)| <= MAX_ENTRIES
    requires var w := Exec(steps).value; forall id | id in w.tasks :: !Reads(w, id) && !Writes(w, id)
    ensures var w := Exec(steps).value;
            w.entries.Keys - {INDEX_URL} == Elements(ReadIndex(w.entries)) <==> Undisturbed(steps)
  {
    var w, recorded := Exec(steps).value, RecordedUrls(steps);
    StoredKept(steps);
    FreshKept(steps);
    FirstUsesExactly(steps);
    RecordedArePackages(steps);
    NobodyWaits(w);
    OnlyRecorded(w, recorded);
    AllOrNot(ReadIndex(w.entries), recorded);
  }

  lemma NobodyWaits(w: World)
    requires forall id | id in w.tasks :: !Reads(w, id)
    ensures forall u :: !Waits(w, u)
  {
  }

  lemma AllOrNot(index: seq<Url>, recorded: set<Url>)
    requires forall u | u in index :: u in recorded
    ensures recorded == Elements(index) <==> forall u | u in recorded :: u in index
  {
  }

  lemma OnlyRecorded(w: World, recorded: set<Url>)
    requires Stored(w, recorded) && INDEX_URL !in recorded && forall u :: !Waits(w, u)
    ensures w.entries.Keys - {INDEX_URL} == recorded
  {
    forall u
      ensures u in w.entries.Keys - {INDEX_URL} <==> u in recorded
    {
    }
  }

  lemma {:induction false} RecordedArePackages(steps: seq<Step>)
    requires Exec(steps).Some?
    ensures INDEX_URL !in RecordedUrls(steps)
  {
    if steps != [] {
      RecordedArePackages(steps[..|steps| - 1]);
      RunKeepsInv(steps[..|steps| - 1]);
      IndexIsNoPackage();
    }
  }
}
