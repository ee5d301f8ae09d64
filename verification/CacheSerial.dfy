/** frontend/public/sw.js: one request after the other, step by step, is the sequential cache. */
module CacheSerial {
  import opened CacheAnswers
  import opened CacheInterleaving
  import opened Lru
  import opened PackageCache
  import opened Results
  import opened Sequences

  /** A request arrives only when none is under way. */
  ghost predicate Serial(steps: seq<Step>) {
    if steps == [] then true
    else
      var before, s := steps[..|steps| - 1], steps[|steps| - 1];
      Serial(before) && (s.Arrive? && Exec(before).Some? ==> Exec(before).value.tasks == map[])
  }

  /** Only the network may fail. */
  ghost predicate FaultFree(steps: seq<Step>) {
    forall s | s in steps :: Faulty(s) ==> s.FetchFault?
  }

  /** The requests that were answered, in order, each with what its fetch step says of the network. */
  function Requests(steps: seq<Step>): seq<Request> {
    if steps == [] then []
    else
      var before, s := steps[..|steps| - 1], steps[|steps| - 1];
      Requests(before)
      + if s.Respond? && Asked(before, s.id).Some?
        then [Request(Asked(before, s.id).value, ReplyIn(SaidTo(before, s.id)))] else []
  }

  /** The network's reply; None when it was not asked or rejected. */
  function ReplyIn(said: Said): Option<Response> {
    if said.Gave? then Some(said.response) else None
  }

  /** What was asked, and what came back as far as it did, by the task. */
  function RequestOf(t: Task): Request {
    Request(t.url, if t.answer.Live? then Some(t.answer.response) else None)
  }

  // ---------------------------------------------------------------- a request under way

  /** The contents when the bookkeeping starts, from those when the request arrived. */
  function Base(c: Contents, t: Task): Contents {
    if t.url in c || !t.answer.Live? then c else c[t.url := Package(t.answer.response.body)]
  }

  ghost predicate HitOrStored(c: Contents, t: Task) {
    if t.url in c then t.answer == Cached(c[t.url]) else t.answer.Live? && Storable(t.answer.response)
  }

  /** Where a request is, from contents c at its arrival to contents e now. */
  ghost predicate UnderWay(e: Contents, c: Contents, t: Task) {
    match t.pc
    case Matching => e == c
    case Fetching => e == c && t.url !in c
    case Storing(body) => e == c && t.url !in c && HitOrStored(c, t) && body == t.answer.response.body
    case ReadingIndex => e == Base(c, t) && HitOrStored(c, t)
    case Evicting(index, pending) =>
      var x := Touch(ReadIndex(Base(c, t)), t.url, MAX_ENTRIES);
      HitOrStored(c, t) && index == x.index
      && pending <= Elements(x.evict) && e == Base(c, t) - (Elements(x.evict) - pending)
    case Finished => e == AfterServe(c, RequestOf(t)) && t.answer == AnswerTo(c, RequestOf(t))
  }

  ghost predicate Follows(w: World, c: Contents) {
    && w.loose == {} && (forall i, j | i in w.tasks && j in w.tasks :: i == j)
    && (w.tasks == map[] ==> w.entries == c)
    && forall id | id in w.tasks :: UnderWay(w.entries, c, w.tasks[id])
  }

  lemma PutIndexFollows(e: Contents, c: Contents, t: Task)
    requires t.pc.Evicting? && t.pc.pending == {} && UnderWay(e, c, t)
    ensures UnderWay(e[INDEX_URL := Written(t.pc.index)], c, t.(pc := Finished))
  {
    var x := Touch(ReadIndex(Base(c, t)), t.url, MAX_ENTRIES);
    assert Elements(x.evict) - {} == Elements(x.evict);
    assert e[INDEX_URL := Written(t.pc.index)] == AfterUse(Base(c, t), t.url);
  }

  lemma ReadFollows(e: Contents, c: Contents, t: Task)
    requires t.pc.ReadingIndex? && UnderWay(e, c, t)
    ensures var x := Touch(ReadIndex(e), t.url, MAX_ENTRIES);
            UnderWay(e, c, t.(pc := Evicting(x.index, Elements(x.evict))))
  {
    var x := Touch(ReadIndex(e), t.url, MAX_ENTRIES);
    assert Elements(x.evict) - Elements(x.evict) == {};
    assert e - {} == e;
  }

  lemma DeleteFollows(e: Contents, c: Contents, t: Task, u: Url)
    requires t.pc.Evicting? && u in t.pc.pending && UnderWay(e, c, t)
    ensures UnderWay(e - {u}, c, t.(pc := t.pc.(pending := t.pc.pending - {u})))
  {
    var evict := Elements(Touch(ReadIndex(Base(c, t)), t.url, MAX_ENTRIES).evict);
    assert evict - (t.pc.pending - {u}) == (evict - t.pc.pending) + {u};
  }

  /** One step of the only request there is. */
  lemma OnlyTask(w: World, v: World, c: Contents, id: nat)
    requires Follows(w, c) && id in w.tasks && v.loose == {} && id in v.tasks && v.tasks.Keys == w.tasks.Keys
    requires UnderWay(v.entries, c, v.tasks[id])
    ensures Follows(v, c)
  {
    assert forall j | j in v.tasks :: j == id;
  }

  lemma StepFollows(w: World, c: Contents, s: Step)
    requires Follows(w, c) && Enabled(w, s) && (Faulty(s) ==> s.FetchFault?)
    requires s.Arrive? ==> w.tasks == map[]
    ensures !s.Respond? ==> Follows(Apply(w, s), c)
    ensures s.Respond? ==> Follows(Apply(w, s), AfterServe(c, RequestOf(w.tasks[s.id])))
  {
    var v := Apply(w, s);
    match s
    case Arrive(_, _) =>
    case Respond(id) =>
      assert UnderWay(w.entries, c, w.tasks[id]);
      assert v.tasks == map[];
    case Read(id) =>
      ReadFollows(w.entries, c, w.tasks[id]);
      OnlyTask(w, v, c, id);
    case Delete(id, u) =>
      DeleteFollows(w.entries, c, w.tasks[id], u);
      OnlyTask(w, v, c, id);
    case PutIndex(id) =>
      PutIndexFollows(w.entries, c, w.tasks[id]);
      OnlyTask(w, v, c, id);
    case Match(id) => OnlyTask(w, v, c, id);
    case Fetch(id, _) => OnlyTask(w, v, c, id);
    case FetchFault(id) => OnlyTask(w, v, c, id);
    case Put(id) => OnlyTask(w, v, c, id);
    case _ => assert false;
  }

  function AnswersTo(qs: seq<Request>): seq<Served> {
    if qs == [] then []
    else
      var before, q := qs[..|qs| - 1], qs[|qs| - 1];
      AnswersTo(before) + [Served(q.url, AnswerTo(AfterAll(before), q))]
  }

  /**
   * Refinement: a serial run is the sequential cache on the requests it answered; between requests its
   * contents are that cache's, and it has served that cache's answers.
   */
  lemma {:induction false} SerialIsSequential(steps: seq<Step>)
    requires Exec(steps).Some? && Serial(steps) && FaultFree(steps)
    ensures var w := Exec(steps).value;
            && Follows(w, AfterAll(Requests(steps))) && w.served == AnswersTo(Requests(steps))
            && (w.tasks == map[] ==> w.entries == AfterAll(Requests(steps)))
  {
    if steps != [] {
      var before, s := steps[..|steps| - 1], steps[|steps| - 1];
      assert steps == before + [s];
      assert s in steps && forall x | x in before :: x in steps;
      SerialIsSequential(before);
      var w, c, qs := Exec(before).value, AfterAll(Requests(before)), Requests(before);
      StepFollows(w, c, s);
      if s.Respond? {
        var q := RequestOf(w.tasks[s.id]);
        TasksFit(before, s.id);
        assert UnderWay(w.entries, c, w.tasks[s.id]);
        assert Requests(steps) == qs + [q];
        assert (qs + [q])[..|qs|] == qs;
      } else {
        assert Requests(steps) == qs;
      }
    }
  }

  /** Packages are the only requests the worker answers, so agreement follows. */
  lemma {:induction false} RequestsArePackages(steps: seq<Step>)
    requires Exec(steps).Some?
    ensures forall q | q in Requests(steps) :: IsPackageUrl(q.url)
  {
    if steps != [] {
      var before, s := steps[..|steps| - 1], steps[|steps| - 1];
      RequestsArePackages(before);
      RunKeepsInv(before);
      if s.Respond? {
        TasksFit(before, s.id);
      }
    }
  }

  lemma SerialAgrees(steps: seq<Step>)
    requires Exec(steps).Some? && Serial(steps) && FaultFree(steps) && Exec(steps).value.tasks == map[]
    ensures Agrees(Exec(steps).value.entries, UsesOf(Requests(steps)))
  {
    SerialIsSequential(steps);
    RequestsArePackages(steps);
    SequentialAgreement(Requests(steps));
  }
}
