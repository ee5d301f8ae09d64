/**
 * frontend/public/sw.js: what a request is answered with under every interleaving, said by the steps of
 * that request alone.
 */
module CacheAnswers {
  import opened CacheInterleaving
  import opened Lru
  import opened PackageCache
  import opened Results
  import opened Sequences

  /** What came of asking the network for a request: nothing asked, a response, or a rejection. */
  datatype Said = Silent | Gave(response: Response) | Failed

  predicate IsArrival(s: Step, id: nat) {
    s.Arrive? && s.id == id
  }

  predicate Speaks(s: Step, id: nat) {
    (s.Fetch? || s.FetchFault? || s.MatchFault?) && s.id == id
  }

  /** The URL of the request that last arrived under this id. */
  function Asked(steps: seq<Step>, id: nat): Option<Url> {
    if steps == [] then None
    else
      var s := steps[|steps| - 1];
      if IsArrival(s, id) then Some(s.url) else Asked(steps[..|steps| - 1], id)
  }

  /** What the steps since then say about its answer. */
  function SaidTo(steps: seq<Step>, id: nat): Said {
    if steps == [] then Silent
    else
      var s := steps[|steps| - 1];
      if IsArrival(s, id) then Silent
      else if Speaks(s, id) then if s.Fetch? then Gave(s.response) else Failed
      else SaidTo(steps[..|steps| - 1], id)
  }

  /** Step k concerns this request and nothing after it does. */
  ghost predicate LastWord(steps: seq<Step>, id: nat, k: nat) {
    && k < |steps| && (Speaks(steps[k], id) || IsArrival(steps[k], id))
    && forall j | k < j < |steps| :: !Speaks(steps[j], id) && !IsArrival(steps[j], id)
  }

  /** The same by positions: a response is one of a fetch step of this very request, and that of no later one. */
  lemma {:induction false} SaidExactly(steps: seq<Step>, id: nat, r: Response)
    ensures SaidTo(steps, id) == Gave(r) <==> exists k: nat :: LastWord(steps, id, k) && steps[k] == Fetch(id, r)
    ensures SaidTo(steps, id) == Failed <==>
            exists k: nat :: LastWord(steps, id, k) && (steps[k] == FetchFault(id) || steps[k] == MatchFault(id))
  {
    if steps != [] {
      var before, n := steps[..|steps| - 1], |steps| - 1;
      if Speaks(steps[n], id) || IsArrival(steps[n], id) {
        assert LastWord(steps, id, n);
        assert forall k: nat | LastWord(steps, id, k) :: k == n;
      } else {
        SaidExactly(before, id, r);
        assert forall k: nat :: LastWord(steps, id, k) <==> LastWord(before, id, k);
      }
    }
  }

  /** The answer a request must get: the network's as it came, a rejection, or, if nothing was asked, a copy. */
  predicate Fits(a: Answer, said: Said) {
    match said
    case Silent => a.Cached?
    case Gave(r) => a == Live(r)
    case Failed => a == Rejected
  }

  ghost predicate TaskFits(steps: seq<Step>, id: nat, t: Task) {
    && Asked(steps, id) == Some(t.url)
    && if t.pc.Matching? || t.pc.Fetching? then SaidTo(steps, id) == Silent else Fits(t.answer, SaidTo(steps, id))
  }

  lemma OtherSteps(before: seq<Step>, s: Step, id: nat)
    requires !IsArrival(s, id) && !Speaks(s, id)
    ensures Asked(before + [s], id) == Asked(before, id) && SaidTo(before + [s], id) == SaidTo(before, id)
  {
    assert (before + [s])[..|before|] == before;
  }

  lemma OwnStep(before: seq<Step>, s: Step, id: nat)
    ensures IsArrival(s, id) ==> Asked(before + [s], id) == Some(s.url) && SaidTo(before + [s], id) == Silent
    ensures Speaks(s, id) ==> Asked(before + [s], id) == Asked(before, id)
    ensures Speaks(s, id) ==> SaidTo(before + [s], id) == if s.Fetch? then Gave(s.response) else Failed
  {
    assert (before + [s])[..|before|] == before;
  }

  /** A step leaves the tasks of other requests as they are. */
  lemma OtherTasks(w: World, s: Step, id: nat)
    requires Enabled(w, s) && id in Apply(w, s).tasks && !IsArrival(s, id)
    ensures id in w.tasks && Apply(w, s).tasks[id].url == w.tasks[id].url
    ensures !Speaks(s, id) && s != Match(id) ==> Apply(w, s).tasks[id].answer == w.tasks[id].answer
    ensures !Speaks(s, id) && s != Match(id) ==>
            ((Apply(w, s).tasks[id].pc.Matching? || Apply(w, s).tasks[id].pc.Fetching?) <==>
             (w.tasks[id].pc.Matching? || w.tasks[id].pc.Fetching?))
  {
  }

  lemma StepFits(before: seq<Step>, w: World, s: Step, id: nat)
    requires Enabled(w, s) && id in Apply(w, s).tasks
    requires id in w.tasks ==> TaskFits(before, id, w.tasks[id])
    ensures TaskFits(before + [s], id, Apply(w, s).tasks[id])
  {
    OwnStep(before, s, id);
    if !IsArrival(s, id) {
      OtherTasks(w, s, id);
      if !Speaks(s, id) {
        OtherSteps(before, s, id);
      }
    }
  }

  lemma {:induction false} TasksFit(steps: seq<Step>, id: nat)
    requires Exec(steps).Some? && id in Exec(steps).value.tasks
    ensures TaskFits(steps, id, Exec(steps).value.tasks[id])
  {
    var before, s := steps[..|steps| - 1], steps[|steps| - 1];
    assert steps == before + [s];
    if id in Exec(before).value.tasks {
      TasksFit(before, id);
    }
    StepFits(before, Exec(before).value, s, id);
  }

  /** One request that was answered: its URL, and what the network said to it. */
  datatype Exchange = Exchange(url: Option<Url>, said: Said)

  /** The requests in the order of their answers, by the steps alone. */
  function Exchanges(steps: seq<Step>): seq<Exchange> {
    if steps == [] then []
    else
      var before, s := steps[..|steps| - 1], steps[|steps| - 1];
      Exchanges(before) + if s.Respond? then [Exchange(Asked(before, s.id), SaidTo(before, s.id))] else []
  }

  /**
   * Under any interleaving and whatever faults, every answer is the one its own request must get: what
   * the network gave it, unchanged, even if storing it failed; a rejection exactly if looking it up or
   * fetching it failed; and a copy from the cache exactly if the network was not asked.
   */
  lemma {:induction false} AnsweredExactly(steps: seq<Step>)
    requires Exec(steps).Some?
    ensures var served, told := Exec(steps).value.served, Exchanges(steps);
            && |served| == |told|
            && forall i | 0 <= i < |told| :: Some(served[i].url) == told[i].url && Fits(served[i].answer, told[i].said)
  {
    if steps != [] {
      var before, s := steps[..|steps| - 1], steps[|steps| - 1];
      AnsweredExactly(before);
      if s.Respond? {
        TasksFit(before, s.id);
      } else {
        assert Exec(steps).value.served == Exec(before).value.served;
      }
    }
  }

  // ---------------------------------------------------------------- the bookkeeping

  /**
   * The index a request goes by: what it found when it read, nothing if reading failed; None before it
   * reads, and again once a failed delete has ended its bookkeeping.
   */
  function IndexRead(steps: seq<Step>, id: nat): Option<seq<Url>> {
    if steps == [] then None
    else
      var before, s := steps[..|steps| - 1], steps[|steps| - 1];
      if IsArrival(s, id) || (s.DeleteFault? && s.id == id) then None
      else if s == ReadFault(id) then Some([])
      else if s == Read(id) && Exec(before).Some? then Some(ReadIndex(Exec(before).value.entries))
      else IndexRead(before, id)
  }

  ghost predicate GoesBy(t: Task, index: Option<seq<Url>>) {
    t.pc.Evicting? ==>
      && index.Some?
      && t.pc.index == Touch(index.value, t.url, MAX_ENTRIES).index
      && t.pc.pending <= Elements(Touch(index.value, t.url, MAX_ENTRIES).evict)
  }

  lemma StepGoesBy(before: seq<Step>, w: World, s: Step, id: nat)
    requires Exec(before) == Some(w) && Enabled(w, s) && id in Apply(w, s).tasks
    requires id in w.tasks ==> GoesBy(w.tasks[id], IndexRead(before, id))
    ensures GoesBy(Apply(w, s).tasks[id], IndexRead(before + [s], id))
  {
    assert (before + [s])[..|before|] == before;
  }

  /** An index is written as the reading of the request that writes it, with its own URL moved to the head. */
  lemma {:induction false} WritesWhatItRead(steps: seq<Step>, id: nat)
    requires Exec(steps).Some? && id in Exec(steps).value.tasks
    ensures GoesBy(Exec(steps).value.tasks[id], IndexRead(steps, id))
  {
    var before, s := steps[..|steps| - 1], steps[|steps| - 1];
    assert steps == before + [s];
    if id in Exec(before).value.tasks {
      WritesWhatItRead(before, id);
    }
    StepGoesBy(before, Exec(before).value, s, id);
  }
}
