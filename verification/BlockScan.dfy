/** scripts/admin/resolve-admin-markets.js: a chunked scan of the chain's events with a finer second try. */
module BlockScan {

  const CHUNK: nat := 10000
  const SMALL: nat := 1000

  datatype Event = Event(block: nat, id: nat)

  /** The events of the contract, and which ranges the endpoint refuses on the first and on the second try. */
  datatype Chain = Chain(log: seq<Event>, refuses: (nat, nat) -> bool, refusesAgain: (nat, nat) -> bool)

  function Min(a: int, b: int): int {
    if a <= b then a else b
  }

  /** queryFilter: the events of a range, both ends included. */
  function Query(log: seq<Event>, from: nat, till: nat): seq<Event> {
    if log == [] then []
    else
      var e := log[|log| - 1];
      Query(log[..|log| - 1], from, till) + if from <= e.block <= till then [e] else []
  }

  lemma {:induction false} QueryExactly(log: seq<Event>, from: nat, till: nat, e: Event)
    ensures e in Query(log, from, till) <==> e in log && from <= e.block <= till
  {
    if log != [] {
      QueryExactly(log[..|log| - 1], from, till, e);
      assert log == log[..|log| - 1] + [log[|log| - 1]];
    }
  }

  /** Whether the range of this size that holds block `b` is refused, when the scan goes up to `current`. */
  predicate Refused(refuses: (nat, nat) -> bool, size: nat, b: nat, current: nat)
    requires size > 0 && b <= current
  {
    var from := b / size * size;
    refuses(from, Min(from + size - 1, current))
  }

  /** A block is missed when its large chunk is refused and its small chunk is refused again. */
  predicate Missed(c: Chain, b: nat, current: nat)
    requires b <= current
  {
    Refused(c.refuses, 10000, b, current) && Refused(c.refusesAgain, 1000, b, current)
  }

  /** An identifier that a scan of the blocks below `bound` finds. */
  ghost predicate Found(c: Chain, id: nat, bound: nat, current: nat) {
    exists e | e in c.log :: e.id == id && e.block < bound && e.block <= current && !Missed(c, e.block, current)
  }

  ghost predicate Exactly(ids: set<nat>, c: Chain, bound: nat, current: nat) {
    forall id :: id in ids <==> Found(c, id, bound, current)
  }

  /** What a chunk adds: every block of it is missed, or none is. */
  lemma ChunkAdds(ids: set<nat>, ids': set<nat>, c: Chain, from: nat, till: nat, current: nat)
    requires Exactly(ids, c, from, current) && from <= till <= current
    requires forall b: nat | from <= b <= till :: !Missed(c, b, current)
    requires forall id :: id in ids' <==> id in ids || exists e | e in Query(c.log, from, till) :: e.id == id
    ensures Exactly(ids', c, till + 1, current)
  {
    forall id
      ensures id in ids' <==> Found(c, id, till + 1, current)
    {
      forall e | e in c.log || e in Query(c.log, from, till)
        ensures e in Query(c.log, from, till) <==> e in c.log && from <= e.block <= till
      {
        QueryExactly(c.log, from, till, e);
      }
      if Found(c, id, till + 1, current) {
        var e :| e in c.log && e.id == id && e.block < till + 1 && !Missed(c, e.block, current);
        if e.block >= from {
          assert e in Query(c.log, from, till);
        }
      }
    }
  }

  lemma ChunkSkipped(ids: set<nat>, c: Chain, from: nat, till: nat, current: nat)
    requires Exactly(ids, c, from, current) && from <= till <= current
    requires forall b: nat | from <= b <= till :: Missed(c, b, current)
    ensures Exactly(ids, c, till + 1, current)
  {
    forall id
      ensures Found(c, id, from, current) <==> Found(c, id, till + 1, current)
    {
    }
  }

  method AddAll(ids: set<nat>, events: seq<Event>) returns (r: set<nat>)
    ensures forall id :: id in r <==> id in ids || exists e | e in events :: e.id == id
  {
    r := ids;
    for i := 0 to |events|
      invariant forall id :: id in r <==> id in ids || exists e | e in events[..i] :: e.id == id
    {
      assert events[..i + 1] == events[..i] + [events[i]];
      r := r + {events[i].id};
    }
    assert events[..|events|] == events;
  }

  /** The inner loop over one refused chunk. */
  method ScanSmall(c: Chain, start: set<nat>, ghost k: nat, from: nat, till: nat, current: nat) returns (ids: set<nat>)
    requires from == k * CHUNK && till == Min(from + CHUNK - 1, current) && from <= current
    requires c.refuses(from, till) && Exactly(start, c, from, current)
    ensures Exactly(ids, c, till + 1, current)
  {
    ids := start;
    var sf := from;
    ghost var m := 10 * k;
    while sf <= till
      invariant sf == m * SMALL && from <= sf
      invariant Exactly(ids, c, if sf <= till then sf else till + 1, current)
      decreases till + 1 - sf
    {
      var st := Min(sf + SMALL - 1, till);
      forall b: nat | sf <= b <= st
        ensures Missed(c, b, current) <==> c.refusesAgain(sf, st)
      {
        assert b / CHUNK == k && b / SMALL == m;
      }
      if !c.refusesAgain(sf, st) {
        var before := ids;
        ids := AddAll(ids, Query(c.log, sf, st));
        ChunkAdds(before, ids, c, sf, st, current);
      } else {
        ChunkSkipped(ids, c, sf, st, current);
      }
      sf := sf + SMALL;
      m := m + 1;
    }
  }

  /**
   * Step 1 of the script. The result holds exactly the identifiers with an event outside the missed
   * blocks; when the endpoint refuses nothing twice, that is the whole range [0, current].
   */
  method Discover(c: Chain, current: nat) returns (ids: set<nat>)
    ensures forall id :: id in ids <==>
              exists e | e in c.log :: e.id == id && e.block <= current && !Missed(c, e.block, current)
  {
    ids := {};
    var from: nat := 0;
    ghost var k: nat := 0;
    while from <= current
      invariant from == k * CHUNK
      invariant Exactly(ids, c, if from <= current then from else current + 1, current)
      decreases current + 1 - from
    {
      var till := Min(from + CHUNK - 1, current);
      if !c.refuses(from, till) {
        forall b: nat | from <= b <= till
          ensures !Missed(c, b, current)
        {
          assert b / CHUNK == k;
        }
        var before := ids;
        ids := AddAll(ids, Query(c.log, from, till));
        ChunkAdds(before, ids, c, from, till, current);
      } else {
        ids := ScanSmall(c, ids, k, from, till, current);
      }
      from := from + CHUNK;
      k := k + 1;
    }
    forall id
      ensures id in ids <==> exists e | e in c.log :: e.id == id && e.block <= current && !Missed(c, e.block, current)
    {
      assert id in ids <==> Found(c, id, current + 1, current);
    }
  }
}
