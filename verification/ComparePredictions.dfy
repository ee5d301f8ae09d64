/** scripts/deploy/predict-addresses.js: predicted addresses against what the deployment records hold. */
module ComparePredictions {
  import opened ConstructorArgs
  import opened Hex
  import opened Literals
  import opened Predictions
  import opened Results

  // ---------------------------------------------------------------- records and predictions

  datatype Key = Key(mock: bool, bare: string)

  /** A recorded value is text or something else; `args` are the lists of arguments, in the form that is serialised. */
  datatype Record =
    | Unreadable
    | Skipped
    | Usable(contracts: map<string, Option<string>>, mocks: map<string, Option<string>>,
             args: map<string, Option<seq<Json>>>)

  /**
   * `values` are the arguments the call sites agree on, which give `address` if it is predictable.
   * `keys` are the record keys mapped to the contract; `encode` gives the CREATE2 address for recorded
   * arguments, None when there is no artifact or they do not fit its constructor.
   */
  datatype Prediction = Prediction(predictable: bool, address: string, values: seq<Value>,
                                   keys: Option<seq<Key>>, encode: seq<Json> -> Option<string>)

  datatype Status = Match | Mismatch | NotDeployed | Unknown | NotComparable

  datatype Verdict = Verdict(status: Status, recorded: string, predicted: string)

  predicate SameAddress(a: string, b: string) {
    Lower(a) == Lower(b)
  }

  function Lookup(r: Record, k: Key): Option<string>
    requires r.Usable?
  {
    var bucket := if k.mock then r.mocks else r.contracts;
    if k.bare in bucket then bucket[k.bare] else None
  }

  /** The mapped keys under which the record holds a non-empty text. */
  function Held(r: Record, keys: seq<Key>): seq<Key>
    requires r.Usable?
  {
    if keys == [] then []
    else
      var v := Lookup(r, keys[|keys| - 1]);
      Held(r, keys[..|keys| - 1]) + if v.Some? && v.value != "" then [keys[|keys| - 1]] else []
  }

  lemma {:induction false} HeldExactly(r: Record, keys: seq<Key>, k: Key)
    requires r.Usable?
    ensures k in Held(r, keys) <==> k in keys && Lookup(r, k).Some? && Lookup(r, k).value != ""
  {
    if keys != [] {
      HeldExactly(r, keys[..|keys| - 1], k);
      assert keys == keys[..|keys| - 1] + [keys[|keys| - 1]];
    }
  }

  function ArgsOf(r: Record, k: Key): Option<seq<Json>>
    requires r.Usable?
  {
    if k.bare in r.args then r.args[k.bare] else None
  }

  /** The addresses that may satisfy a match for this record. */
  ghost predicate IsCandidate(p: Prediction, r: Record, held: seq<Key>, a: string)
    requires r.Usable?
  {
    || (p.predictable && a == p.address)
    || exists k | k in held :: FromRecord(p, r, k, a)
  }

  /** The recorded arguments are, as JSON, those of the call sites. */
  predicate Repeats(p: Prediction, args: seq<Json>) {
    p.predictable && Forms(p.values) == args
  }

  /** Recorded arguments give an address, and they are not the static ones over again. */
  ghost predicate FromRecord(p: Prediction, r: Record, k: Key, a: string)
    requires r.Usable?
  {
    var args := ArgsOf(r, k);
    args.Some? && !Repeats(p, args.value) && p.encode(args.value) == Some(a)
  }

  /** A list with a BigInt among the static arguments throws, as soon as a held key has arguments to compare. */
  ghost predicate Throws(p: Prediction, r: Record, held: seq<Key>)
    requires r.Usable?
  {
    p.predictable && NestedBigInt(p.values) && exists k | k in held :: ArgsOf(r, k).Some?
  }

  method Candidates(p: Prediction, r: Record, held: seq<Key>) returns (cs: Option<seq<string>>)
    requires r.Usable?
    ensures cs.None? <==> Throws(p, r, held)
    ensures cs.Some? ==> forall a :: a in cs.value <==> IsCandidate(p, r, held, a)
    ensures cs.Some? && p.predictable ==> cs.value != [] && cs.value[0] == p.address
  {
    var out: seq<string> := if p.predictable then [p.address] else [];
    for i := 0 to |held|
      invariant p.predictable ==> out != [] && out[0] == p.address
      invariant !Throws(p, r, held[..i])
      invariant forall a :: a in out <==> IsCandidate(p, r, held[..i], a)
    {
      var k := held[i];
      assert held[..i + 1] == held[..i] + [k];
      var args := ArgsOf(r, k);
      if args.None? {
        continue;
      }
      if p.predictable {
        KeptExactly(p.values);
        var ours := UnreplacedAll(Kept(p.values));
        if ours.None? {
          assert k in held;
          return None;
        }
        if ours == args {
          continue;
        }
      }
      var a := p.encode(args.value);
      if a.Some? {
        assert FromRecord(p, r, k, a.value);
        out := out + [a.value];
      }
    }
    assert held[..|held|] == held;
    cs := Some(out);
  }

  // ---------------------------------------------------------------- one prediction, one record

  ghost predicate Hits(p: Prediction, r: Record, held: seq<Key>, k: Key, a: string)
    requires r.Usable?
  {
    IsCandidate(p, r, held, a) && Lookup(r, k).Some? && SameAddress(a, Lookup(r, k).value)
  }

  ghost predicate SomeHit(p: Prediction, r: Record, held: seq<Key>)
    requires r.Usable?
  {
    exists k, a | k in held :: Hits(p, r, held, k, a)
  }

  ghost predicate SomeCandidate(p: Prediction, r: Record, held: seq<Key>)
    requires r.Usable?
  {
    exists a :: IsCandidate(p, r, held, a)
  }

  /** What each outcome means; a comparison that throws has no outcome. */
  ghost predicate Means(p: Prediction, r: Record, v: Option<Verdict>) {
    match r
    case Unreadable => v.Some? && v.value.status == Unknown
    case Skipped => false
    case Usable(_, _, _) =>
      if p.keys.None? then v.Some? && v.value.status == NotComparable
      else
        var held := Held(r, p.keys.value);
        if held == [] then v.Some? && v.value.status == NotDeployed
        else if Throws(p, r, held) then v.None?
        else v.Some? && Compared(p, r, held, v.value)
  }

  ghost predicate Compared(p: Prediction, r: Record, held: seq<Key>, v: Verdict)
    requires r.Usable?
  {
    && (v.status == NotComparable <==> !SomeCandidate(p, r, held))
    && (v.status == Match <==> SomeHit(p, r, held))
    && (v.status == Mismatch <==> SomeCandidate(p, r, held) && !SomeHit(p, r, held))
    && (v.status == Match ==> IsCandidate(p, r, held, v.predicted) && SameAddress(v.predicted, v.recorded))
    && (v.status == Mismatch ==> IsCandidate(p, r, held, v.predicted))
    && (exists k | k in held :: Lookup(r, k) == Some(v.recorded))
  }

  method FirstHit(p: Prediction, r: Record, held: seq<Key>, cs: seq<string>) returns (hit: Option<(Key, string)>)
    requires r.Usable? && (forall a :: a in cs <==> IsCandidate(p, r, held, a))
    requires forall k | k in held :: Lookup(r, k).Some?
    ensures hit.None? <==> !SomeHit(p, r, held)
    ensures hit.Some? ==> hit.value.0 in held && Hits(p, r, held, hit.value.0, hit.value.1)
  {
    for i := 0 to |held|
      invariant forall k, a | k in held[..i] :: !Hits(p, r, held, k, a)
    {
      assert held[..i + 1] == held[..i] + [held[i]];
      for j := 0 to |cs|
        invariant forall m | 0 <= m < j :: !SameAddress(cs[m], Lookup(r, held[i]).value)
      {
        if SameAddress(cs[j], Lookup(r, held[i]).value) {
          assert cs[j] in cs && held[i] in held;
          assert Hits(p, r, held, held[i], cs[j]);
          return Some((held[i], cs[j]));
        }
      }
    }
    assert held[..|held|] == held;
    hit := None;
  }

  method CompareOne(p: Prediction, r: Record) returns (v: Option<Verdict>)
    requires !r.Skipped?
    ensures Means(p, r, v)
  {
    if r.Unreadable? {
      return Some(Verdict(Unknown, "", ""));
    }
    if p.keys.None? {
      return Some(Verdict(NotComparable, "", ""));
    }
    var held := Held(r, p.keys.value);
    if held == [] {
      return Some(Verdict(NotDeployed, "", ""));
    }
    forall k | k in held
      ensures Lookup(r, k).Some?
    {
      HeldExactly(r, p.keys.value, k);
    }
    var cs := Candidates(p, r, held);
    if cs.None? {
      return None;
    }
    var first := Lookup(r, held[0]).value;
    assert held[0] in held;
    if cs.value == [] {
      return Some(Verdict(NotComparable, first, ""));
    }
    assert cs.value[0] in cs.value;
    var hit := FirstHit(p, r, held, cs.value);
    if hit.Some? {
      v := Some(Verdict(Match, Lookup(r, hit.value.0).value, hit.value.1));
    } else {
      v := Some(Verdict(Mismatch, first, cs.value[0]));
    }
  }

  // ---------------------------------------------------------------- the same by the record's own maps

  /** The record holds this non-empty text under the key, in the map of its section. */
  ghost predicate HoldsText(r: Record, k: Key, text: string)
    requires r.Usable?
  {
    && text != ""
    && (k.mock ==> k.bare in r.mocks && r.mocks[k.bare] == Some(text))
    && (!k.mock ==> k.bare in r.contracts && r.contracts[k.bare] == Some(text))
  }

  ghost predicate HoldsArgs(r: Record, k: Key, args: seq<Json>)
    requires r.Usable?
  {
    k.bare in r.args && r.args[k.bare] == Some(args)
  }

  /** The static address, or that of arguments recorded with a held key that are not the static ones. */
  ghost predicate MayBe(p: Prediction, r: Record, keys: seq<Key>, a: string)
    requires r.Usable?
  {
    || (p.predictable && a == p.address)
    || exists k, text, args ::
         && k in keys && HoldsText(r, k, text) && HoldsArgs(r, k, args)
         && !(p.predictable && args == Forms(p.values)) && p.encode(args) == Some(a)
  }

  lemma HeldTexts(r: Record, keys: seq<Key>, k: Key)
    requires r.Usable?
    ensures k in Held(r, keys) <==> k in keys && exists text :: HoldsText(r, k, text)
    ensures forall text :: HoldsText(r, k, text) <==> text != "" && Lookup(r, k) == Some(text)
    ensures forall args :: HoldsArgs(r, k, args) <==> ArgsOf(r, k) == Some(args)
  {
    HeldExactly(r, keys, k);
    assert Lookup(r, k).Some? && Lookup(r, k).value != "" ==> HoldsText(r, k, Lookup(r, k).value);
  }

  lemma CandidateExactly(p: Prediction, r: Record, keys: seq<Key>, a: string)
    requires r.Usable?
    ensures IsCandidate(p, r, Held(r, keys), a) <==> MayBe(p, r, keys, a)
  {
    forall k
      ensures k in Held(r, keys) <==> k in keys && exists text :: HoldsText(r, k, text)
      ensures forall args :: HoldsArgs(r, k, args) <==> ArgsOf(r, k) == Some(args)
    {
      HeldTexts(r, keys, k);
    }
    if exists k | k in Held(r, keys) :: FromRecord(p, r, k, a) {
      var k :| k in Held(r, keys) && FromRecord(p, r, k, a);
      var text :| HoldsText(r, k, text);
      assert HoldsArgs(r, k, ArgsOf(r, k).value);
    }
    if exists k, text, args :: k in keys && HoldsText(r, k, text) && HoldsArgs(r, k, args)
         && !(p.predictable && args == Forms(p.values)) && p.encode(args) == Some(a)
    {
      var k, text, args :| k in keys && HoldsText(r, k, text) && HoldsArgs(r, k, args)
                           && !(p.predictable && args == Forms(p.values)) && p.encode(args) == Some(a);
      assert FromRecord(p, r, k, a);
    }
  }

  ghost predicate Deployed(p: Prediction, r: Record, keys: seq<Key>)
    requires r.Usable?
  {
    exists k, text :: k in keys && HoldsText(r, k, text)
  }

  ghost predicate AtPrediction(p: Prediction, r: Record, keys: seq<Key>)
    requires r.Usable?
  {
    exists k, text, a :: k in keys && HoldsText(r, k, text) && MayBe(p, r, keys, a) && Lower(a) == Lower(text)
  }

  lemma SomeExactly(p: Prediction, r: Record, keys: seq<Key>)
    requires r.Usable?
    ensures SomeCandidate(p, r, Held(r, keys)) <==> exists a :: MayBe(p, r, keys, a)
    ensures Held(r, keys) == [] <==> !Deployed(p, r, keys)
  {
    var held := Held(r, keys);
    forall k
      ensures k in held <==> k in keys && exists text :: HoldsText(r, k, text)
    {
      HeldTexts(r, keys, k);
    }
    forall a
      ensures IsCandidate(p, r, held, a) <==> MayBe(p, r, keys, a)
    {
      CandidateExactly(p, r, keys, a);
    }
    assert held != [] ==> held[0] in held;
  }

  lemma HitExactly(p: Prediction, r: Record, keys: seq<Key>)
    requires r.Usable?
    ensures SomeHit(p, r, Held(r, keys)) <==> AtPrediction(p, r, keys)
  {
    var held := Held(r, keys);
    if SomeHit(p, r, held) {
      var k, a :| k in held && Hits(p, r, held, k, a);
      HeldTexts(r, keys, k);
      CandidateExactly(p, r, keys, a);
      var text :| HoldsText(r, k, text);
      assert MayBe(p, r, keys, a) && Lower(a) == Lower(text);
    }
    if AtPrediction(p, r, keys) {
      var k, text, a :| k in keys && HoldsText(r, k, text) && MayBe(p, r, keys, a) && Lower(a) == Lower(text);
      HeldTexts(r, keys, k);
      CandidateExactly(p, r, keys, a);
      assert k in held && Hits(p, r, held, k, a);
    }
  }

  /** What a comparison with a usable record reports, by that record's maps of contracts, mocks and arguments. */
  lemma ReportsExactly(p: Prediction, r: Record, v: Verdict)
    requires r.Usable? && p.keys.Some? && Means(p, r, Some(v))
    ensures var keys := p.keys.value;
            && (v.status == NotDeployed <==> !Deployed(p, r, keys))
            && (v.status == Match <==> AtPrediction(p, r, keys))
            && (v.status == Mismatch <==>
                  Deployed(p, r, keys) && !AtPrediction(p, r, keys) && exists a :: MayBe(p, r, keys, a))
            && (v.status == NotComparable <==> Deployed(p, r, keys) && forall a :: !MayBe(p, r, keys, a))
  {
    SomeExactly(p, r, p.keys.value);
    HitExactly(p, r, p.keys.value);
  }

  /**
   * Leaving out recorded arguments that repeat the static ones costs nothing: if they encode to the
   * predicted address, every address the record's arguments give is still a candidate.
   */
  lemma RepeatsAreHarmless(p: Prediction, r: Record, held: seq<Key>, k: Key, a: string)
    requires r.Usable? && k in held && ArgsOf(r, k).Some? && p.encode(ArgsOf(r, k).value) == Some(a)
    requires Repeats(p, ArgsOf(r, k).value) ==> a == p.address
    ensures IsCandidate(p, r, held, a)
  {
    if !Repeats(p, ArgsOf(r, k).value) {
      assert FromRecord(p, r, k, a);
    }
  }

  /** Arguments `[[1n]]`, and a record that holds arguments: the comparison throws, whatever they are. */
  lemma NestedThrows(p: Prediction, r: Record, k: Key, v: Option<Verdict>)
    requires p.predictable && p.values == [List([BigInt(1)])] && p.keys.Some?
    requires r.Usable? && k in Held(r, p.keys.value) && ArgsOf(r, k).Some?
    ensures Means(p, r, v) <==> v == None
  {
    NestedExample();
    assert Throws(p, r, Held(r, p.keys.value));
  }

  // ---------------------------------------------------------------- all predictions, all records

  function Readables(rs: seq<Record>): (us: seq<Record>)
    ensures forall i | 0 <= i < |us| :: !us[i].Skipped?
  {
    if rs == [] then [] else Readables(rs[..|rs| - 1]) + if rs[|rs| - 1].Skipped? then [] else [rs[|rs| - 1]]
  }

  function CountRow(row: seq<Verdict>, s: Status): nat {
    if row == [] then 0 else CountRow(row[..|row| - 1], s) + if row[|row| - 1].status == s then 1 else 0
  }

  function CountRows(rows: seq<seq<Verdict>>, s: Status): nat {
    if rows == [] then 0 else CountRows(rows[..|rows| - 1], s) + CountRow(rows[|rows| - 1], s)
  }

  function SumRow(row: seq<Verdict>): nat {
    CountRow(row, Match) + CountRow(row, Mismatch) + CountRow(row, NotDeployed)
    + CountRow(row, Unknown) + CountRow(row, NotComparable)
  }

  lemma {:induction false} RowTotal(row: seq<Verdict>)
    ensures SumRow(row) == |row|
  {
    if row != [] {
      RowTotal(row[..|row| - 1]);
    }
  }

  function SumRows(rows: seq<seq<Verdict>>): nat {
    CountRows(rows, Match) + CountRows(rows, Mismatch) + CountRows(rows, NotDeployed)
    + CountRows(rows, Unknown) + CountRows(rows, NotComparable)
  }

  lemma {:induction false} RowsTotal(rows: seq<seq<Verdict>>, width: nat)
    requires forall i | 0 <= i < |rows| :: |rows[i]| == width
    ensures SumRows(rows) == |rows| * width
  {
    if rows != [] {
      var front, last := rows[..|rows| - 1], rows[|rows| - 1];
      RowsTotal(front, width);
      RowTotal(last);
      assert |rows| * width == |front| * width + width;
    }
  }

  datatype Comparison = Comparison(rows: seq<seq<Verdict>>, counts: map<Status, nat>)

  ghost predicate Tallied(counts: map<Status, nat>, rows: seq<seq<Verdict>>) {
    forall s :: s in counts && counts[s] == CountRows(rows, s)
  }

  ghost predicate SomeThrows(ps: seq<Prediction>, us: seq<Record>) {
    exists i, j | 0 <= i < |ps| && 0 <= j < |us| :: Means(ps[i], us[j], None)
  }

  /** Every prediction meets every record once, and the counts say how each meeting ended. */
  method CompareDeployed(ps: seq<Prediction>, rs: seq<Record>) returns (c: Option<Comparison>)
    ensures var us := Readables(rs);
            && (c.None? <==> SomeThrows(ps, us))
            && (c.Some? ==>
                  && |c.value.rows| == |ps|
                  && (forall i | 0 <= i < |ps| :: |c.value.rows[i]| == |us|)
                  && (forall i, j | 0 <= i < |ps| && 0 <= j < |us| :: Means(ps[i], us[j], Some(c.value.rows[i][j])))
                  && Tallied(c.value.counts, c.value.rows)
                  && SumRows(c.value.rows) == |ps| * |us|)
  {
    var us := Readables(rs);
    var rows: seq<seq<Verdict>> := [];
    for i := 0 to |ps|
      invariant |rows| == i && forall m | 0 <= m < i :: |rows[m]| == |us|
      invariant forall m, j | 0 <= m < i && 0 <= j < |us| :: Means(ps[m], us[j], Some(rows[m][j]))
    {
      var row: seq<Verdict> := [];
      for j := 0 to |us|
        invariant |row| == j && forall m | 0 <= m < j :: Means(ps[i], us[m], Some(row[m]))
      {
        var v := CompareOne(ps[i], us[j]);
        if v.None? {
          assert v == None;
          assert SomeThrows(ps, us);
          return None;
        }
        row := row + [v.value];
      }
      rows := rows + [row];
    }
    var counts := Tally(rows);
    RowsTotal(rows, |us|);
    c := Some(Comparison(rows, counts));
  }

  method Tally(rows: seq<seq<Verdict>>) returns (counts: map<Status, nat>)
    ensures Tallied(counts, rows)
  {
    counts := map[Match := 0, Mismatch := 0, NotDeployed := 0, Unknown := 0, NotComparable := 0];
    forall s: Status
      ensures s in counts && counts[s] == 0
    {
      assert s == Match || s == Mismatch || s == NotDeployed || s == Unknown || s == NotComparable;
    }
    for i := 0 to |rows|
      invariant Tallied(counts, rows[..i])
    {
      assert rows[..i + 1][..i] == rows[..i];
      var row := rows[i];
      for j := 0 to |row|
        invariant forall s :: s in counts && counts[s] == CountRows(rows[..i], s) + CountRow(row[..j], s)
      {
        assert row[..j + 1][..j] == row[..j];
        counts := counts[row[j].status := counts[row[j].status] + 1];
      }
      assert row[..|row|] == row;
    }
    assert rows[..|rows|] == rows;
  }
}
