/** scripts/codegen/emit-abis.js: one canonical ABI for a contract made of several facets. */
module AbiMerge {

  /** A parameter; the components of a tuple are not part of its `type` text. */
  datatype Input = Elementary(text: string) | Tuple(suffix: string, components: seq<Input>)

  /** An ABI entry. `rest` is everything that identifies neither the entry nor its selector. */
  datatype Entry = Entry(kind: string, name: string, inputs: seq<Input>, rest: string)

  type Abi = seq<Entry>

  function TypeText(i: Input): string {
    if i.Elementary? then i.text else "tuple" + i.suffix
  }

  function Join(inputs: seq<Input>): string {
    if inputs == [] then ""
    else if |inputs| == 1 then TypeText(inputs[0])
    else Join(inputs[..|inputs| - 1]) + "," + TypeText(inputs[|inputs| - 1])
  }

  /** sigOf. */
  function Sig(e: Entry): string {
    e.kind + ":" + e.name + "(" + Join(e.inputs) + ")"
  }

  /** What a selector encodes: kind, name and the whole input types. */
  function Selector(e: Entry): (string, string, seq<Input>) {
    (e.kind, e.name, e.inputs)
  }

  // ---------------------------------------------------------------- what a signature text identifies

  /** Texts as a compiler writes them: no separator inside a kind, a name or a type, and no empty type. */
  predicate TypeOk(i: Input) {
    match i
    case Elementary(text) => text != "" && ',' !in text
    case Tuple(suffix, _) => ',' !in suffix
  }

  ghost predicate EntryOk(e: Entry) {
    ':' !in e.kind && '(' !in e.name && TypesOk(e.inputs)
  }

  /** The same type, as far as a type text tells: of a tuple only its array suffix. */
  predicate SameType(i: Input, j: Input) {
    match (i, j)
    case (Elementary(s), Elementary(t)) => s == t
    case (Tuple(s, _), Tuple(t, _)) => s == t
    case (Elementary(s), Tuple(t, _)) => s == "tuple" + t
    case (Tuple(s, _), Elementary(t)) => t == "tuple" + s
  }

  predicate SameTypes(a: seq<Input>, b: seq<Input>) {
    |a| == |b| && forall i | 0 <= i < |a| :: SameType(a[i], b[i])
  }

  lemma FirstAt(a: string, x: string, c: char)
    requires c !in a
    ensures var s := a + [c] + x; s[|a|] == c && s[..|a|] == a && s[|a| + 1..] == x
    ensures forall i | 0 <= i < |a| :: (a + [c] + x)[i] != c
  {
  }

  /** Two texts in front of the first separator are equal if the whole texts are. */
  lemma CutFront(a: string, x: string, b: string, y: string, c: char)
    requires c !in a && c !in b && a + [c] + x == b + [c] + y
    ensures a == b && x == y
  {
    FirstAt(a, x, c);
    FirstAt(b, y, c);
    assert |a| == |b|;
  }

  lemma LastAt(x: string, a: string, c: char)
    requires c !in a
    ensures var s := x + [c] + a; s[|x|] == c && s[..|x|] == x && s[|x| + 1..] == a
    ensures forall i | |x| < i < |x + [c] + a| :: (x + [c] + a)[i] != c
  {
    assert forall i | |x| < i < |x + [c] + a| :: (x + [c] + a)[i] == a[i - |x| - 1];
  }

  lemma CutBack(x: string, a: string, y: string, b: string, c: char)
    requires c !in a && c !in b && x + [c] + a == y + [c] + b
    ensures a == b && x == y
  {
    LastAt(x, a, c);
    LastAt(y, b, c);
    assert |x| == |y|;
  }

  lemma TypeTextExactly(i: Input, j: Input)
    ensures TypeText(i) == TypeText(j) <==> SameType(i, j)
    ensures TypeOk(i) ==> TypeText(i) != "" && ',' !in TypeText(i)
  {
    if i.Tuple? && j.Tuple? && TypeText(i) == TypeText(j) {
      assert TypeText(i)[5..] == i.suffix && TypeText(j)[5..] == j.suffix;
    }
  }

  lemma JoinSnoc(a: seq<Input>)
    requires |a| > 1
    ensures Join(a) == Join(a[..|a| - 1]) + [','] + TypeText(a[|a| - 1])
  {
  }

  ghost predicate TypesOk(a: seq<Input>) {
    forall i | 0 <= i < |a| :: TypeOk(a[i])
  }

  lemma SameTypesSnoc(a: seq<Input>, b: seq<Input>)
    requires a != [] && b != []
    ensures SameTypes(a, b) <==> SameTypes(a[..|a| - 1], b[..|b| - 1]) && SameType(a[|a| - 1], b[|b| - 1])
  {
  }

  lemma {:induction false} JoinSame(a: seq<Input>, b: seq<Input>)
    requires TypesOk(a) && TypesOk(b)
    ensures Join(a) == Join(b) <==> SameTypes(a, b)
  {
    if a == [] || b == [] || |a| == 1 || |b| == 1 {
      JoinShort(a, b);
    } else {
      var front, front', last, last' := a[..|a| - 1], b[..|b| - 1], a[|a| - 1], b[|b| - 1];
      JoinSnoc(a);
      JoinSnoc(b);
      JoinSame(front, front');
      SameTypesSnoc(a, b);
      TypeTextExactly(last, last');
      TypeTextExactly(last', last);
      if Join(a) == Join(b) {
        CutBack(Join(front), TypeText(last), Join(front'), TypeText(last'), ',');
      }
    }
  }

  /** A comma tells a longer list, and any text a list of one from the empty one. */
  lemma JoinHas(a: seq<Input>)
    requires TypesOk(a)
    ensures |a| > 1 <==> ',' in Join(a)
    ensures a == [] <==> Join(a) == ""
  {
    if |a| > 1 {
      JoinSnoc(a);
      assert Join(a)[|Join(a[..|a| - 1])|] == ',';
    } else if |a| == 1 {
      TypeTextExactly(a[0], a[0]);
    }
  }

  lemma JoinShort(a: seq<Input>, b: seq<Input>)
    requires TypesOk(a) && TypesOk(b) && (|a| <= 1 || |b| <= 1)
    ensures Join(a) == Join(b) <==> SameTypes(a, b)
  {
    JoinHas(a);
    JoinHas(b);
    if |a| == 1 && |b| == 1 {
      TypeTextExactly(a[0], b[0]);
    }
  }

  lemma SigCut(a: Entry, b: Entry)
    requires EntryOk(a) && EntryOk(b) && Sig(a) == Sig(b)
    ensures a.kind == b.kind && a.name == b.name && Join(a.inputs) == Join(b.inputs)
  {
    var u, v := Join(a.inputs) + ")", Join(b.inputs) + ")";
    SigParts(a, u);
    SigParts(b, v);
    CutFront(a.kind, a.name + ['('] + u, b.kind, b.name + ['('] + v, ':');
    CutFront(a.name, u, b.name, v, '(');
    assert u[..|u| - 1] == Join(a.inputs) && v[..|v| - 1] == Join(b.inputs);
  }

  lemma SigParts(e: Entry, u: string)
    requires u == Join(e.inputs) + ")"
    ensures Sig(e) == e.kind + [':'] + (e.name + ['('] + u)
  {
  }

  /** A signature text identifies the kind, the name and the input types, tuples up to what they hold. */
  lemma SigExactly(a: Entry, b: Entry)
    requires EntryOk(a) && EntryOk(b)
    ensures Sig(a) == Sig(b) <==> a.kind == b.kind && a.name == b.name && SameTypes(a.inputs, b.inputs)
  {
    JoinSame(a.inputs, b.inputs);
    if Sig(a) == Sig(b) {
      SigCut(a, b);
    }
  }

  // ---------------------------------------------------------------- merging

  predicate HasSig(s: Abi, sig: string) {
    exists i | 0 <= i < |s| :: Sig(s[i]) == sig
  }

  /** First occurrence wins. */
  function Add(out: Abi, e: Entry): Abi {
    if HasSig(out, Sig(e)) then out else out + [e]
  }

  function AddAll(out: Abi, facet: Abi): Abi {
    if facet == [] then out else Add(AddAll(out, facet[..|facet| - 1]), facet[|facet| - 1])
  }

  function Merge(abis: seq<Abi>): Abi {
    if abis == [] then [] else AddAll(Merge(abis[..|abis| - 1]), abis[|abis| - 1])
  }

  method MergeAbis(abis: seq<Abi>) returns (out: Abi)
    ensures out == Merge(abis)
  {
    var seen: set<string> := {};
    out := [];
    for i := 0 to |abis|
      invariant out == Merge(abis[..i])
      invariant forall s :: s in seen <==> HasSig(out, s)
    {
      assert abis[..i + 1][..i] == abis[..i];
      out, seen := MergeFacet(out, seen, abis[i]);
    }
    assert abis[..|abis|] == abis;
  }

  method MergeFacet(start: Abi, known: set<string>, facet: Abi) returns (out: Abi, seen: set<string>)
    requires forall s :: s in known <==> HasSig(start, s)
    ensures out == AddAll(start, facet)
    ensures forall s :: s in seen <==> HasSig(out, s)
  {
    out, seen := start, known;
    for j := 0 to |facet|
      invariant out == AddAll(start, facet[..j])
      invariant forall s :: s in seen <==> HasSig(out, s)
    {
      assert facet[..j + 1][..j] == facet[..j];
      var sig := Sig(facet[j]);
      if sig in seen {
        continue;
      }
      SnocSigs(out, facet[j]);
      seen := seen + {sig};
      out := out + [facet[j]];
    }
    assert facet[..|facet|] == facet;
  }

  lemma SnocSigs(s: Abi, e: Entry)
    ensures forall sig :: HasSig(s + [e], sig) <==> HasSig(s, sig) || sig == Sig(e)
  {
    forall sig
      ensures HasSig(s + [e], sig) <==> HasSig(s, sig) || sig == Sig(e)
    {
      assert (s + [e])[|s|] == e;
      assert forall i | 0 <= i < |s| :: (s + [e])[i] == s[i];
    }
  }

  ghost predicate OneEach(s: Abi) {
    forall i, j | 0 <= i < j < |s| :: Sig(s[i]) != Sig(s[j])
  }

  lemma {:induction false} AddAllSigs(out: Abi, facet: Abi, sig: string)
    ensures HasSig(AddAll(out, facet), sig) <==> HasSig(out, sig) || HasSig(facet, sig)
  {
    if facet != [] {
      var front, last := facet[..|facet| - 1], facet[|facet| - 1];
      AddAllSigs(out, front, sig);
      SnocSigs(front, last);
      SnocSigs(AddAll(out, front), last);
      assert facet == front + [last];
    }
  }

  lemma {:induction false} AddAllOneEach(out: Abi, facet: Abi)
    requires OneEach(out)
    ensures OneEach(AddAll(out, facet))
  {
    if facet != [] {
      AddAllOneEach(out, facet[..|facet| - 1]);
    }
  }

  /** No signature occurs twice in a merged ABI, whatever the facets hold. */
  lemma {:induction false} MergeOneEach(abis: seq<Abi>)
    ensures OneEach(Merge(abis))
  {
    if abis != [] {
      MergeOneEach(abis[..|abis| - 1]);
      AddAllOneEach(Merge(abis[..|abis| - 1]), abis[|abis| - 1]);
    }
  }

  /** Exactly the signatures of the facets are covered. */
  lemma {:induction false} MergeCovers(abis: seq<Abi>, sig: string)
    ensures HasSig(Merge(abis), sig) <==> SomeHasSig(abis, sig)
  {
    if abis != [] {
      var front, last := abis[..|abis| - 1], abis[|abis| - 1];
      MergeCovers(front, sig);
      AddAllSigs(Merge(front), last, sig);
      assert forall i | 0 <= i < |front| :: front[i] == abis[i];
      if HasSig(last, sig) {
        assert HasSig(abis[|abis| - 1], sig);
      }
    }
  }

  /** A signature of the facet that is not already there stands for one entry. */
  ghost predicate NoClash(out: Abi, facet: Abi) {
    forall x, y | x in facet && y in facet && Sig(x) == Sig(y) && !HasSig(out, Sig(x)) :: x == y
  }

  lemma {:induction false} AddAllMember(out: Abi, facet: Abi, e: Entry)
    requires NoClash(out, facet)
    ensures e in AddAll(out, facet) <==> e in out || (e in facet && !HasSig(out, Sig(e)))
  {
    if facet != [] {
      var front, last := facet[..|facet| - 1], facet[|facet| - 1];
      assert facet == front + [last];
      AddAllMember(out, front, e);
      AddAllSigs(out, front, Sig(last));
      if HasSig(front, Sig(last)) {
        var i :| 0 <= i < |front| && Sig(front[i]) == Sig(last);
        assert front[i] in facet && last in facet;
      }
    }
  }

  /** Whether an entry is in facet `i` and none of the facets before has its signature. */
  ghost predicate FirstIn(abis: seq<Abi>, e: Entry, i: nat)
    requires i < |abis|
  {
    e in abis[i] && forall j | 0 <= j < i :: !HasSig(abis[j], Sig(e))
  }

  /** Whether some facet has the entry and none before it has its signature. */
  ghost predicate Earliest(abis: seq<Abi>, e: Entry) {
    exists i | 0 <= i < |abis| :: FirstIn(abis, e, i)
  }

  ghost predicate SomeHasSig(abis: seq<Abi>, sig: string) {
    exists i | 0 <= i < |abis| :: HasSig(abis[i], sig)
  }

  lemma EarliestSnoc(abis: seq<Abi>, facet: Abi, e: Entry)
    ensures Earliest(abis + [facet], e) <==> Earliest(abis, e) || (e in facet && !SomeHasSig(abis, Sig(e)))
  {
    var more, n := abis + [facet], |abis|;
    assert more[n] == facet && forall i | 0 <= i < n :: more[i] == abis[i];
    assert forall i | 0 <= i < n :: FirstIn(more, e, i) <==> FirstIn(abis, e, i);
    assert FirstIn(more, e, n) <==> e in facet && !SomeHasSig(abis, Sig(e));
  }

  /** No facet holds two different entries of one signature that no earlier facet has. */
  ghost predicate NoOpenClash(abis: seq<Abi>) {
    forall i | 0 <= i < |abis| :: NoClash(Merge(abis[..i]), abis[i])
  }

  /** The same, said of the facets themselves. */
  lemma NoOpenClashMeans(abis: seq<Abi>)
    ensures NoOpenClash(abis) <==>
            forall i, x, y | 0 <= i < |abis| && x in abis[i] && y in abis[i] && Sig(x) == Sig(y)
                             && !SomeHasSig(abis[..i], Sig(x)) :: x == y
  {
    forall i, sig | 0 <= i < |abis|
      ensures HasSig(Merge(abis[..i]), sig) <==> SomeHasSig(abis[..i], sig)
    {
      MergeCovers(abis[..i], sig);
    }
  }

  /** Every entry of the result comes from the earliest facet with its signature, and all such entries are kept. */
  lemma {:induction false} MergeMember(abis: seq<Abi>, e: Entry)
    requires NoOpenClash(abis)
    ensures e in Merge(abis) <==> Earliest(abis, e)
  {
    if abis != [] {
      var front, last := abis[..|abis| - 1], abis[|abis| - 1];
      assert NoOpenClash(front) by {
        assert forall i | 0 <= i < |front| :: front[i] == abis[i] && front[..i] == abis[..i];
      }
      MergeMember(front, e);
      AddAllMember(Merge(front), last, e);
      MergeCovers(front, Sig(e));
      EarliestSnoc(front, last, e);
      assert abis == front + [last];
    }
  }

  // ---------------------------------------------------------------- sorting

  function Rank(kind: string): nat {
    match kind
    case "constructor" => 0
    case "receive" => 1
    case "fallback" => 2
    case "function" => 3
    case "event" => 4
    case "error" => 5
    case _ => 9
  }

  const KINDS: seq<string> := ["constructor", "receive", "fallback", "function", "event", "error"]

  /** Kinds come in this order, and any other kind behind them. */
  lemma RankExactly(kind: string)
    ensures forall i | 0 <= i < |KINDS| && KINDS[i] == kind :: Rank(kind) == i
    ensures kind !in KINDS ==> Rank(kind) >= |KINDS|
    ensures forall other | kind !in KINDS && other !in KINDS :: Rank(kind) == Rank(other)
  {
  }

  /** The string comparison as a total order. */
  ghost predicate IsTotalOrder(leq: (string, string) -> bool) {
    && (forall x, y :: leq(x, y) || leq(y, x))
    && (forall x, y :: leq(x, y) && leq(y, x) ==> x == y)
    && (forall x, y, z :: leq(x, y) && leq(y, z) ==> leq(x, z))
  }

  predicate Before(leq: (string, string) -> bool, a: Entry, b: Entry) {
    Rank(a.kind) < Rank(b.kind) || (Rank(a.kind) == Rank(b.kind) && leq(Sig(a), Sig(b)))
  }

  function Insert(leq: (string, string) -> bool, s: Abi, e: Entry): Abi {
    if s == [] || Before(leq, s[|s| - 1], e) then s + [e]
    else Insert(leq, s[..|s| - 1], e) + [s[|s| - 1]]
  }

  /** sortAbi: a stable sort by rank, then by signature. */
  function SortAbi(leq: (string, string) -> bool, s: Abi): Abi {
    if s == [] then [] else Insert(leq, SortAbi(leq, s[..|s| - 1]), s[|s| - 1])
  }

  ghost predicate Sorted(leq: (string, string) -> bool, s: Abi) {
    forall i, j | 0 <= i < j < |s| :: Before(leq, s[i], s[j])
  }

  lemma SnocSorted(leq: (string, string) -> bool, s: Abi, e: Entry)
    requires Sorted(leq, s) && forall x | x in s :: Before(leq, x, e)
    ensures Sorted(leq, s + [e])
  {
    forall i | 0 <= i < |s|
      ensures Before(leq, s[i], e)
    {
      assert s[i] in s;
    }
  }

  lemma BeforeLast(leq: (string, string) -> bool, s: Abi, e: Entry)
    requires IsTotalOrder(leq) && Sorted(leq, s) && s != [] && Before(leq, s[|s| - 1], e)
    ensures forall x | x in s :: Before(leq, x, e)
  {
    forall x | x in s
      ensures Before(leq, x, e)
    {
      var i :| 0 <= i < |s| && s[i] == x;
      if i < |s| - 1 {
        assert Before(leq, s[i], s[|s| - 1]);
      }
    }
  }

  lemma {:induction false} InsertMember(leq: (string, string) -> bool, s: Abi, e: Entry, x: Entry)
    ensures x in Insert(leq, s, e) <==> x in s || x == e
  {
    if s != [] && !Before(leq, s[|s| - 1], e) {
      InsertMember(leq, s[..|s| - 1], e, x);
      assert s == s[..|s| - 1] + [s[|s| - 1]];
    }
  }

  lemma {:induction false} InsertSorts(leq: (string, string) -> bool, s: Abi, e: Entry)
    requires IsTotalOrder(leq) && Sorted(leq, s)
    ensures Sorted(leq, Insert(leq, s, e))
  {
    if s == [] {
    } else if Before(leq, s[|s| - 1], e) {
      BeforeLast(leq, s, e);
      SnocSorted(leq, s, e);
    } else {
      var front, last := s[..|s| - 1], s[|s| - 1];
      InsertSorts(leq, front, e);
      forall x | x in Insert(leq, front, e)
        ensures Before(leq, x, last)
      {
        InsertMember(leq, front, e, x);
        if x in front {
          var i :| 0 <= i < |front| && front[i] == x;
          assert Before(leq, s[i], s[|s| - 1]);
        }
      }
      SnocSorted(leq, Insert(leq, front, e), last);
    }
  }

  lemma {:induction false} SortMember(leq: (string, string) -> bool, s: Abi, x: Entry)
    ensures x in SortAbi(leq, s) <==> x in s
  {
    if s != [] {
      SortMember(leq, s[..|s| - 1], x);
      InsertMember(leq, SortAbi(leq, s[..|s| - 1]), s[|s| - 1], x);
      assert s == s[..|s| - 1] + [s[|s| - 1]];
    }
  }

  lemma {:induction false} SortSorts(leq: (string, string) -> bool, s: Abi)
    requires IsTotalOrder(leq)
    ensures Sorted(leq, SortAbi(leq, s))
  {
    if s != [] {
      SortSorts(leq, s[..|s| - 1]);
      InsertSorts(leq, SortAbi(leq, s[..|s| - 1]), s[|s| - 1]);
    }
  }

  lemma {:induction false} InsertSigs(leq: (string, string) -> bool, s: Abi, e: Entry, sig: string)
    ensures HasSig(Insert(leq, s, e), sig) <==> HasSig(s, sig) || sig == Sig(e)
  {
    if s == [] || Before(leq, s[|s| - 1], e) {
      SnocSigs(s, e);
    } else {
      var front, last := s[..|s| - 1], s[|s| - 1];
      InsertSigs(leq, front, e, sig);
      SnocSigs(Insert(leq, front, e), last);
      SnocSigs(front, last);
      assert s == front + [last];
    }
  }

  lemma {:induction false} InsertOneEach(leq: (string, string) -> bool, s: Abi, e: Entry)
    requires OneEach(s) && !HasSig(s, Sig(e))
    ensures OneEach(Insert(leq, s, e))
  {
    if s != [] && !Before(leq, s[|s| - 1], e) {
      var front, last := s[..|s| - 1], s[|s| - 1];
      assert s == front + [last];
      SnocSigs(front, last);
      assert !HasSig(front, Sig(last));
      InsertOneEach(leq, front, e);
      InsertSigs(leq, front, e, Sig(last));
    }
  }

  lemma {:induction false} SortSigs(leq: (string, string) -> bool, s: Abi, sig: string)
    ensures HasSig(SortAbi(leq, s), sig) <==> HasSig(s, sig)
  {
    if s != [] {
      var front, last := s[..|s| - 1], s[|s| - 1];
      SortSigs(leq, front, sig);
      InsertSigs(leq, SortAbi(leq, front), last, sig);
      SnocSigs(front, last);
      assert s == front + [last];
    }
  }

  lemma {:induction false} SortOneEach(leq: (string, string) -> bool, s: Abi)
    requires OneEach(s)
    ensures OneEach(SortAbi(leq, s))
  {
    if s != [] {
      var front, last := s[..|s| - 1], s[|s| - 1];
      SortOneEach(leq, front);
      SortSigs(leq, front, Sig(last));
      InsertOneEach(leq, SortAbi(leq, front), last);
    }
  }

  /** The output holds the entries it was given, by kind and, within a kind, by signature text. */
  lemma SortExactly(leq: (string, string) -> bool, s: Abi)
    requires IsTotalOrder(leq)
    ensures forall x :: x in SortAbi(leq, s) <==> x in s
    ensures var t := SortAbi(leq, s);
            forall i, j | 0 <= i < j < |t| ::
              Rank(t[i].kind) <= Rank(t[j].kind) && (Rank(t[i].kind) == Rank(t[j].kind) ==> leq(Sig(t[i]), Sig(t[j])))
  {
    SortSorts(leq, s);
    forall x
      ensures x in SortAbi(leq, s) <==> x in s
    {
      SortMember(leq, s, x);
    }
    var t := SortAbi(leq, s);
    assert forall i, j | 0 <= i < j < |t| :: Before(leq, t[i], t[j]);
  }

  // ---------------------------------------------------------------- the canonical form

  ghost predicate SameEntries(s: Abi, t: Abi) {
    forall x :: x in s <==> x in t
  }

  lemma LastTwin(leq: (string, string) -> bool, s: Abi, t: Abi)
    requires IsTotalOrder(leq) && Sorted(leq, s) && Sorted(leq, t) && OneEach(s)
    requires SameEntries(s, t) && s != [] && t != []
    ensures s[|s| - 1] == t[|t| - 1]
  {
    var x, y := s[|s| - 1], t[|t| - 1];
    UpToLast(leq, t, x);
    UpToLast(leq, s, y);
    if Before(leq, x, y) && Before(leq, y, x) {
      SameSig(s, x, y);
    }
  }

  lemma UpToLast(leq: (string, string) -> bool, s: Abi, x: Entry)
    requires Sorted(leq, s) && x in s
    ensures x == s[|s| - 1] || Before(leq, x, s[|s| - 1])
  {
    var i :| 0 <= i < |s| && s[i] == x;
    if i < |s| - 1 {
      assert Before(leq, s[i], s[|s| - 1]);
    }
  }

  lemma SameSig(s: Abi, x: Entry, y: Entry)
    requires OneEach(s) && x in s && y in s && Sig(x) == Sig(y)
    ensures x == y
  {
  }

  lemma WithoutLast(s: Abi, t: Abi, a: Abi, b: Abi, last: Entry)
    requires OneEach(s) && OneEach(t) && SameEntries(s, t) && s == a + [last] && t == b + [last]
    ensures OneEach(a) && OneEach(b) && SameEntries(a, b)
  {
    assert s[|a|] == last && t[|b|] == last;
    assert forall i | 0 <= i < |a| :: s[i] == a[i];
    assert forall i | 0 <= i < |b| :: t[i] == b[i];
    assert last !in a && last !in b;
    forall x
      ensures x in a <==> x in b
    {
      assert x in s <==> x in a || x == last;
      assert x in t <==> x in b || x == last;
    }
  }

  lemma FrontSorted(leq: (string, string) -> bool, s: Abi)
    requires Sorted(leq, s) && s != []
    ensures Sorted(leq, s[..|s| - 1])
  {
  }

  /** A sorted list with one entry for each signature is determined by its entries. */
  lemma {:induction false} SortedUnique(leq: (string, string) -> bool, s: Abi, t: Abi)
    requires IsTotalOrder(leq) && Sorted(leq, s) && Sorted(leq, t) && OneEach(s) && OneEach(t) && SameEntries(s, t)
    ensures s == t
  {
    assert t != [] ==> t[0] in s;
    assert s != [] ==> s[0] in t;
    if s != [] {
      var a, b, last := s[..|s| - 1], t[..|t| - 1], s[|s| - 1];
      LastTwin(leq, s, t);
      assert s == a + [last] && t == b + [last];
      WithoutLast(s, t, a, b, last);
      FrontSorted(leq, s);
      FrontSorted(leq, t);
      SortedUnique(leq, a, b);
    }
  }

  /** The same facets with their entries in another order, or repeated. */
  ghost predicate Reordered(abis: seq<Abi>, abis': seq<Abi>) {
    |abis| == |abis'| && forall i | 0 <= i < |abis| :: SameEntries(abis[i], abis'[i])
  }

  lemma ReorderedSigs(s: Abi, t: Abi, sig: string)
    requires SameEntries(s, t)
    ensures HasSig(s, sig) ==> HasSig(t, sig)
  {
    if HasSig(s, sig) {
      var i :| 0 <= i < |s| && Sig(s[i]) == sig;
      assert s[i] in t;
    }
  }

  lemma ReorderedEarliest(abis: seq<Abi>, abis': seq<Abi>, e: Entry)
    requires Reordered(abis, abis') && Earliest(abis, e)
    ensures Earliest(abis', e)
  {
    var i :| 0 <= i < |abis| && FirstIn(abis, e, i);
    forall j | 0 <= j < i
      ensures !HasSig(abis'[j], Sig(e))
    {
      ReorderedSigs(abis'[j], abis[j], Sig(e));
    }
    assert e in abis'[i];
    assert FirstIn(abis', e, i);
  }

  lemma ReorderedSome(abis: seq<Abi>, abis': seq<Abi>, i: nat, sig: string)
    requires Reordered(abis, abis') && i <= |abis| && SomeHasSig(abis[..i], sig)
    ensures SomeHasSig(abis'[..i], sig)
  {
    var j :| 0 <= j < i && HasSig(abis[..i][j], sig);
    ReorderedSigs(abis[j], abis'[j], sig);
    assert abis'[..i][j] == abis'[j];
  }

  lemma ReorderedNoClash(abis: seq<Abi>, abis': seq<Abi>)
    requires Reordered(abis, abis') && NoOpenClash(abis)
    ensures NoOpenClash(abis')
  {
    NoOpenClashMeans(abis);
    NoOpenClashMeans(abis');
    forall i, x, y | 0 <= i < |abis'| && x in abis'[i] && y in abis'[i] && Sig(x) == Sig(y)
                     && !SomeHasSig(abis'[..i], Sig(x))
      ensures x == y
    {
      assert SameEntries(abis[i], abis'[i]);
      if SomeHasSig(abis[..i], Sig(x)) {
        ReorderedSome(abis, abis', i, Sig(x));
      }
    }
  }

  /** The order in which the compiler lists a facet's entries does not reach the output. */
  lemma Canonical(leq: (string, string) -> bool, abis: seq<Abi>, abis': seq<Abi>)
    requires IsTotalOrder(leq) && Reordered(abis, abis') && NoOpenClash(abis)
    ensures SortAbi(leq, Merge(abis)) == SortAbi(leq, Merge(abis'))
  {
    var s, t := SortAbi(leq, Merge(abis)), SortAbi(leq, Merge(abis'));
    ReorderedNoClash(abis, abis');
    MergeOneEach(abis);
    MergeOneEach(abis');
    SortOneEach(leq, Merge(abis));
    SortOneEach(leq, Merge(abis'));
    SortSorts(leq, Merge(abis));
    SortSorts(leq, Merge(abis'));
    forall e
      ensures e in s <==> e in t
    {
      SortMember(leq, Merge(abis), e);
      SortMember(leq, Merge(abis'), e);
      MergeMember(abis, e);
      MergeMember(abis', e);
      if Earliest(abis, e) {
        ReorderedEarliest(abis, abis', e);
      }
      if Earliest(abis', e) {
        ReorderedEarliest(abis', abis, e);
      }
    }
    SortedUnique(leq, s, t);
  }

  // ---------------------------------------------------------------- when the order does reach the output

  /** The same facets, each with its entries in another order. */
  ghost predicate Permuted(abis: seq<Abi>, abis': seq<Abi>) {
    |abis| == |abis'| && forall i | 0 <= i < |abis| :: multiset(abis[i]) == multiset(abis'[i])
  }

  lemma PermutedIsReordered(abis: seq<Abi>, abis': seq<Abi>)
    requires Permuted(abis, abis')
    ensures Reordered(abis, abis')
  {
    forall i | 0 <= i < |abis|
      ensures SameEntries(abis[i], abis'[i])
    {
      forall x
        ensures x in abis[i] <==> x in abis'[i]
      {
        assert x in abis[i] <==> x in multiset(abis[i]);
        assert x in abis'[i] <==> x in multiset(abis'[i]);
      }
    }
  }

  /** The facet with its k-th entry moved to the front. */
  function Fronted(facet: Abi, k: nat): Abi
    requires k < |facet|
  {
    [facet[k]] + facet[..k] + facet[k + 1..]
  }

  lemma FrontedPermutes(abis: seq<Abi>, i: nat, k: nat)
    requires i < |abis| && k < |abis[i]|
    ensures Permuted(abis, abis[i := Fronted(abis[i], k)])
  {
    var f := abis[i];
    assert f == f[..k] + [f[k]] + f[k + 1..];
    assert multiset(f) == multiset(f[..k]) + multiset([f[k]]) + multiset(f[k + 1..]);
    assert multiset(Fronted(f, k)) == multiset([f[k]]) + multiset(f[..k]) + multiset(f[k + 1..]);
  }

  lemma {:induction false} AddAllKeeps(out: Abi, facet: Abi, e: Entry)
    requires e in out
    ensures e in AddAll(out, facet)
  {
    if facet != [] {
      AddAllKeeps(out, facet[..|facet| - 1], e);
    }
  }

  /** What a facet lists first is kept, if its signature is new. */
  lemma {:induction false} AddAllFirst(out: Abi, facet: Abi)
    requires facet != [] && !HasSig(out, Sig(facet[0]))
    ensures facet[0] in AddAll(out, facet)
  {
    if |facet| == 1 {
      assert facet[..0] == [];
      assert AddAll(out, facet)[|out|] == facet[0];
    } else {
      AddAllFirst(out, facet[..|facet| - 1]);
    }
  }

  lemma {:induction false} MergeKeeps(abis: seq<Abi>, i: nat, e: Entry)
    requires i < |abis| && e in Merge(abis[..i + 1])
    ensures e in Merge(abis)
  {
    if i + 1 == |abis| {
      assert abis[..i + 1] == abis;
    } else {
      assert abis[..|abis| - 1][..i + 1] == abis[..i + 1];
      MergeKeeps(abis[..|abis| - 1], i, e);
      AddAllKeeps(Merge(abis[..|abis| - 1]), abis[|abis| - 1], e);
    }
  }

  /** Moving an entry to the front of its facet puts it in the output, and nothing else with its signature. */
  lemma FrontedWins(leq: (string, string) -> bool, abis: seq<Abi>, i: nat, k: nat, other: Entry)
    requires i < |abis| && k < |abis[i]| && !HasSig(Merge(abis[..i]), Sig(abis[i][k]))
    requires Sig(other) == Sig(abis[i][k]) && other != abis[i][k]
    ensures var out := SortAbi(leq, Merge(abis[i := Fronted(abis[i], k)])); abis[i][k] in out && other !in out
  {
    var e, moved := abis[i][k], abis[i := Fronted(abis[i], k)];
    assert moved[..i + 1][..i] == abis[..i] && moved[..i + 1][i] == Fronted(abis[i], k);
    AddAllFirst(Merge(abis[..i]), Fronted(abis[i], k));
    MergeKeeps(moved, i, e);
    MergeOneEach(moved);
    SortMember(leq, Merge(moved), e);
    SortMember(leq, Merge(moved), other);
    if other in Merge(moved) {
      SameSig(Merge(moved), e, other);
    }
  }

  /** Two orders of the facets with different outputs. */
  ghost predicate OrderReaches(leq: (string, string) -> bool, abis: seq<Abi>, first: seq<Abi>, second: seq<Abi>)
    requires IsTotalOrder(leq)
  {
    Permuted(abis, first) && Permuted(abis, second) && SortAbi(leq, Merge(first)) != SortAbi(leq, Merge(second))
  }

  lemma ClashReaches(leq: (string, string) -> bool, abis: seq<Abi>, i: nat, k: nat, l: nat)
    requires IsTotalOrder(leq) && i < |abis| && k < |abis[i]| && l < |abis[i]| && abis[i][k] != abis[i][l]
    requires Sig(abis[i][k]) == Sig(abis[i][l]) && !HasSig(Merge(abis[..i]), Sig(abis[i][k]))
    ensures OrderReaches(leq, abis, abis[i := Fronted(abis[i], k)], abis[i := Fronted(abis[i], l)])
  {
    FrontedPermutes(abis, i, k);
    FrontedPermutes(abis, i, l);
    FrontedWins(leq, abis, i, k, abis[i][l]);
    FrontedWins(leq, abis, i, l, abis[i][k]);
  }

  lemma OpenClashReaches(leq: (string, string) -> bool, abis: seq<Abi>) returns (first: seq<Abi>, second: seq<Abi>)
    requires IsTotalOrder(leq) && !NoOpenClash(abis)
    ensures OrderReaches(leq, abis, first, second)
  {
    var i :| 0 <= i < |abis| && !NoClash(Merge(abis[..i]), abis[i]);
    var x, y :| x in abis[i] && y in abis[i] && Sig(x) == Sig(y) && !HasSig(Merge(abis[..i]), Sig(x)) && x != y;
    var k :| 0 <= k < |abis[i]| && abis[i][k] == x;
    var l :| 0 <= l < |abis[i]| && abis[i][l] == y;
    ClashReaches(leq, abis, i, k, l);
    first, second := abis[i := Fronted(abis[i], k)], abis[i := Fronted(abis[i], l)];
  }

  /**
   * The output is the same for every order of the entries inside the facets if and only if no facet
   * holds two different entries of one signature that no earlier facet has.
   */
  lemma CanonicalExactly(leq: (string, string) -> bool, abis: seq<Abi>)
    requires IsTotalOrder(leq)
    ensures NoOpenClash(abis) <==>
            forall abis' | Permuted(abis, abis') :: SortAbi(leq, Merge(abis')) == SortAbi(leq, Merge(abis))
  {
    if NoOpenClash(abis) {
      forall abis' | Permuted(abis, abis')
        ensures SortAbi(leq, Merge(abis')) == SortAbi(leq, Merge(abis))
      {
        PermutedIsReordered(abis, abis');
        Canonical(leq, abis, abis');
      }
    } else {
      var first, second := OpenClashReaches(leq, abis);
    }
  }

  // ---------------------------------------------------------------- selectors

  predicate HasSelector(s: Abi, e: Entry) {
    exists i | 0 <= i < |s| :: Selector(s[i]) == Selector(e)
  }

  /** Among all facets, equal signature texts mean equal selectors. */
  ghost predicate TextsTellSelectors(abis: seq<Abi>) {
    forall x, y | InSome(abis, x) && InSome(abis, y) && Sig(x) == Sig(y) :: Selector(x) == Selector(y)
  }

  ghost predicate InSome(abis: seq<Abi>, e: Entry) {
    exists i | 0 <= i < |abis| :: e in abis[i]
  }

  lemma {:induction false} AddAllFrom(out: Abi, facet: Abi, e: Entry)
    requires e in AddAll(out, facet)
    ensures e in out || e in facet
  {
    if facet != [] && e in AddAll(out, facet[..|facet| - 1]) {
      AddAllFrom(out, facet[..|facet| - 1], e);
    }
  }

  lemma {:induction false} MergeFrom(abis: seq<Abi>, e: Entry)
    requires e in Merge(abis)
    ensures InSome(abis, e)
  {
    AddAllFrom(Merge(abis[..|abis| - 1]), abis[|abis| - 1], e);
    if e in Merge(abis[..|abis| - 1]) {
      MergeFrom(abis[..|abis| - 1], e);
      var i :| 0 <= i < |abis| - 1 && e in abis[..|abis| - 1][i];
      assert e in abis[i];
    }
  }

  /**
   * The merged ABI can call everything any facet can exactly when signature texts tell selectors
   * apart. They do not for overloads that differ only inside a tuple: one of them is lost.
   */
  lemma SelectorsCovered(abis: seq<Abi>)
    ensures (forall e | InSome(abis, e) :: HasSelector(Merge(abis), e)) <==> TextsTellSelectors(abis)
  {
    var out := Merge(abis);
    MergeOneEach(abis);
    if TextsTellSelectors(abis) {
      forall e | InSome(abis, e)
        ensures HasSelector(out, e)
      {
        KeptTwin(abis, e);
      }
    } else {
      var x, y :| InSome(abis, x) && InSome(abis, y) && Sig(x) == Sig(y) && Selector(x) != Selector(y);
      if HasSelector(out, x) && HasSelector(out, y) {
        OneSelector(out, x, y);
      }
    }
  }

  lemma OneSelector(out: Abi, x: Entry, y: Entry)
    requires OneEach(out) && Sig(x) == Sig(y) && HasSelector(out, x) && HasSelector(out, y)
    ensures Selector(x) == Selector(y)
  {
    var i :| 0 <= i < |out| && Selector(out[i]) == Selector(x);
    var j :| 0 <= j < |out| && Selector(out[j]) == Selector(y);
    assert Sig(out[i]) == Sig(out[j]);
  }

  lemma KeptTwin(abis: seq<Abi>, e: Entry)
    requires InSome(abis, e) && TextsTellSelectors(abis)
    ensures HasSelector(Merge(abis), e)
  {
    var i :| 0 <= i < |abis| && e in abis[i];
    var j :| 0 <= j < |abis[i]| && abis[i][j] == e;
    assert HasSig(abis[i], Sig(e));
    MergeCovers(abis, Sig(e));
    var k :| 0 <= k < |Merge(abis)| && Sig(Merge(abis)[k]) == Sig(e);
    MergeFrom(abis, Merge(abis)[k]);
  }

  /** Two overloads of one name that take different tuples: the output is whichever comes first. */
  lemma TupleOverloads(leq: (string, string) -> bool, name: string, rest: string, p: seq<Input>, q: seq<Input>)
    requires p != q
    ensures var a, b := Entry("function", name, [Tuple("", p)], rest), Entry("function", name, [Tuple("", q)], rest);
            SortAbi(leq, Merge([[a, b]])) == [a] && SortAbi(leq, Merge([[b, a]])) == [b]
  {
    var a, b := Entry("function", name, [Tuple("", p)], rest), Entry("function", name, [Tuple("", q)], rest);
    KeepsFirst(leq, a, b);
    KeepsFirst(leq, b, a);
  }

  lemma KeepsFirst(leq: (string, string) -> bool, a: Entry, b: Entry)
    requires Sig(a) == Sig(b)
    ensures SortAbi(leq, Merge([[a, b]])) == [a]
  {
    var facet := [a, b];
    assert facet[..1] == [a] && [a][..0] == [];
    assert AddAll([], [a]) == [a] && Sig([a][0]) == Sig(b);
    assert AddAll([], facet) == [a];
    var abis: seq<Abi> := [facet];
    assert abis[..0] == [];
    assert Merge(abis) == [a];
    assert [a][..0] == [];
  }
}
