/**
 * scripts/codegen/compare-stripped.js: is the executable code of two artifact trees the same once
 * the metadata trailers are taken off?
 */
module CompareStripped {
  import opened Hex
  import opened Results
  import Cbor

  // ---------------------------------------------------------------- normalising

  datatype HexError = NotAString | NoPrefix | UnlinkedLibrary | NonHex | OddLength

  datatype Normal = Bad(error: HexError) | Empty | Clean(hex: string)

  predicate HasUnderscores(s: string) {
    exists i | 0 <= i < |s| - 1 :: s[i] == '_' && s[i + 1] == '_'
  }

  /** None stands for a field that is not a string. */
  function NormalizeHex(value: Option<string>): (r: Normal)
    ensures r.Clean? ==> IsHex(r.hex) && r.hex != ""
  {
    match value
    case None => Bad(NotAString)
    case Some(text) =>
      if text == "" then Empty
      else if !("0x" <= text) then Bad(NoPrefix)
      else
        var hex := Lower(text[2..]);
        if hex == "" then Empty
        else if exists i | 0 <= i < |hex| :: !IsDigit(hex[i]) then
          Bad(if HasUnderscores(hex) then UnlinkedLibrary else NonHex)
        else if |hex| % 2 != 0 then Bad(OddLength)
        else Clean(hex)
  }

  // ---------------------------------------------------------------- splitting

  datatype SplitError =
    | TooShort
    | Overruns(declared: nat)
    | EntireObject
    | NotAMapHeader
    | BadCbor(error: Cbor.DecodeError)
    | NotPurelyMetadata(consumed: nat, declared: nat)

  datatype Split = Split(code: string, block: string, declared: nat) | NoSplit(error: SplitError)

  /** The big-endian length suffix. */
  function Suffix(n: nat): (b: seq<byte>)
    requires n < 0x1_0000
    ensures |b| == 2
  {
    [n / 256, n % 256]
  }

  /** The number the last two bytes declare. */
  function Declared(b: seq<byte>): (n: nat)
    requires |b| >= 2
    ensures n < 0x1_0000 && b[|b| - 2..] == Suffix(n)
  {
    b[|b| - 2] as int * 256 + b[|b| - 1] as int
  }

  lemma DeclaredOfSuffix(b: seq<byte>, n: nat)
    requires n < 0x1_0000 && |b| >= 2 && b[|b| - 2..] == Suffix(n)
    ensures Declared(b) == n
  {
    assert b[|b| - 2] == b[|b| - 2..][0] && b[|b| - 1] == b[|b| - 2..][1];
  }

  datatype Cut = CutAt(codeBytes: nat) | NoCut(error: SplitError)

  /** Where the code ends: the last two bytes declare the map's length, and the map must fill it. */
  function CutPoint(b: seq<byte>): (r: Cut)
    ensures r.CutAt? ==> 0 < r.codeBytes <= |b| - 2
  {
    if |b| < 3 then NoCut(TooShort)
    else
      var declared := Declared(b);
      if declared + 2 > |b| then NoCut(Overruns(declared))
      else
        var codeBytes := |b| - (declared + 2);
        if codeBytes == 0 then NoCut(EntireObject)
        else if b[codeBytes] / 32 != 5 then NoCut(NotAMapHeader)
        else
          match Cbor.Consumed(b, codeBytes, declared)
          case Err(e) => NoCut(BadCbor(e))
          case Ok(n) => if n != declared then NoCut(NotPurelyMetadata(n, declared)) else CutAt(codeBytes)
  }

  function SplitMetadata(hex: string): (r: Split)
    requires IsHex(hex)
  {
    match CutPoint(Bytes(hex))
    case NoCut(e) => NoSplit(e)
    case CutAt(n) => Split(hex[..2 * n], hex[2 * n..], |hex| / 2 - n - 2)
  }

  /** A trailer: one whole map of the accepted language, then its length in two bytes. */
  ghost predicate IsTrailer(b: seq<byte>) {
    exists m: Cbor.MetaMap :: Spells(m, b)
  }

  ghost predicate Spells(m: Cbor.MetaMap, b: seq<byte>) {
    m.Valid() && m.Size() < 0x1_0000 && b == m.Encode() + Suffix(m.Size())
  }

  lemma TrailerFacts(m: Cbor.MetaMap, b: seq<byte>, c: nat)
    requires c <= |b| && Spells(m, b[c..])
    ensures |b| == c + m.Size() + 2 && Cbor.At(b, c, m.Encode())
    ensures Declared(b) == m.Size()
    ensures b[c] / 32 == 5
  {
    var n := m.Size();
    assert Cbor.At(b, c, m.Encode() + Suffix(n)) by {
      assert b[c..c + n + 2] == b[c..];
    }
    Cbor.AtConcat(b, c, m.Encode(), Suffix(n));
    assert b[|b| - 2..] == b[c + n..c + n + 2];
    DeclaredOfSuffix(b, n);
    FirstByte(m);
    assert b[c] == b[c..c + n][0];
  }

  lemma FirstByte(m: Cbor.MetaMap)
    requires m.Valid()
    ensures m.Encode()[0] / 32 == 5
  {
    assert m.Encode()[0] == m.Header().Encode(5)[0];
  }

  /** The cut is found wherever a trailer follows some code. */
  lemma CutFinds(b: seq<byte>, c: nat)
    requires 0 < c <= |b| && IsTrailer(b[c..])
    ensures CutPoint(b) == CutAt(c)
  {
    var m: Cbor.MetaMap :| Spells(m, b[c..]);
    var n := m.Size();
    TrailerFacts(m, b, c);
    assert Cbor.Consumed(b, c, n) == Cbor.Ok(n) by {
      Cbor.ExactThreshold(m, b, c, n);
    }
  }

  /** A cut is only ever made in front of a trailer. */
  lemma CutSound(b: seq<byte>)
    requires CutPoint(b).CutAt?
    ensures IsTrailer(b[CutPoint(b).codeBytes..])
  {
    var c := CutPoint(b).codeBytes;
    var n := |b| - c - 2;
    CutFacts(b, c, n);
    MapThenLength(b, c, n);
  }

  lemma CutFacts(b: seq<byte>, c: nat, n: nat)
    requires CutPoint(b) == CutAt(c) && |b| == c + n + 2
    ensures n == Declared(b) && Cbor.IsMap(b[c..c + n])
  {
    assert Cbor.Consumed(b, c, n) == Cbor.Ok(n);
    Cbor.AcceptsExactly(b, c, n, n);
  }

  lemma MapThenLength(b: seq<byte>, c: nat, n: nat)
    requires |b| == c + n + 2 && n == Declared(b) && Cbor.IsMap(b[c..c + n])
    ensures IsTrailer(b[c..])
  {
    var m: Cbor.MetaMap :| m.Valid() && m.Encode() == b[c..c + n];
    assert m.Size() == |m.Encode()| == n;
    assert b[c..] == b[c..c + n] + b[|b| - 2..];
    assert Spells(m, b[c..]);
  }

  /** What splitting promises, said without the decoder. */
  ghost predicate IsSplit(hex: string, code: string, block: string) {
    && hex == code + block && code != ""
    && IsHex(code) && IsHex(block) && IsTrailer(Bytes(block))
  }

  lemma SplitFinds(hex: string, code: string, block: string)
    requires IsHex(hex) && IsSplit(hex, code, block)
    ensures SplitMetadata(hex).Split?
    ensures SplitMetadata(hex).code == code && SplitMetadata(hex).block == block
  {
    var c := |code| / 2;
    TextCut(code, block);
    CutOfText(hex, code, block);
    SplitOfCut(hex, c);
  }

  lemma CutOfText(hex: string, code: string, block: string)
    requires IsHex(hex) && IsSplit(hex, code, block)
    ensures CutPoint(Bytes(hex)) == CutAt(|code| / 2)
  {
    TextCut(code, block);
    CutFinds(Bytes(hex), |code| / 2);
  }

  lemma SplitOfCut(hex: string, c: nat)
    requires IsHex(hex) && CutPoint(Bytes(hex)) == CutAt(c)
    ensures SplitMetadata(hex) == Split(hex[..2 * c], hex[2 * c..], |hex| / 2 - c - 2)
  {
  }

  lemma TextCut(code: string, block: string)
    requires IsHex(code) && IsHex(block)
    ensures var hex, c := code + block, |code| / 2;
            && IsHex(hex) && |Bytes(hex)| == c + |Bytes(block)| && Bytes(hex)[c..] == Bytes(block)
            && 2 * c <= |hex| && hex[..2 * c] == code && hex[2 * c..] == block
  {
    BytesConcat(code, block);
  }

  lemma TextHalves(hex: string, c: nat)
    requires IsHex(hex) && 2 * c <= |hex|
    ensures IsHex(hex[..2 * c]) && IsHex(hex[2 * c..]) && Bytes(hex[2 * c..]) == Bytes(hex)[c..]
    ensures hex == hex[..2 * c] + hex[2 * c..]
  {
    BytesSlice(hex, 0, c);
    BytesSlice(hex, c, |hex| / 2);
    assert hex[2 * 0..2 * c] == hex[..2 * c] && hex[2 * c..2 * (|hex| / 2)] == hex[2 * c..];
    assert Bytes(hex)[c..|hex| / 2] == Bytes(hex)[c..];
  }

  lemma SplitSound(hex: string)
    requires IsHex(hex) && SplitMetadata(hex).Split?
    ensures IsSplit(hex, SplitMetadata(hex).code, SplitMetadata(hex).block)
  {
    CutSound(Bytes(hex));
    TextHalves(hex, CutPoint(Bytes(hex)).codeBytes);
  }

  /** The split round trip, both ways at once; so a text splits in at most one way. */
  lemma SplitExactly(hex: string, code: string, block: string)
    requires IsHex(hex)
    ensures IsSplit(hex, code, block) <==>
            && SplitMetadata(hex).Split?
            && SplitMetadata(hex).code == code && SplitMetadata(hex).block == block
  {
    if IsSplit(hex, code, block) {
      SplitFinds(hex, code, block);
    }
    if SplitMetadata(hex).Split? {
      SplitSound(hex);
    }
  }

  // ---------------------------------------------------------------- the two sides

  datatype Problem = Text(error: HexError) | Trailer(cause: SplitError)

  datatype Side = Malformed(problem: Problem) | NoCode | Code(code: string, block: string)

  datatype Artifact = Artifact(bytecode: string, deployed: Option<string>)

  function RuntimeSide(entry: Artifact): Side {
    match NormalizeHex(entry.deployed)
    case Bad(e) => Malformed(Text(e))
    case Empty => NoCode
    case Clean(hex) =>
      match SplitMetadata(hex)
      case NoSplit(e) => Malformed(Trailer(e))
      case Split(code, block, _) => Code(code, block)
  }

  predicate Occurs(s: string, pattern: string, at: int) {
    0 <= at <= |s| - |pattern| && s[at..at + |pattern|] == pattern
  }

  /** The last place, at or before `from`, where the pattern occurs. */
  function LastIndexOf(s: string, pattern: string, from: int): (r: Option<nat>)
    requires from <= |s| - |pattern|
    ensures r.Some? ==> Occurs(s, pattern, r.value) && r.value <= from
    ensures forall k | Occurs(s, pattern, k) && k <= from :: r.Some? && k <= r.value
    decreases from + 1
  {
    if from < 0 then None
    else if Occurs(s, pattern, from) then Some(from)
    else LastIndexOf(s, pattern, from - 1)
  }

  /** The text with its last copy of the block cut out; the whole text if it holds none. */
  function SpliceOut(hex: string, block: string): string {
    match LastIndexOf(hex, block, |hex| - |block|)
    case None => hex
    case Some(at) => hex[..at] + hex[at + |block|..]
  }

  /** The block is that of the same side's runtime; the empty text when there is none. */
  function CreationSide(entry: Artifact, block: string): Side {
    match NormalizeHex(Some(entry.bytecode))
    case Bad(e) => Malformed(Text(e))
    case Empty => NoCode
    case Clean(hex) => if block == "" then Code(hex, "") else Code(SpliceOut(hex, block), block)
  }

  function BlockOf(runtime: Side): string {
    if runtime.Code? then runtime.block else ""
  }

  // ---------------------------------------------------------------- the gate

  datatype Kind =
    | OnlyOneTree
    | RuntimeMalformed
    | RuntimePresence
    | RuntimeDiffers
    | CreationMalformed
    | CreationPresence
    | CreationDiffers

  datatype Failure = Failure(key: string, kind: Kind)

  /** What is wrong with the runtimes, if anything. */
  function RuntimeFault(ra: Side, rb: Side): Option<Kind> {
    if ra.Malformed? || rb.Malformed? then Some(RuntimeMalformed)
    else if ra.NoCode? != rb.NoCode? then Some(RuntimePresence)
    else if ra.Code? && ra.code != rb.code then Some(RuntimeDiffers)
    else None
  }

  function CreationFault(ca: Side, cb: Side, strict: bool): Option<Kind> {
    if ca.Malformed? || cb.Malformed? then Some(CreationMalformed)
    else if ca.NoCode? != cb.NoCode? then Some(CreationPresence)
    else if strict && ca.Code? && ca.code != cb.code then Some(CreationDiffers)
    else None
  }

  /** Exactly the kinds of failure a pair is charged with, from its four sides. */
  predicate Charged(ra: Side, rb: Side, ca: Side, cb: Side, strict: bool, kind: Kind) {
    var runtime, creation := RuntimeFault(ra, rb), CreationFault(ca, cb, strict);
    || runtime == Some(kind)
    || (creation == Some(kind) && (runtime == None || runtime == Some(RuntimeDiffers)))
  }

  predicate ChargedPair(ea: Artifact, eb: Artifact, strict: bool, kind: Kind) {
    var ra, rb := RuntimeSide(ea), RuntimeSide(eb);
    Charged(ra, rb, CreationSide(ea, BlockOf(ra)), CreationSide(eb, BlockOf(rb)), strict, kind)
  }

  predicate Fails(a: map<string, Artifact>, b: map<string, Artifact>, strict: bool, f: Failure) {
    if f.key in a && f.key in b then ChargedPair(a[f.key], b[f.key], strict, f.kind)
    else (f.key in a || f.key in b) && f.kind == OnlyOneTree
  }

  datatype Tally = Tally(compared: nat, identical: nat, differ: nat, skipped: nat,
                         creationCompared: nat, creationIdentical: nat, creationDiffer: nat)

  /** Every comparison counted came out one way or the other. */
  predicate Sound(t: Tally) {
    t.compared == t.identical + t.differ && t.creationCompared == t.creationIdentical + t.creationDiffer
  }

  /** Nothing differed, and n artifacts were either compared or had no code. */
  predicate AllSame(t: Tally, n: nat, strict: bool) {
    t.differ == 0 && t.compared + t.skipped == n && (strict ==> t.creationDiffer == 0)
  }

  datatype Counter =
    | Compared
    | Identical
    | Differ
    | Skipped
    | CreationCompared
    | CreationIdentical
    | CreationDiffer

  function Of(t: Tally, c: Counter): nat {
    match c
    case Compared => t.compared
    case Identical => t.identical
    case Differ => t.differ
    case Skipped => t.skipped
    case CreationCompared => t.creationCompared
    case CreationIdentical => t.creationIdentical
    case CreationDiffer => t.creationDiffer
  }

  /** Which pairs a counter counts; creation code is looked at where both runtimes are code or neither is. */
  ghost predicate Counts(c: Counter, ra: Side, rb: Side, ca: Side, cb: Side) {
    var code := ra.Code? && rb.Code?;
    var creation := (code || (ra.NoCode? && rb.NoCode?)) && ca.Code? && cb.Code?;
    match c
    case Compared => code
    case Identical => code && ra.code == rb.code
    case Differ => code && ra.code != rb.code
    case Skipped => ra.NoCode? && rb.NoCode?
    case CreationCompared => creation
    case CreationIdentical => creation && ca.code == cb.code
    case CreationDiffer => creation && ca.code != cb.code
  }

  ghost predicate CountsKey(a: map<string, Artifact>, b: map<string, Artifact>, c: Counter, k: string) {
    k in a && k in b
    && var ra, rb := RuntimeSide(a[k]), RuntimeSide(b[k]);
       Counts(c, ra, rb, CreationSide(a[k], BlockOf(ra)), CreationSide(b[k], BlockOf(rb)))
  }

  /** The keys a counter counts. */
  ghost function Counted(a: map<string, Artifact>, b: map<string, Artifact>, c: Counter, keys: set<string>)
    : set<string>
  {
    set k | k in keys && CountsKey(a, b, c, k)
  }

  lemma NoneCounted(a: map<string, Artifact>, b: map<string, Artifact>, c: Counter)
    ensures Counted(a, b, c, {}) == {}
  {
  }

  lemma CountOneMore(a: map<string, Artifact>, b: map<string, Artifact>, c: Counter, keys: set<string>, key: string)
    requires key !in keys
    ensures |Counted(a, b, c, keys + {key})| == |Counted(a, b, c, keys)| + if CountsKey(a, b, c, key) then 1 else 0
  {
    CountedOneMore(a, b, c, keys, key);
    assert key !in Counted(a, b, c, keys);
  }

  lemma CountedOneMore(a: map<string, Artifact>, b: map<string, Artifact>, c: Counter, keys: set<string>, key: string)
    ensures Counted(a, b, c, keys + {key}) == Counted(a, b, c, keys) + if CountsKey(a, b, c, key) then {key} else {}
  {
  }

  /** One turn of the gate loop for an artifact both trees have: the failures it adds, in order. */
  method Judge(ra: Side, rb: Side, ca: Side, cb: Side, strict: bool, before: Tally) returns (found: seq<Kind>, t: Tally)
    requires Sound(before)
    ensures forall k :: k in found <==> Charged(ra, rb, ca, cb, strict, k)
    ensures forall c :: Of(t, c) == Of(before, c) + if Counts(c, ra, rb, ca, cb) then 1 else 0
    ensures Sound(t)
    ensures forall n: nat | AllSame(before, n, strict) && found == [] :: AllSame(t, n + 1, strict)
  {
    t, found := before, [];
    if ra.Malformed? || rb.Malformed? {
      found := [RuntimeMalformed];
      return;
    }
    if ra.NoCode? && rb.NoCode? {
      t := t.(skipped := t.skipped + 1);
    } else if ra.NoCode? || rb.NoCode? {
      found := [RuntimePresence];
      return;
    } else {
      t := t.(compared := t.compared + 1);
      if ra.code == rb.code {
        t := t.(identical := t.identical + 1);
      } else {
        t := t.(differ := t.differ + 1);
        found := [RuntimeDiffers];
      }
    }
    if ca.Malformed? || cb.Malformed? {
      found := found + [CreationMalformed];
      return;
    }
    if ca.NoCode? && cb.NoCode? {
      return;
    }
    if ca.NoCode? || cb.NoCode? {
      found := found + [CreationPresence];
      return;
    }
    t := t.(creationCompared := t.creationCompared + 1);
    if ca.code == cb.code {
      t := t.(creationIdentical := t.creationIdentical + 1);
    } else {
      t := t.(creationDiffer := t.creationDiffer + 1);
      if strict {
        found := found + [CreationDiffers];
      }
    }
  }

  function Stamp(key: string, kinds: seq<Kind>): (fs: seq<Failure>)
    ensures |fs| == |kinds| && forall f :: f in fs <==> f.key == key && f.kind in kinds
  {
    var fs := seq(|kinds|, i requires 0 <= i < |kinds| => Failure(key, kinds[i]));
    assert forall k | k in kinds :: Failure(key, k) in fs by {
      forall k | k in kinds
        ensures Failure(key, k) in fs
      {
        var i :| 0 <= i < |kinds| && kinds[i] == k;
        assert fs[i] == Failure(key, k);
      }
    }
    fs
  }

  /** One turn for any key of either tree. */
  method Turn(a: map<string, Artifact>, b: map<string, Artifact>, key: string, strict: bool, before: Tally)
    returns (found: seq<Failure>, t: Tally)
    requires Sound(before) && (key in a || key in b)
    ensures forall f :: f in found <==> f.key == key && Fails(a, b, strict, f)
    ensures forall c :: Of(t, c) == Of(before, c) + if CountsKey(a, b, c, key) then 1 else 0
    ensures Sound(t)
    ensures forall n: nat | AllSame(before, n, strict) && found == [] :: AllSame(t, n + 1, strict)
  {
    if key !in a || key !in b {
      return [Failure(key, OnlyOneTree)], before;
    }
    var ra, rb := RuntimeSide(a[key]), RuntimeSide(b[key]);
    var ca, cb := CreationSide(a[key], BlockOf(ra)), CreationSide(b[key], BlockOf(rb));
    var kinds;
    kinds, t := Judge(ra, rb, ca, cb, strict, before);
    found := Stamp(key, kinds);
  }

  /** What the loop has made of the keys it is through with. */
  ghost predicate Through(a: map<string, Artifact>, b: map<string, Artifact>, strict: bool, done: set<string>,
                          failures: seq<Failure>, t: Tally)
  {
    && (forall f :: f in failures <==> f.key in done && Fails(a, b, strict, f))
    && (forall c :: Of(t, c) == |Counted(a, b, c, done)|)
    && Sound(t)
    && (failures == [] ==> AllSame(t, |done|, strict))
  }

  lemma ThroughNone(a: map<string, Artifact>, b: map<string, Artifact>, strict: bool)
    ensures Through(a, b, strict, {}, [], Tally(0, 0, 0, 0, 0, 0, 0))
  {
    forall c
      ensures |Counted(a, b, c, {})| == 0
    {
      NoneCounted(a, b, c);
    }
  }

  lemma ThroughOneMore(a: map<string, Artifact>, b: map<string, Artifact>, strict: bool, done: set<string>,
                       failures: seq<Failure>, before: Tally, key: string, found: seq<Failure>, t: Tally)
    requires Through(a, b, strict, done, failures, before) && key !in done
    requires forall f :: f in found <==> f.key == key && Fails(a, b, strict, f)
    requires forall c :: Of(t, c) == Of(before, c) + if CountsKey(a, b, c, key) then 1 else 0
    requires Sound(t)
    requires forall n: nat | AllSame(before, n, strict) && found == [] :: AllSame(t, n + 1, strict)
    ensures Through(a, b, strict, done + {key}, failures + found, t)
  {
    forall c
      ensures Of(t, c) == |Counted(a, b, c, done + {key})|
    {
      CountOneMore(a, b, c, done, key);
    }
  }

  /** The loop body. */
  method Visit(a: map<string, Artifact>, b: map<string, Artifact>, strict: bool, ghost done: set<string>,
               before: seq<Failure>, tally: Tally, key: string) returns (failures: seq<Failure>, t: Tally)
    requires Through(a, b, strict, done, before, tally) && key !in done && (key in a || key in b)
    ensures Through(a, b, strict, done + {key}, failures, t)
  {
    var found;
    found, t := Turn(a, b, key, strict, tally);
    failures := before + found;
    ThroughOneMore(a, b, strict, done, before, tally, key, found, t);
  }

  /** The gate loop. Keys are visited in some order; the report is the same set of failures in any. */
  method VisitAll(a: map<string, Artifact>, b: map<string, Artifact>, strict: bool)
    returns (failures: seq<Failure>, t: Tally)
    ensures Through(a, b, strict, a.Keys + b.Keys, failures, t)
  {
    failures, t := [], Tally(0, 0, 0, 0, 0, 0, 0);
    var keys := a.Keys + b.Keys;
    var done: set<string> := {};
    ThroughNone(a, b, strict);
    while done != keys
      invariant done <= keys
      invariant Through(a, b, strict, done, failures, t)
      decreases keys - done
    {
      var key := Next(keys, done);
      failures, t := Visit(a, b, strict, done, failures, t, key);
      done := done + {key};
    }
  }

  method Next(keys: set<string>, done: set<string>) returns (key: string)
    requires done <= keys && done != keys
    ensures key in keys && key !in done
    ensures done + {key} <= keys && keys - (done + {key}) < keys - done
  {
    var left := keys - done;
    assert keys == left + done;
    assert left != {};
    key :| key in left;
    assert key !in keys - (done + {key});
  }

  /** Exit 2 is the refusal to compare an empty tree. */
  method Report(a: map<string, Artifact>, b: map<string, Artifact>, strict: bool)
    returns (exit: nat, failures: seq<Failure>, t: Tally)
    ensures exit == 2 <==> |a| == 0 || |b| == 0
    ensures exit != 2 ==> forall f :: f in failures <==> Fails(a, b, strict, f)
    ensures exit == 0 <==> exit != 2 && failures == []
    ensures exit != 2 ==> forall c :: Of(t, c) == |Counted(a, b, c, a.Keys + b.Keys)|
    ensures exit <= 2 && Sound(t)
    ensures exit == 0 ==> AllSame(t, |a.Keys + b.Keys|, strict)
  {
    if |a| == 0 || |b| == 0 {
      return 2, [], Tally(0, 0, 0, 0, 0, 0, 0);
    }
    failures, t := VisitAll(a, b, strict);
    exit := if failures == [] then 0 else 1;
  }

  /** The whole gate: exit 0 exactly when both trees hold artifacts and agree. */
  method Gate(a: map<string, Artifact>, b: map<string, Artifact>, strict: bool)
    returns (exit: nat, failures: seq<Failure>, t: Tally)
    ensures exit == 2 <==> |a| == 0 || |b| == 0
    ensures exit != 2 ==> forall f :: f in failures <==> Fails(a, b, strict, f)
    ensures exit != 2 ==> forall c :: Of(t, c) == |Counted(a, b, c, a.Keys + b.Keys)|
    ensures exit <= 2 && Sound(t) && (exit == 0 ==> AllSame(t, |a.Keys + b.Keys|, strict))
    ensures exit == 0 <==> |a| > 0 && |b| > 0 && TreesAgree(a, b, strict)
  {
    exit, failures, t := Report(a, b, strict);
    if exit != 2 {
      NothingReported(a, b, strict, failures);
    }
  }

  // ---------------------------------------------------------------- what a pass means

  predicate IsBlank(value: Option<string>) {
    value == Some("") || value == Some("0x")
  }

  /** The field spells this clean, non-empty hex text. */
  predicate IsText(value: Option<string>, hex: string) {
    && value.Some? && "0x" <= value.value && Lower(value.value[2..]) == hex
    && IsHex(hex) && hex != ""
  }

  lemma NormalizeExactly(value: Option<string>, hex: string)
    ensures NormalizeHex(value) == Clean(hex) <==> IsText(value, hex)
    ensures NormalizeHex(value) == Empty <==> IsBlank(value)
  {
    if value.Some? && "0x" <= value.value {
      assert value.value == "0x" + value.value[2..];
      assert |value.value| == 2 <==> value.value == "0x";
    }
  }

  /** The runtime is this code under this trailer; both are empty when it has none. */
  ghost predicate RuntimeIs(value: Option<string>, code: string, trailer: string) {
    || (code == trailer == "" && IsBlank(value))
    || (code != "" && IsText(value, code + trailer) && IsSplit(code + trailer, code, trailer))
  }

  lemma RuntimeExactly(e: Artifact, code: string, trailer: string)
    ensures RuntimeIs(e.deployed, code, trailer) <==>
            RuntimeSide(e) == if code == trailer == "" then NoCode else Code(code, trailer)
  {
    NormalizeExactly(e.deployed, code + trailer);
    match NormalizeHex(e.deployed)
    case Bad(_) =>
    case Empty =>
    case Clean(hex) =>
      SplitExactly(hex, code, trailer);
      NormalizeExactly(e.deployed, hex);
  }

  /** The text is c once the last copy of the block, if there is one, is taken out. */
  ghost predicate Stripped(hex: string, block: string, c: string) {
    if block == "" || forall k :: !Occurs(hex, block, k) then c == hex
    else exists at | Occurs(hex, block, at) ::
           (forall k :: Occurs(hex, block, k) ==> k <= at) && c == hex[..at] + hex[at + |block|..]
  }

  /** Only the last place is at or behind every place. */
  lemma LastPlace(hex: string, block: string, at: int)
    requires Occurs(hex, block, at)
    ensures var last := LastIndexOf(hex, block, |hex| - |block|);
            last.Some? && ((forall k :: Occurs(hex, block, k) ==> k <= at) <==> at == last.value)
  {
    var last := LastIndexOf(hex, block, |hex| - |block|).value;
    assert Occurs(hex, block, last) && at <= last;
  }

  lemma StrippedExactly(hex: string, block: string, c: string)
    ensures Stripped(hex, block, c) <==> c == if block == "" then hex else SpliceOut(hex, block)
  {
    if block != "" && exists k :: Occurs(hex, block, k) {
      var k :| Occurs(hex, block, k);
      LastPlace(hex, block, k);
      StrippedAt(hex, block, c, LastIndexOf(hex, block, |hex| - |block|).value);
    }
  }

  lemma StrippedAt(hex: string, block: string, c: string, last: nat)
    requires block != "" && LastIndexOf(hex, block, |hex| - |block|) == Some(last)
    ensures Stripped(hex, block, c) <==> c == hex[..last] + hex[last + |block|..]
  {
    LastPlace(hex, block, last);
    if Stripped(hex, block, c) {
      var at :| Occurs(hex, block, at) && (forall k :: Occurs(hex, block, k) ==> k <= at)
                && c == hex[..at] + hex[at + |block|..];
      LastPlace(hex, block, at);
    }
  }

  /** The creation field, with that trailer's last copy taken out, is c. */
  ghost predicate CreationIs(x: string, trailer: string, c: string) {
    exists hex :: IsText(Some(x), hex) && Stripped(hex, trailer, c)
  }

  lemma CreationSideExactly(e: Artifact, trailer: string, c: string)
    ensures CreationSide(e, trailer) == NoCode <==> IsBlank(Some(e.bytecode))
    ensures CreationSide(e, trailer) == Code(c, trailer) <==> CreationIs(e.bytecode, trailer, c)
  {
    var n := NormalizeHex(Some(e.bytecode));
    NormalizeExactly(Some(e.bytecode), if n.Clean? then n.hex else "");
    if n.Clean? {
      StrippedExactly(n.hex, trailer, c);
    }
  }

  ghost predicate CreationAgrees(x: string, p: string, y: string, q: string, strict: bool) {
    || (IsBlank(Some(x)) && IsBlank(Some(y)))
    || exists c, d :: CreationIs(x, p, c) && CreationIs(y, q, d) && (strict ==> c == d)
  }

  /** The same code under two trailers, and creation code that agrees once they are spliced out. */
  ghost predicate AgreeAs(ea: Artifact, eb: Artifact, strict: bool, code: string, p: string, q: string) {
    && RuntimeIs(ea.deployed, code, p) && RuntimeIs(eb.deployed, code, q)
    && CreationAgrees(ea.bytecode, p, eb.bytecode, q, strict)
  }

  ghost predicate Agree(ea: Artifact, eb: Artifact, strict: bool) {
    exists code, p, q :: AgreeAs(ea, eb, strict, code, p, q)
  }

  lemma CreationExactly(ea: Artifact, p: string, eb: Artifact, q: string, strict: bool)
    ensures CreationAgrees(ea.bytecode, p, eb.bytecode, q, strict) <==>
            CreationFault(CreationSide(ea, p), CreationSide(eb, q), strict) == None
  {
    var ca, cb := CreationSide(ea, p), CreationSide(eb, q);
    CreationSideExactly(ea, p, if ca.Code? then ca.code else "");
    CreationSideExactly(eb, q, if cb.Code? then cb.code else "");
    if exists c, d :: CreationIs(ea.bytecode, p, c) && CreationIs(eb.bytecode, q, d) && (strict ==> c == d) {
      var c, d :| CreationIs(ea.bytecode, p, c) && CreationIs(eb.bytecode, q, d) && (strict ==> c == d);
      CreationSideExactly(ea, p, c);
      CreationSideExactly(eb, q, d);
    }
  }

  /** A pair is charged with nothing exactly when the two artifacts agree. */
  lemma CleanPairExactly(ea: Artifact, eb: Artifact, strict: bool)
    ensures (forall k :: !ChargedPair(ea, eb, strict, k)) <==> Agree(ea, eb, strict)
  {
    var ra, rb := RuntimeSide(ea), RuntimeSide(eb);
    var p, q := BlockOf(ra), BlockOf(rb);
    if forall k :: !ChargedPair(ea, eb, strict, k) {
      var runtime := RuntimeFault(ra, rb);
      assert runtime == None by {
        if runtime.Some? {
          assert ChargedPair(ea, eb, strict, runtime.value);
        }
      }
      var creation := CreationFault(CreationSide(ea, p), CreationSide(eb, q), strict);
      assert creation == None by {
        if creation.Some? {
          assert ChargedPair(ea, eb, strict, creation.value);
        }
      }
      var code := if ra.Code? then ra.code else "";
      CleanPair(ea, eb, code, p, q);
      CreationExactly(ea, p, eb, q, strict);
      assert AgreeAs(ea, eb, strict, code, p, q);
    }
    if Agree(ea, eb, strict) {
      var code, p', q' :| AgreeAs(ea, eb, strict, code, p', q');
      RuntimeExactly(ea, code, p');
      RuntimeExactly(eb, code, q');
      CreationExactly(ea, p', eb, q', strict);
    }
  }

  lemma CleanPair(ea: Artifact, eb: Artifact, code: string, p: string, q: string)
    requires RuntimeFault(RuntimeSide(ea), RuntimeSide(eb)) == None
    requires p == BlockOf(RuntimeSide(ea)) && q == BlockOf(RuntimeSide(eb))
    requires code == if RuntimeSide(ea).Code? then RuntimeSide(ea).code else ""
    ensures RuntimeIs(ea.deployed, code, p) && RuntimeIs(eb.deployed, code, q)
  {
    RuntimeExactly(ea, code, p);
    RuntimeExactly(eb, code, q);
  }

  // ---------------------------------------------------------------- what each failure means

  /** The field is neither blank nor code under a trailer. */
  ghost predicate BadRuntime(value: Option<string>) {
    forall code, p :: !RuntimeIs(value, code, p)
  }

  ghost predicate BadCreation(x: string) {
    !IsBlank(Some(x)) && forall hex :: !IsText(Some(x), hex)
  }

  lemma CodeUnderTrailer(e: Artifact)
    requires RuntimeSide(e).Code?
    ensures RuntimeSide(e).code != "" && RuntimeIs(e.deployed, RuntimeSide(e).code, RuntimeSide(e).block)
  {
    var side := RuntimeSide(e);
    SplitSound(NormalizeHex(e.deployed).hex);
    RuntimeExactly(e, side.code, side.block);
  }

  lemma RuntimeSideMeans(e: Artifact)
    ensures RuntimeSide(e).Malformed? <==> BadRuntime(e.deployed)
    ensures RuntimeSide(e).NoCode? <==> IsBlank(e.deployed)
  {
    NormalizeExactly(e.deployed, "");
    RuntimeExactly(e, "", "");
    if RuntimeSide(e).Code? {
      CodeUnderTrailer(e);
    }
    if RuntimeSide(e).Malformed? {
      forall code, p
        ensures !RuntimeIs(e.deployed, code, p)
      {
        RuntimeExactly(e, code, p);
      }
    }
  }

  ghost predicate RuntimesDiffer(ea: Artifact, eb: Artifact) {
    exists c, p, d, q :: c != "" && d != "" && RuntimeIs(ea.deployed, c, p) && RuntimeIs(eb.deployed, d, q) && c != d
  }

  lemma RuntimesDifferExactly(ea: Artifact, eb: Artifact)
    ensures RuntimesDiffer(ea, eb) <==>
            RuntimeSide(ea).Code? && RuntimeSide(eb).Code? && RuntimeSide(ea).code != RuntimeSide(eb).code
  {
    if RuntimeSide(ea).Code? && RuntimeSide(eb).Code? {
      CodeUnderTrailer(ea);
      CodeUnderTrailer(eb);
    }
    if RuntimesDiffer(ea, eb) {
      var c, p, d, q :| c != "" && d != "" && RuntimeIs(ea.deployed, c, p) && RuntimeIs(eb.deployed, d, q) && c != d;
      RuntimeExactly(ea, c, p);
      RuntimeExactly(eb, d, q);
    }
  }

  lemma ChargedRuntime(ra: Side, rb: Side, ca: Side, cb: Side, strict: bool)
    ensures !Charged(ra, rb, ca, cb, strict, OnlyOneTree)
    ensures Charged(ra, rb, ca, cb, strict, RuntimeMalformed) <==> ra.Malformed? || rb.Malformed?
    ensures Charged(ra, rb, ca, cb, strict, RuntimePresence) <==>
            !ra.Malformed? && !rb.Malformed? && ra.NoCode? != rb.NoCode?
    ensures Charged(ra, rb, ca, cb, strict, RuntimeDiffers) <==> ra.Code? && rb.Code? && ra.code != rb.code
  {
  }

  lemma ChargedCreation(ra: Side, rb: Side, ca: Side, cb: Side, strict: bool)
    requires !ra.Malformed? && !rb.Malformed? && ra.NoCode? == rb.NoCode?
    ensures Charged(ra, rb, ca, cb, strict, CreationMalformed) <==> ca.Malformed? || cb.Malformed?
    ensures Charged(ra, rb, ca, cb, strict, CreationPresence) <==>
            !ca.Malformed? && !cb.Malformed? && ca.NoCode? != cb.NoCode?
    ensures Charged(ra, rb, ca, cb, strict, CreationDiffers) <==> strict && ca.Code? && cb.Code? && ca.code != cb.code
  {
  }

  /** When each failure of the runtimes is charged. */
  lemma RuntimeKinds(ea: Artifact, eb: Artifact, strict: bool)
    ensures !ChargedPair(ea, eb, strict, OnlyOneTree)
    ensures ChargedPair(ea, eb, strict, RuntimeMalformed) <==> BadRuntime(ea.deployed) || BadRuntime(eb.deployed)
    ensures ChargedPair(ea, eb, strict, RuntimePresence) <==>
            && !BadRuntime(ea.deployed) && !BadRuntime(eb.deployed)
            && IsBlank(ea.deployed) != IsBlank(eb.deployed)
    ensures ChargedPair(ea, eb, strict, RuntimeDiffers) <==> RuntimesDiffer(ea, eb)
  {
    var ra, rb := RuntimeSide(ea), RuntimeSide(eb);
    ChargedRuntime(ra, rb, CreationSide(ea, BlockOf(ra)), CreationSide(eb, BlockOf(rb)), strict);
    RuntimeSideMeans(ea);
    RuntimeSideMeans(eb);
    RuntimesDifferExactly(ea, eb);
  }

  lemma CreationSideMeans(e: Artifact, p: string)
    ensures CreationSide(e, p).Malformed? <==> BadCreation(e.bytecode)
    ensures CreationSide(e, p).NoCode? <==> IsBlank(Some(e.bytecode))
    ensures CreationSide(e, p).Code? ==> CreationIs(e.bytecode, p, CreationSide(e, p).code)
    ensures forall c | CreationIs(e.bytecode, p, c) :: CreationSide(e, p) == Code(c, p)
  {
    forall hex
      ensures NormalizeHex(Some(e.bytecode)) == Clean(hex) <==> IsText(Some(e.bytecode), hex)
      ensures NormalizeHex(Some(e.bytecode)) == Empty <==> IsBlank(Some(e.bytecode))
    {
      NormalizeExactly(Some(e.bytecode), hex);
    }
    var side := CreationSide(e, p);
    CreationSideExactly(e, p, if side.Code? then side.code else "");
    forall c | CreationIs(e.bytecode, p, c)
      ensures side == Code(c, p)
    {
      CreationSideExactly(e, p, c);
    }
  }

  ghost predicate CreationsDiffer(x: string, p: string, y: string, q: string) {
    exists c, d :: CreationIs(x, p, c) && CreationIs(y, q, d) && c != d
  }

  lemma CreationsDifferExactly(ea: Artifact, p: string, eb: Artifact, q: string)
    ensures CreationsDiffer(ea.bytecode, p, eb.bytecode, q) <==>
            && CreationSide(ea, p).Code? && CreationSide(eb, q).Code?
            && CreationSide(ea, p).code != CreationSide(eb, q).code
  {
    CreationSideMeans(ea, p);
    CreationSideMeans(eb, q);
  }

  ghost predicate CreationKind(k: Kind) {
    k == CreationMalformed || k == CreationPresence || k == CreationDiffers
  }

  /** When each failure of the creation codes is charged, for runtimes c under p and d under q. */
  lemma CreationKinds(ea: Artifact, c: string, p: string, eb: Artifact, d: string, q: string, strict: bool)
    requires RuntimeIs(ea.deployed, c, p) && RuntimeIs(eb.deployed, d, q) && (c == "" <==> d == "")
    ensures ChargedPair(ea, eb, strict, CreationMalformed) <==> BadCreation(ea.bytecode) || BadCreation(eb.bytecode)
    ensures ChargedPair(ea, eb, strict, CreationPresence) <==>
            && !BadCreation(ea.bytecode) && !BadCreation(eb.bytecode)
            && IsBlank(Some(ea.bytecode)) != IsBlank(Some(eb.bytecode))
    ensures ChargedPair(ea, eb, strict, CreationDiffers) <==>
            strict && CreationsDiffer(ea.bytecode, p, eb.bytecode, q)
  {
    var ra, rb := RuntimeSide(ea), RuntimeSide(eb);
    RuntimeExactly(ea, c, p);
    RuntimeExactly(eb, d, q);
    ChargedCreation(ra, rb, CreationSide(ea, p), CreationSide(eb, q), strict);
    CreationSideMeans(ea, p);
    CreationSideMeans(eb, q);
    CreationsDifferExactly(ea, p, eb, q);
  }

  lemma ChargedNoCreation(ra: Side, rb: Side, ca: Side, cb: Side, strict: bool, kind: Kind)
    requires ra.Malformed? || rb.Malformed? || ra.NoCode? != rb.NoCode?
    ensures CreationKind(kind) ==> !Charged(ra, rb, ca, cb, strict, kind)
  {
  }

  /** Creation codes are not judged where a runtime is unreadable or only one side has one. */
  lemma NoCreationKinds(ea: Artifact, eb: Artifact, strict: bool, kind: Kind)
    requires BadRuntime(ea.deployed) || BadRuntime(eb.deployed) || IsBlank(ea.deployed) != IsBlank(eb.deployed)
    ensures CreationKind(kind) ==> !ChargedPair(ea, eb, strict, kind)
  {
    var ra, rb := RuntimeSide(ea), RuntimeSide(eb);
    RuntimeSideMeans(ea);
    RuntimeSideMeans(eb);
    ChargedNoCreation(ra, rb, CreationSide(ea, BlockOf(ra)), CreationSide(eb, BlockOf(rb)), strict, kind);
  }

  // ---------------------------------------------------------------- what a pass of two trees means

  ghost predicate TreesAgree(a: map<string, Artifact>, b: map<string, Artifact>, strict: bool) {
    a.Keys == b.Keys && forall k | k in a && k in b :: Agree(a[k], b[k], strict)
  }

  /**
   * No false pass, and no false alarm: nothing fails exactly when both trees hold the same keys and
   * under each key artifacts that agree.
   */
  lemma PassExactly(a: map<string, Artifact>, b: map<string, Artifact>, strict: bool)
    ensures (forall f :: !Fails(a, b, strict, f)) <==> TreesAgree(a, b, strict)
  {
    forall k | k in a && k in b
      ensures Agree(a[k], b[k], strict) <==> forall kind :: !Fails(a, b, strict, Failure(k, kind))
    {
      CleanPairExactly(a[k], b[k], strict);
      assert forall kind :: Fails(a, b, strict, Failure(k, kind)) <==> ChargedPair(a[k], b[k], strict, kind);
    }
    if forall f :: !Fails(a, b, strict, f) {
      forall k | k in a.Keys + b.Keys
        ensures k in a && k in b
      {
        assert !Fails(a, b, strict, Failure(k, OnlyOneTree));
      }
    }
  }

  /** An empty report is agreement of the trees. */
  lemma NothingReported(a: map<string, Artifact>, b: map<string, Artifact>, strict: bool, failures: seq<Failure>)
    requires forall f :: f in failures <==> Fails(a, b, strict, f)
    ensures failures == [] <==> TreesAgree(a, b, strict)
  {
    PassExactly(a, b, strict);
    assert failures != [] ==> failures[0] in failures;
  }

  // ---------------------------------------------------------------- what a strict pass says of creation code

  /** Where the splice takes the block out, if it takes one out. */
  function Place(hex: string, block: string): Option<nat> {
    if block == "" then None else LastIndexOf(hex, block, |hex| - |block|)
  }

  /** The same text in front of the two blocks and the same behind them. */
  ghost predicate SameAround(x: string, p: string, a: nat, y: string, q: string, b: nat)
    requires a + |p| <= |x| && b + |q| <= |y|
  {
    x[..a] == y[..b] && x[a + |p|..] == y[b + |q|..]
  }

  /** y is x with the block p at a gone, and q put in further behind, at b: what lay between has moved across. */
  ghost predicate Moved(x: string, p: string, a: nat, y: string, q: string, b: nat)
    requires a + |p| <= |x| && b + |q| <= |y| && a <= b
  {
    && b + |p| <= |x| && x[..a] == y[..a] && x[a + |p|..b + |p|] == y[a..b] && x[b + |p|..] == y[b + |q|..]
  }

  ghost predicate LooksSameAt(x: string, p: string, i: Option<nat>, y: string, q: string, j: Option<nat>)
    requires (i.Some? ==> i.value + |p| <= |x|) && (j.Some? ==> j.value + |q| <= |y|)
  {
    match (i, j)
    case (None, None) => x == y
    case (Some(a), None) => a <= |y| && x == y[..a] + p + y[a..]
    case (None, Some(b)) => b <= |x| && y == x[..b] + q + x[b..]
    case (Some(a), Some(b)) => if a <= b then Moved(x, p, a, y, q, b) else Moved(y, q, b, x, p, a)
  }

  /** Two creation texts a strict comparison cannot tell apart, by where each side's block stands. */
  ghost predicate LooksSame(x: string, p: string, y: string, q: string) {
    LooksSameAt(x, p, Place(x, p), y, q, Place(y, q))
  }

  lemma CutAgainst(x: string, a: nat, n: nat, y: string, b: nat, m: nat)
    requires a + n <= |x| && b + m <= |y| && a <= b
    ensures x[..a] + x[a + n..] == y[..b] + y[b + m..] <==>
            b + n <= |x| && x[..a] == y[..a] && x[a + n..b + n] == y[a..b] && x[b + n..] == y[b + m..]
  {
    var s, t := x[..a] + x[a + n..], y[..b] + y[b + m..];
    if s == t {
      assert |x| - n == |y| - m;
      assert s[..a] == x[..a] && t[..a] == y[..a];
      assert s[a..b] == x[a + n..b + n] && t[a..b] == y[a..b];
      assert s[b..] == x[b + n..] && t[b..] == y[b + m..];
    }
    if b + n <= |x| && x[..a] == y[..a] && x[a + n..b + n] == y[a..b] && x[b + n..] == y[b + m..] {
      assert x[a + n..] == x[a + n..b + n] + x[b + n..];
      assert y[..b] == y[..a] + y[a..b];
      assert s == y[..a] + (y[a..b] + y[b + m..]);
      assert t == (y[..a] + y[a..b]) + y[b + m..];
    }
  }

  lemma PutBack(x: string, p: string, a: nat, y: string)
    requires a + |p| <= |x| && x[a..a + |p|] == p
    ensures x[..a] + x[a + |p|..] == y <==> a <= |y| && x == y[..a] + p + y[a..]
  {
    var s := x[..a] + x[a + |p|..];
    if s == y {
      assert y[..a] == x[..a] && y[a..] == x[a + |p|..];
      assert x == x[..a] + x[a..a + |p|] + x[a + |p|..];
    }
    if a <= |y| && x == y[..a] + p + y[a..] {
      assert x[..a] == y[..a] && x[a + |p|..] == y[a..];
      assert y == y[..a] + y[a..];
    }
  }

  /** What is compared: the text without its block. */
  function Without(hex: string, block: string): string {
    if block == "" then hex else SpliceOut(hex, block)
  }

  /** c is the text with the block at i, if anywhere, taken out. */
  ghost predicate TakenOut(x: string, p: string, i: Option<nat>, c: string) {
    match i
    case None => c == x
    case Some(a) => a + |p| <= |x| && x[a..a + |p|] == p && c == x[..a] + x[a + |p|..]
  }

  lemma WithoutAt(hex: string, block: string)
    ensures TakenOut(hex, block, Place(hex, block), Without(hex, block))
  {
  }

  lemma OneHeld(x: string, p: string, a: nat, c: string, y: string, q: string)
    requires TakenOut(x, p, Some(a), c)
    ensures c == y <==> LooksSameAt(x, p, Some(a), y, q, None)
    ensures c == y <==> LooksSameAt(y, q, None, x, p, Some(a))
  {
    PutBack(x, p, a, y);
  }

  lemma BothHeld(x: string, p: string, a: nat, c: string, y: string, q: string, b: nat, d: string)
    requires TakenOut(x, p, Some(a), c) && TakenOut(y, q, Some(b), d)
    ensures c == d <==> LooksSameAt(x, p, Some(a), y, q, Some(b))
  {
    if a <= b {
      CutAgainst(x, a, |p|, y, b, |q|);
    } else {
      CutAgainst(y, b, |q|, x, a, |p|);
    }
  }

  lemma TakenOutExactly(x: string, p: string, i: Option<nat>, c: string,
                        y: string, q: string, j: Option<nat>, d: string)
    requires TakenOut(x, p, i, c) && TakenOut(y, q, j, d)
    ensures c == d <==> LooksSameAt(x, p, i, y, q, j)
  {
    match (i, j)
    case (None, None) =>
    case (Some(a), None) => OneHeld(x, p, a, c, y, q);
    case (None, Some(b)) => OneHeld(y, q, b, d, x, p);
    case (Some(a), Some(b)) => BothHeld(x, p, a, c, y, q, b, d);
  }

  /** The texts compared are equal exactly when the two creation texts look the same. */
  lemma SpliceExactly(x: string, p: string, y: string, q: string)
    ensures Without(x, p) == Without(y, q) <==> LooksSame(x, p, y, q)
  {
    WithoutAt(x, p);
    WithoutAt(y, q);
    TakenOutExactly(x, p, Place(x, p), Without(x, p), y, q, Place(y, q), Without(y, q));
  }

  /** With the last block of each side at a and b: equal splices at one place are equal texts around, and only those. */
  lemma SamePlaceSameCode(x: string, p: string, y: string, q: string, a: nat, b: nat)
    requires p != "" && q != "" && Place(x, p) == Some(a) && Place(y, q) == Some(b)
    ensures SpliceOut(x, p) == SpliceOut(y, q) && a == b <==> SameAround(x, p, a, y, q, b)
  {
    WithoutAt(x, p);
    WithoutAt(y, q);
    AroundExactly(x, p, a, Without(x, p), y, q, b, Without(y, q));
  }

  lemma AroundExactly(x: string, p: string, a: nat, c: string, y: string, q: string, b: nat, d: string)
    requires TakenOut(x, p, Some(a), c) && TakenOut(y, q, Some(b), d)
    ensures c == d && a == b <==> SameAround(x, p, a, y, q, b)
  {
    if a == b {
      CutAgainst(x, a, |p|, y, b, |q|);
    } else {
      assert |x[..a]| != |y[..b]|;
    }
  }

  /** What a strict pass over a pair says of its creation code, for every pair with creation code on both sides. */
  lemma StrictExactly(ea: Artifact, x: string, eb: Artifact, y: string, code: string, p: string, q: string)
    requires IsText(Some(ea.bytecode), x) && IsText(Some(eb.bytecode), y)
    requires RuntimeIs(ea.deployed, code, p) && RuntimeIs(eb.deployed, code, q)
    ensures AgreeAs(ea, eb, true, code, p, q) <==> LooksSame(x, p, y, q)
  {
    NormalizeExactly(Some(ea.bytecode), x);
    NormalizeExactly(Some(eb.bytecode), y);
    CreationExactly(ea, p, eb, q, true);
    SpliceExactly(x, p, y, q);
  }

  /**
   * Where both sides hold their block, a strict pass means the same code around it exactly when the
   * two blocks stand at the same place.
   */
  lemma StrictSamePlace(ea: Artifact, x: string, eb: Artifact, y: string, code: string,
                        p: string, q: string, a: nat, b: nat)
    requires IsText(Some(ea.bytecode), x) && IsText(Some(eb.bytecode), y)
    requires RuntimeIs(ea.deployed, code, p) && RuntimeIs(eb.deployed, code, q)
    requires Place(x, p) == Some(a) && Place(y, q) == Some(b)
    ensures AgreeAs(ea, eb, true, code, p, q) && a == b <==> SameAround(x, p, a, y, q, b)
  {
    StrictExactly(ea, x, eb, y, code, p, q);
    SpliceExactly(x, p, y, q);
    SamePlaceSameCode(x, p, y, q, a, b);
  }

  const TRAILER := "a160f40003"

  lemma TrailerExample()
    ensures IsHex(TRAILER) && IsTrailer(Bytes(TRAILER))
  {
    var m := Cbor.MetaMap(Cbor.Tiny,
             Cbor.More(Cbor.Str(Cbor.Tiny, []), Cbor.Simple(Cbor.Head(Cbor.Tiny, 20)), Cbor.End));
    assert m.entries.rest.Encode() == [];
    assert m.entries.key.Encode(3) == [96] && m.entries.value.Encode() == [244];
    assert m.entries.Encode() == [96, 244];
    assert m.Header().Encode(5) == [161];
    assert m.Encode() == [161, 96, 244];
    ExampleBytes();
    assert Spells(m, Bytes(TRAILER));
  }

  lemma ExampleBytes()
    ensures IsHex(TRAILER) && Bytes(TRAILER) == [161, 96, 244] + Suffix(3)
  {
    var b := Bytes(TRAILER);
    assert b[0] == 161 && b[1] == 96 && b[2] == 244 && b[3] == 0 && b[4] == 3;
  }

  /**
   * Where the place differs it does not follow: the splice forgets where the trailer was. Even a
   * strict pass accepts code put in front of the trailer on one side and behind it on the other.
   */
  lemma PassForgetsPlace(y: string)
    requires IsHex(y) && y != "" && 'a' !in y
    ensures var deployed := Some("0x00" + TRAILER);
            var ea, eb := Artifact("0x" + y + TRAILER, deployed), Artifact("0x" + TRAILER + y, deployed);
            ea.bytecode != eb.bytecode && Agree(ea, eb, true)
  {
    TrailerExample();
    var deployed := Some("0x00" + TRAILER);
    var ea, eb := Artifact("0x" + y + TRAILER, deployed), Artifact("0x" + TRAILER + y, deployed);
    LowerIsIdentity("00" + TRAILER);
    assert deployed.value[2..] == "00" + TRAILER;
    assert RuntimeIs(deployed, "00", TRAILER);
    TrailerBehind(y);
    TrailerInFront(y);
    assert ea.bytecode[2] == y[0] && eb.bytecode[2] == 'a';
    assert AgreeAs(ea, eb, true, "00", TRAILER, TRAILER);
  }

  lemma LowerIsIdentity(s: string)
    requires forall i | 0 <= i < |s| :: IsDigit(s[i])
    ensures Lower(s) == s
  {
  }

  lemma Spelled(hex: string)
    requires IsHex(hex) && hex != ""
    ensures IsText(Some("0x" + hex), hex)
  {
    LowerIsIdentity(hex);
    assert ("0x" + hex)[2..] == hex;
  }

  lemma TrailerBehind(y: string)
    requires IsHex(y) && y != "" && 'a' !in y
    ensures CreationIs("0x" + y + TRAILER, TRAILER, y)
  {
    var back := y + TRAILER;
    assert "0x" + y + TRAILER == "0x" + back;
    Spelled(back);
    assert Occurs(back, TRAILER, |y|) && back[..|y|] + back[|y| + |TRAILER|..] == y;
  }

  lemma TrailerInFront(y: string)
    requires IsHex(y) && y != "" && 'a' !in y
    ensures CreationIs("0x" + TRAILER + y, TRAILER, y)
  {
    var front := TRAILER + y;
    assert "0x" + TRAILER + y == "0x" + front;
    Spelled(front);
    assert Occurs(front, TRAILER, 0) && front[..0] + front[|TRAILER|..] == y;
    forall k | Occurs(front, TRAILER, k)
      ensures k == 0
    {
      OnlyInFront(y, k);
    }
  }

  lemma OnlyInFront(y: string, k: nat)
    requires 'a' !in y && Occurs(TRAILER + y, TRAILER, k)
    ensures k == 0
  {
    var front := TRAILER + y;
    assert front[k] == front[k..k + |TRAILER|][0] == 'a';
    assert k < |TRAILER| && TRAILER[k] == 'a';
  }
}
