/**
 * The metadata decoder of scripts/codegen/compare-stripped.js and, beside it, the language it is
 * meant to accept: a fragment of RFC 8949 section 3 with definite-length heads of one, two or
 * three bytes, and one non-empty map of at most eight text keys.
 *
 * The decoder is written over a reader of heads, so what the cursor does with heads and what the
 * bytes of a head mean are reasoned about apart.
 */
module Cbor {
  import opened Hex

  // ---------------------------------------------------------------- the language

  /** How a head spells its argument. Longer forms than necessary are legal here. */
  datatype Form = Tiny | OneByte | TwoByte {
    function Width(): nat { match this case Tiny => 0 case OneByte => 1 case TwoByte => 2 }
  }

  /** The big-endian bytes of an argument. */
  function Argument(width: nat, value: nat): (b: seq<byte>)
    ensures |b| == width
  {
    if width == 0 then [] else Argument(width - 1, value / 256) + [value % 256]
  }

  datatype Head = Head(form: Form, value: nat) {
    predicate Fits() {
      match form case Tiny => value < 24 case OneByte => value < 0x100 case TwoByte => value < 0x1_0000
    }

    function Size(): nat { 1 + form.Width() }

    function Encode(major: nat): (b: seq<byte>)
      requires major < 8 && Fits()
      ensures |b| == Size()
    {
      var info := if form.Tiny? then value else 23 + form.Width();
      [32 * major + info] + Argument(form.Width(), value)
    }
  }

  /** A head byte by byte: the major type in the top three bits, then the value or its length, high byte first. */
  lemma HeadBytes(h: Head, major: nat)
    requires major < 8 && h.Fits()
    ensures h.form.Tiny? ==> h.Encode(major) == [32 * major + h.value]
    ensures h.form.OneByte? ==> h.Encode(major) == [32 * major + 24, h.value]
    ensures h.form.TwoByte? ==> h.Encode(major) == [32 * major + 25, h.value / 256, h.value % 256]
  {
    assert Argument(0, 0) == [] && Argument(0, h.value) == [];
    if h.form.OneByte? {
      assert Argument(1, h.value) == Argument(0, h.value / 256) + [h.value % 256];
    } else if h.form.TwoByte? {
      assert Argument(1, h.value / 256) == Argument(0, h.value / 256 / 256) + [h.value / 256 % 256];
      assert Argument(2, h.value) == Argument(1, h.value / 256) + [h.value % 256];
    }
  }

  /** A definite-length string: a head that counts the content, then the content. */
  datatype Str = Str(form: Form, content: seq<byte>) {
    function Header(): Head { Head(form, |content|) }

    function Size(): nat { Header().Size() + |content| }

    function Encode(major: nat): (b: seq<byte>)
      requires major < 8 && Header().Fits()
      ensures |b| == Size()
    {
      Header().Encode(major) + content
    }
  }

  datatype Value = ByteString(str: Str) | TextString(str: Str) | Simple(head: Head) {
    function Major(): nat { match this case ByteString(_) => 2 case TextString(_) => 3 case Simple(_) => 7 }

    function Header(): Head { if Simple? then head else str.Header() }

    function Size(): nat { if Simple? then head.Size() else str.Size() }

    predicate Fits() { Header().Fits() }

    function Encode(): (b: seq<byte>)
      requires Fits()
      ensures |b| == Size()
    {
      if Simple? then head.Encode(7) else str.Encode(Major())
    }
  }

  datatype Entries = End | More(key: Str, value: Value, rest: Entries) {
    function Count(): nat { if End? then 0 else 1 + rest.Count() }

    function Size(): nat { if End? then 0 else key.Size() + value.Size() + rest.Size() }

    predicate Fits() { More? ==> key.Header().Fits() && value.Fits() && rest.Fits() }

    function Encode(): (b: seq<byte>)
      requires Fits()
      ensures |b| == Size()
    {
      if End? then [] else key.Encode(3) + (value.Encode() + rest.Encode())
    }
  }

  datatype MetaMap = MetaMap(form: Form, entries: Entries) {
    function Header(): Head { Head(form, entries.Count()) }

    function Size(): nat { Header().Size() + entries.Size() }

    predicate Valid() { 1 <= entries.Count() <= 8 && Header().Fits() && entries.Fits() }

    function Encode(): (b: seq<byte>)
      requires Valid()
      ensures |b| == Size()
    {
      Header().Encode(5) + entries.Encode()
    }
  }

  ghost predicate IsMap(b: seq<byte>) {
    exists m: MetaMap :: m.Valid() && m.Encode() == b
  }

  // ---------------------------------------------------------------- the decoder

  datatype HeadError = PastLimit | Truncated(width: nat) | UnsupportedInfo(info: nat)

  datatype HeadRead = HeadRead(major: nat, value: nat, next: nat) | BadHead(error: HeadError)

  datatype DecodeError =
    | BadMapHead(head: HeadError)
    | NotAMap(major: nat)
    | ImplausibleCount(count: nat)
    | BadKeyHead(i: nat, head: HeadError)
    | KeyNotText(i: nat, major: nat)
    | KeyOverruns(i: nat)
    | BadValueHead(i: nat, head: HeadError)
    | ValueMajor(i: nat, major: nat)
    | ValueOverruns(i: nat)

  datatype Decoded = Ok(value: nat) | Err(error: DecodeError)

  /** The number spelled by the width bytes that start at `at`. */
  function Number(b: seq<byte>, at: nat, width: nat): nat
    requires at + width <= |b|
  {
    if width == 0 then 0 else Number(b, at, width - 1) * 256 + b[at + width - 1] as int
  }

  function ReadHead(b: seq<byte>, at: nat, limit: nat): HeadRead
    requires limit <= |b|
  {
    if at >= limit then BadHead(PastLimit)
    else
      var major, info := b[at] / 32, b[at] % 32;
      if info > 25 then BadHead(UnsupportedInfo(info))
      else
        var width := if info < 24 then 0 else info - 23;
        if at + width >= limit then BadHead(Truncated(width))
        else HeadRead(major, if width == 0 then info else Number(b, at + 1, width), at + 1 + width)
  }

  type Reader = nat -> HeadRead

  function HeadsOf(b: seq<byte>, limit: nat): Reader
    requires limit <= |b|
  {
    (at: nat) => ReadHead(b, at, limit)
  }

  /** The reader delivers the heads of b. Looked up only where a head's bytes are at issue. */
  ghost predicate Faithful(heads: Reader, b: seq<byte>, limit: nat) {
    && limit <= |b|
    && forall at: nat {:trigger ReadHead(b, at, limit)} :: heads(at) == ReadHead(b, at, limit)
  }

  /** Reads the last `left` of `pairs` entries, from the key at p; answers where they end. */
  function ReadKey(heads: Reader, p: nat, limit: nat, left: nat, pairs: nat): (r: Decoded)
    requires left <= pairs
    decreases left, 1
  {
    if left == 0 then Ok(p)
    else
      match heads(p)
      case BadHead(e) => Err(BadKeyHead(pairs - left, e))
      case HeadRead(major, value, next) =>
        if major != 3 then Err(KeyNotText(pairs - left, major))
        else if next + value > limit then Err(KeyOverruns(pairs - left))
        else ReadValue(heads, next + value, limit, left, pairs)
  }

  function ReadValue(heads: Reader, p: nat, limit: nat, left: nat, pairs: nat): (r: Decoded)
    requires 0 < left <= pairs
    decreases left, 0
  {
    match heads(p)
    case BadHead(e) => Err(BadValueHead(pairs - left, e))
    case HeadRead(major, value, next) =>
      if major != 2 && major != 3 && major != 7 then Err(ValueMajor(pairs - left, major))
      else
        var q := if major == 7 then next else next + value;
        if q > limit then Err(ValueOverruns(pairs - left)) else ReadKey(heads, q, limit, left - 1, pairs)
  }

  /** The map at p; answers where it ends. */
  function ReadMap(heads: Reader, p: nat, limit: nat): Decoded {
    match heads(p)
    case BadHead(e) => Err(BadMapHead(e))
    case HeadRead(major, count, next) =>
      if major != 5 then Err(NotAMap(major))
      else if count == 0 || count > 8 then Err(ImplausibleCount(count))
      else ReadKey(heads, next, limit, count, count)
  }

  /** How many bytes the map at offset takes, reading nothing at or past offset + max. */
  function Consumed(b: seq<byte>, offset: nat, max: nat): Decoded
    requires offset + max <= |b|
  {
    var heads := HeadsOf(b, offset + max);
    match ReadMap(heads, offset, offset + max)
    case Ok(end) =>
      EndAhead(heads, offset, offset + max);
      Ok(end - offset)
    case Err(e) => Err(e)
  }

  /** A reader moves forward. */
  ghost predicate Advances(heads: Reader) {
    forall at: nat :: heads(at).HeadRead? ==> at < heads(at).next
  }

  lemma EndAhead(heads: Reader, p: nat, limit: nat)
    requires Advances(heads)
    ensures ReadMap(heads, p, limit).Ok? ==> p <= ReadMap(heads, p, limit).value
  {
    if ReadMap(heads, p, limit).Ok? {
      KeysAhead(heads, heads(p).next, limit, heads(p).value, heads(p).value);
    }
  }

  lemma {:induction false} KeysAhead(heads: Reader, p: nat, limit: nat, left: nat, pairs: nat)
    requires Advances(heads) && left <= pairs
    ensures ReadKey(heads, p, limit, left, pairs).Ok? ==> p <= ReadKey(heads, p, limit, left, pairs).value
    decreases left
  {
    if left > 0 && ReadKey(heads, p, limit, left, pairs).Ok? {
      var k := heads(p);
      var at := k.next + k.value;
      var v := heads(at);
      assert ReadKey(heads, p, limit, left, pairs) == ReadValue(heads, at, limit, left, pairs);
      KeysAhead(heads, if v.major == 7 then v.next else v.next + v.value, limit, left - 1, pairs);
    }
  }

  /** The decoder as it runs: one cursor moved past the map head and then past each key and value. */
  method ConsumedBytes(b: seq<byte>, offset: nat, max: nat) returns (r: Decoded)
    requires offset + max <= |b|
    ensures r == Consumed(b, offset, max)
  {
    var limit := offset + max;
    var head := HeadsOf(b, limit);
    EndAhead(head, offset, limit);
    r := Walk(head, offset, limit);
    if r.Ok? {
      r := Ok(r.value - offset);
    }
  }

  /** The cursor p, moved by the heads it meets. */
  method Walk(head: Reader, start: nat, limit: nat) returns (r: Decoded)
    ensures r == ReadMap(head, start, limit)
  {
    var p: nat := start;
    var m := head(p);
    if m.BadHead? {
      return Err(BadMapHead(m.error));
    }
    if m.major != 5 {
      return Err(NotAMap(m.major));
    }
    var pairs := m.value;
    if pairs == 0 || pairs > 8 {
      return Err(ImplausibleCount(pairs));
    }
    p := m.next;
    for i := 0 to pairs
      invariant ReadMap(head, start, limit) == ReadKey(head, p, limit, pairs - i, pairs)
    {
      var k := head(p);
      if k.BadHead? {
        return Err(BadKeyHead(i, k.error));
      }
      if k.major != 3 {
        return Err(KeyNotText(i, k.major));
      }
      p := k.next + k.value;
      if p > limit {
        return Err(KeyOverruns(i));
      }
      var v := head(p);
      if v.BadHead? {
        return Err(BadValueHead(i, v.error));
      }
      if v.major == 2 || v.major == 3 {
        p := v.next + v.value;
      } else if v.major == 7 {
        p := v.next;
      } else {
        return Err(ValueMajor(i, v.major));
      }
      if p > limit {
        return Err(ValueOverruns(i));
      }
    }
    return Ok(p);
  }

  // ---------------------------------------------------------------- the cursor, over any reader

  /** The reader finds head h of this major type at p exactly when it ends by the limit. */
  ghost predicate Sees(heads: Reader, p: nat, limit: nat, major: nat, h: Head) {
    && (p + h.Size() <= limit ==> heads(p) == HeadRead(major, h.value, p + h.Size()))
    && (p + h.Size() > limit ==> heads(p).BadHead?)
  }

  /** The entries lie at p, one after the other, as far as the limit lets the reader see. */
  ghost predicate Laid(es: Entries, heads: Reader, p: nat, limit: nat) {
    es.More? ==>
      && Sees(heads, p, limit, 3, es.key.Header())
      && Sees(heads, p + es.key.Size(), limit, es.value.Major(), es.value.Header())
      && Laid(es.rest, heads, p + es.key.Size() + es.value.Size(), limit)
  }

  lemma {:induction false} EntriesThreshold(es: Entries, heads: Reader, p: nat, limit: nat, pairs: nat)
    requires p <= limit && es.Count() <= pairs && Laid(es, heads, p, limit)
    ensures p + es.Size() <= limit ==> ReadKey(heads, p, limit, es.Count(), pairs) == Ok(p + es.Size())
    ensures p + es.Size() > limit ==> ReadKey(heads, p, limit, es.Count(), pairs).Err?
  {
    if es.More? {
      var left, at := es.Count(), p + es.key.Size();
      if at <= limit {
        assert ReadKey(heads, p, limit, left, pairs) == ReadValue(heads, at, limit, left, pairs);
        var q := at + es.value.Size();
        if q <= limit {
          assert ReadValue(heads, at, limit, left, pairs) == ReadKey(heads, q, limit, es.rest.Count(), pairs);
          EntriesThreshold(es.rest, heads, q, limit, pairs);
        }
      }
    }
  }

  lemma MapThreshold(m: MetaMap, heads: Reader, p: nat, limit: nat)
    requires p <= limit && 1 <= m.entries.Count() <= 8
    requires Sees(heads, p, limit, 5, m.Header()) && Laid(m.entries, heads, p + m.Header().Size(), limit)
    ensures p + m.Size() <= limit ==> ReadMap(heads, p, limit) == Ok(p + m.Size())
    ensures p + m.Size() > limit ==> ReadMap(heads, p, limit).Err?
  {
    if p + m.Header().Size() <= limit {
      EntriesThreshold(m.entries, heads, p + m.Header().Size(), limit, m.entries.Count());
    }
  }

  /** A successful reading, taken apart: what the reader saw at the key and at the value. */
  lemma FirstEntry(heads: Reader, p: nat, limit: nat, left: nat, pairs: nat) returns (at: nat, q: nat)
    requires 0 < left <= pairs && ReadKey(heads, p, limit, left, pairs).Ok?
    ensures heads(p).HeadRead? && heads(p).major == 3 && at == heads(p).next + heads(p).value <= limit
    ensures var v := heads(at);
            && v.HeadRead? && (v.major == 7 || 2 <= v.major <= 3)
            && q == (if v.major == 7 then v.next else v.next + v.value) && q <= limit
    ensures ReadKey(heads, p, limit, left, pairs) == ReadKey(heads, q, limit, left - 1, pairs)
  {
    at := heads(p).next + heads(p).value;
    assert ReadKey(heads, p, limit, left, pairs) == ReadValue(heads, at, limit, left, pairs);
    var v := heads(at);
    q := if v.major == 7 then v.next else v.next + v.value;
  }

  /** Readers that agree from some position on decode alike from there on. */
  lemma {:induction false} SameReader(f: Reader, g: Reader, from: nat, p: nat, limit: nat, left: nat, pairs: nat)
    requires left <= pairs && from <= p && Advances(f) && forall at: nat | from <= at :: f(at) == g(at)
    ensures ReadKey(f, p, limit, left, pairs) == ReadKey(g, p, limit, left, pairs)
    decreases left
  {
    if left > 0 {
      var k := f(p);
      assert k == g(p);
      if k.HeadRead? {
        var at := k.next + k.value;
        var v := f(at);
        assert v == g(at);
        if v.HeadRead? {
          SameReader(f, g, from, if v.major == 7 then v.next else v.next + v.value, limit, left - 1, pairs);
        }
        assert ReadValue(f, at, limit, left, pairs) == ReadValue(g, at, limit, left, pairs);
      }
    }
  }

  // ---------------------------------------------------------------- the bytes of the heads

  /** The bytes e stand at position p of b. */
  ghost predicate At(b: seq<byte>, p: nat, e: seq<byte>) {
    p + |e| <= |b| && b[p..p + |e|] == e
  }

  lemma AtConcat(b: seq<byte>, p: nat, e: seq<byte>, f: seq<byte>)
    requires At(b, p, e + f)
    ensures At(b, p, e) && At(b, p + |e|, f)
  {
    var w := b[p..p + |e + f|];
    assert b[p..p + |e|] == w[..|e|] == e;
    assert b[p + |e|..p + |e| + |f|] == w[|e|..] == f;
  }

  /** An argument's bytes spell its value. */
  lemma {:induction false} NumberOfArgument(b: seq<byte>, p: nat, width: nat, value: nat)
    requires At(b, p, Argument(width, value)) && value < Power(width)
    ensures Number(b, p, width) == value
  {
    if width > 0 {
      AtConcat(b, p, Argument(width - 1, value / 256), [value % 256]);
      assert b[p + width - 1..p + width][0] == value % 256;
      NumberOfArgument(b, p, width - 1, value / 256);
    }
  }

  function Power(width: nat): nat {
    if width == 0 then 1 else 256 * Power(width - 1)
  }

  lemma {:induction false} ArgumentOfNumber(b: seq<byte>, p: nat, width: nat)
    requires p + width <= |b|
    ensures Number(b, p, width) < Power(width)
    ensures b[p..p + width] == Argument(width, Number(b, p, width))
  {
    if width > 0 {
      ArgumentOfNumber(b, p, width - 1);
      var n, last: nat := Number(b, p, width - 1), b[p + width - 1];
      assert (n * 256 + last) / 256 == n && (n * 256 + last) % 256 == last;
      assert b[p..p + width] == b[p..p + width - 1] + [b[p + width - 1]];
    }
  }

  /** An encoded head is seen for exactly the limits that cover it. */
  lemma HeadSeen(h: Head, major: nat, b: seq<byte>, heads: Reader, p: nat, limit: nat)
    requires major < 8 && h.Fits() && Faithful(heads, b, limit) && At(b, p, h.Encode(major))
    ensures Sees(heads, p, limit, major, h)
  {
    var width := h.form.Width();
    var info := if h.form.Tiny? then h.value else 23 + width;
    AtConcat(b, p, [32 * major + info], Argument(width, h.value));
    assert b[p] == b[p..p + 1][0] == 32 * major + info;
    assert b[p] / 32 == major && b[p] % 32 == info;
    if !h.form.Tiny? {
      assert Power(1) == 0x100 && Power(2) == 0x1_0000;
      NumberOfArgument(b, p + 1, width, h.value);
    }
    assert heads(p) == ReadHead(b, p, limit);
  }

  lemma StrSeen(s: Str, major: nat, b: seq<byte>, heads: Reader, p: nat, limit: nat)
    requires major < 8 && s.Header().Fits() && Faithful(heads, b, limit) && At(b, p, s.Encode(major))
    ensures Sees(heads, p, limit, major, s.Header())
  {
    AtConcat(b, p, s.Header().Encode(major), s.content);
    HeadSeen(s.Header(), major, b, heads, p, limit);
  }

  lemma ValueSeen(v: Value, b: seq<byte>, heads: Reader, p: nat, limit: nat)
    requires v.Fits() && Faithful(heads, b, limit) && At(b, p, v.Encode())
    ensures Sees(heads, p, limit, v.Major(), v.Header())
  {
    if v.Simple? {
      HeadSeen(v.head, 7, b, heads, p, limit);
    } else {
      StrSeen(v.str, v.Major(), b, heads, p, limit);
    }
  }

  /** Encoded entries are laid out for the reader. */
  lemma {:induction false} EntriesLaid(es: Entries, b: seq<byte>, heads: Reader, p: nat, limit: nat)
    requires es.Fits() && Faithful(heads, b, limit) && At(b, p, es.Encode())
    ensures Laid(es, heads, p, limit)
  {
    if es.More? {
      var at := p + es.key.Size();
      EntryParts(es, b, p, at);
      StrSeen(es.key, 3, b, heads, p, limit);
      ValueSeen(es.value, b, heads, at, limit);
      EntriesLaid(es.rest, b, heads, at + es.value.Size(), limit);
    }
  }

  lemma EntryParts(es: Entries, b: seq<byte>, p: nat, at: nat)
    requires es.More? && es.Fits() && At(b, p, es.Encode()) && at == p + es.key.Size()
    ensures At(b, p, es.key.Encode(3)) && At(b, at, es.value.Encode())
    ensures At(b, at + es.value.Size(), es.rest.Encode())
  {
    AtConcat(b, p, es.key.Encode(3), es.value.Encode() + es.rest.Encode());
    AtConcat(b, at, es.value.Encode(), es.rest.Encode());
  }

  lemma EncodedThreshold(m: MetaMap, b: seq<byte>, heads: Reader, p: nat, limit: nat)
    requires m.Valid() && Faithful(heads, b, limit) && p <= limit && At(b, p, m.Encode())
    ensures p + m.Size() <= limit ==> ReadMap(heads, p, limit) == Ok(p + m.Size())
    ensures p + m.Size() > limit ==> ReadMap(heads, p, limit).Err?
  {
    AtConcat(b, p, m.Header().Encode(5), m.entries.Encode());
    HeadSeen(m.Header(), 5, b, heads, p, limit);
    EntriesLaid(m.entries, b, heads, p + m.Header().Size(), limit);
    MapThreshold(m, heads, p, limit);
  }

  /**
   * Exact threshold. Wherever an encoded map sits and whatever follows it, the decoder accepts it
   * for exactly the limits that cover it, and then reports its whole length.
   */
  lemma ExactThreshold(m: MetaMap, b: seq<byte>, offset: nat, max: nat)
    requires m.Valid() && offset + max <= |b| && At(b, offset, m.Encode())
    ensures |m.Encode()| <= max ==> Consumed(b, offset, max) == Ok(|m.Encode()|)
    ensures |m.Encode()| > max ==> Consumed(b, offset, max).Err?
  {
    EncodedThreshold(m, b, HeadsOf(b, offset + max), offset, offset + max);
  }

  /** Every head of b is the encoding of a head. */
  lemma HeadOf(b: seq<byte>, p: nat, limit: nat) returns (h: Head)
    requires limit <= |b| && ReadHead(b, p, limit).HeadRead?
    ensures var r := ReadHead(b, p, limit);
            && h.Fits() && h.value == r.value && r.major < 8
            && p < r.next <= limit && b[p..r.next] == h.Encode(r.major)
  {
    var r := ReadHead(b, p, limit);
    var info := b[p] % 32;
    var width: nat := if info < 24 then 0 else info - 23;
    assert b[p] == 32 * r.major + info;
    h := Head(if info < 24 then Tiny else if info == 24 then OneByte else TwoByte, r.value);
    ArgumentOfNumber(b, p + 1, width);
    assert Power(1) == 0x100 && Power(2) == 0x1_0000;
    assert b[p..r.next] == [b[p]] + b[p + 1..p + 1 + width];
  }

  lemma HeadSpelled(b: seq<byte>, heads: Reader, p: nat, limit: nat) returns (h: Head)
    requires Faithful(heads, b, limit) && heads(p).HeadRead?
    ensures var r := heads(p);
            && h.Fits() && h.value == r.value && r.major < 8
            && p < r.next <= limit && b[p..r.next] == h.Encode(r.major)
  {
    assert heads(p) == ReadHead(b, p, limit);
    h := HeadOf(b, p, limit);
  }

  /** A string item, from the head that was read to the end of its content. */
  lemma StrSpelled(b: seq<byte>, heads: Reader, p: nat, limit: nat) returns (s: Str)
    requires Faithful(heads, b, limit) && heads(p).HeadRead? && heads(p).next + heads(p).value <= limit
    ensures var r := heads(p);
            && r.major < 8 && s.Header().Fits() && p < r.next
            && b[p..r.next + r.value] == s.Encode(r.major)
  {
    var r := heads(p);
    var h := HeadSpelled(b, heads, p, limit);
    s := Str(h.form, b[r.next..r.next + r.value]);
    assert s.Header() == h;
    assert b[p..r.next] + b[r.next..r.next + r.value] == b[p..r.next + r.value];
  }

  lemma ValueSpelled(b: seq<byte>, heads: Reader, p: nat, q: nat, limit: nat) returns (v: Value)
    requires Faithful(heads, b, limit) && heads(p).HeadRead? && q <= limit
    requires if heads(p).major == 7 then q == heads(p).next
             else 2 <= heads(p).major <= 3 && q == heads(p).next + heads(p).value
    ensures p < q && v.Fits() && b[p..q] == v.Encode()
  {
    if heads(p).major == 7 {
      var h := HeadSpelled(b, heads, p, limit);
      v := Simple(h);
    } else {
      var s := StrSpelled(b, heads, p, limit);
      v := if heads(p).major == 2 then ByteString(s) else TextString(s);
    }
  }

  lemma {:induction false} EntriesSpelled(b: seq<byte>, heads: Reader, p: nat, limit: nat,
    left: nat, pairs: nat, end: nat)
    returns (es: Entries)
    requires Faithful(heads, b, limit) && p <= limit && left <= pairs
    requires ReadKey(heads, p, limit, left, pairs) == Ok(end)
    ensures es.Count() == left && es.Fits() && p <= end <= limit && b[p..end] == es.Encode()
    decreases left
  {
    if left == 0 {
      es := End;
    } else {
      var at, q := FirstEntry(heads, p, limit, left, pairs);
      var key := StrSpelled(b, heads, p, limit);
      var value := ValueSpelled(b, heads, at, q, limit);
      var rest := EntriesSpelled(b, heads, q, limit, left - 1, pairs, end);
      es := More(key, value, rest);
      JoinThree(b, p, at, q, end);
    }
  }

  lemma JoinThree(b: seq<byte>, p: nat, q: nat, r: nat, s: nat)
    requires p <= q <= r <= s <= |b|
    ensures b[p..q] + (b[q..r] + b[r..s]) == b[p..s]
  {
  }

  lemma MapSpelled(b: seq<byte>, heads: Reader, p: nat, limit: nat, end: nat) returns (m: MetaMap)
    requires Faithful(heads, b, limit) && ReadMap(heads, p, limit) == Ok(end)
    ensures m.Valid() && p <= end <= limit && b[p..end] == m.Encode()
  {
    var r := heads(p);
    var h := HeadSpelled(b, heads, p, limit);
    var es := EntriesSpelled(b, heads, r.next, limit, r.value, r.value, end);
    m := MetaMap(h.form, es);
    assert m.Header() == h;
    assert b[p..r.next] + b[r.next..end] == b[p..end];
  }

  /** The decoder accepts with answer n exactly when the first n bytes, n within max, are one map. */
  lemma AcceptsExactly(b: seq<byte>, offset: nat, max: nat, n: nat)
    requires offset + max <= |b|
    ensures Consumed(b, offset, max) == Ok(n) <==> n <= max && IsMap(b[offset..offset + n])
  {
    if Consumed(b, offset, max) == Ok(n) {
      var heads := HeadsOf(b, offset + max);
      EndAhead(heads, offset, offset + max);
      var m := MapSpelled(b, heads, offset, offset + max, offset + n);
    }
    if n <= max && IsMap(b[offset..offset + n]) {
      var m: MetaMap :| m.Valid() && m.Encode() == b[offset..offset + n];
      ExactThreshold(m, b, offset, max);
    }
  }

  /** Only the window [offset, offset + max) matters, for refusals as much as for answers. */
  lemma WindowOnly(b: seq<byte>, c: seq<byte>, offset: nat, max: nat)
    requires offset + max <= |b| && offset + max <= |c|
    requires b[offset..offset + max] == c[offset..offset + max]
    ensures Consumed(b, offset, max) == Consumed(c, offset, max)
  {
    var limit := offset + max;
    var f, g := HeadsOf(b, limit), HeadsOf(c, limit);
    forall k | offset <= k < limit
      ensures b[k] == c[k]
    {
      assert b[offset..limit][k - offset] == c[offset..limit][k - offset];
    }
    forall at: nat | offset <= at
      ensures f(at) == g(at)
    {
      SameHead(b, c, offset, at, limit);
    }
    if f(offset).HeadRead? {
      SameReader(f, g, offset, f(offset).next, limit, f(offset).value, f(offset).value);
    }
  }

  lemma SameHead(b: seq<byte>, c: seq<byte>, from: nat, at: nat, limit: nat)
    requires limit <= |b| && limit <= |c| && from <= at
    requires forall k | from <= k < limit :: b[k] == c[k]
    ensures ReadHead(b, at, limit) == ReadHead(c, at, limit)
  {
    if at < limit {
      var info := b[at] % 32;
      if 24 <= info <= 25 && at + (info - 23) < limit {
        SameNumber(b, c, from, at + 1, info - 23, limit);
      }
    }
  }

  lemma {:induction false} SameNumber(b: seq<byte>, c: seq<byte>, from: nat, at: nat, width: nat, limit: nat)
    requires limit <= |b| && limit <= |c| && from <= at && at + width <= limit
    requires forall k | from <= k < limit :: b[k] == c[k]
    ensures Number(b, at, width) == Number(c, at, width)
  {
    if width > 0 {
      SameNumber(b, c, from, at, width - 1, limit);
    }
  }

  /** No accepted map is a proper prefix of another. */
  lemma PrefixFree(m: MetaMap, n: MetaMap)
    requires m.Valid() && n.Valid() && m.Encode() <= n.Encode()
    ensures m.Encode() == n.Encode()
  {
    var b := n.Encode();
    assert b[0..|b|] == b && b[0..|m.Encode()|] == m.Encode();
    ExactThreshold(n, b, 0, |b|);
    ExactThreshold(m, b, 0, |b|);
  }
}
