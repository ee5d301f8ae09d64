/**
 * scripts/deps/check-dependency-hygiene.js: what the template scanner makes of a text, told by the
 * structure of the text instead of by a machine.
 */
module TemplateGrammar {
  import opened TemplateScanner

  /** A piece of a template or of a substitution: a character, an escaped one, or a substitution. */
  datatype Bit = Chr(c: char) | Esc(c: char) | Sub(body: seq<Bit>)

  function WriteBit(b: Bit): string
    decreases b
  {
    match b
    case Chr(c) => [c]
    case Esc(c) => [BACKSLASH, c]
    case Sub(body) => "${" + WriteBits(body) + "}"
  }

  function WriteBits(bits: seq<Bit>): string
    decreases bits
  {
    if bits == [] then "" else WriteBits(bits[..|bits| - 1]) + WriteBit(bits[|bits| - 1])
  }

  /**
   * A backtick ends a template and a closing brace a substitution, unless escaped; inside a substitution
   * a backtick is like any character. A dollar sign before an opening brace is always a substitution.
   */
  predicate BitOk(b: Bit, end: char)
    decreases b
  {
    match b
    case Chr(c) => c != BACKSLASH && c != end
    case Esc(_) => true
    case Sub(body) => BitsOk(body, '}')
  }

  predicate BitsOk(bits: seq<Bit>, end: char)
    decreases bits
  {
    bits != [] ==>
      && BitsOk(bits[..|bits| - 1], end) && BitOk(bits[|bits| - 1], end)
      && !(EndsInDollar(bits[..|bits| - 1]) && bits[|bits| - 1] == Chr('{'))
  }

  predicate EndsInDollar(bits: seq<Bit>) {
    bits != [] && bits[|bits| - 1] == Chr('$')
  }

  /** Nothing is emitted, and the scan is back at this depth. */
  ghost predicate Skips(s: string, q: State, q': State) {
    Output(s, q) == "" && End(s, q) == q'
  }

  lemma {:induction false} EndConcat(s: string, t: string, q: State)
    ensures End(s + t, q) == End(t, End(s, q))
  {
    if s == "" {
      assert s + t == t;
    } else {
      assert (s + t)[0] == s[0] && (s + t)[1..] == s[1..] + t;
      EndConcat(s[1..], t, Next(q, s[0]));
    }
  }

  lemma SkipsBoth(s: string, t: string, q: State, q': State, q'': State)
    requires Skips(s, q, q') && Skips(t, q', q'')
    ensures Skips(s + t, q, q'')
  {
    OutputConcat(s, t, q);
    EndConcat(s, t, q);
  }

  lemma OneCharacter(c: char, q: State)
    ensures Output([c], q) == Emit(q, c) && End([c], q) == Next(q, c)
  {
    assert [c][1..] == "";
    assert End("", Next(q, c)) == Next(q, c) && Output("", Next(q, c)) == "";
  }

  lemma SkipsOne(c: char, q: State)
    requires !q.Outside?
    ensures Skips([c], q, Next(q, c))
  {
    OneCharacter(c, q);
  }

  /** What ends the level the scan is in. */
  predicate Ends(depth: nat, end: char) {
    if depth == 0 then end == BACKTICK else end == '}'
  }

  lemma {:induction false} BitSkipped(b: Bit, depth: nat, dollar: bool, end: char)
    requires BitOk(b, end) && Ends(depth, end) && !(dollar && b == Chr('{'))
    ensures Skips(WriteBit(b), Inside(depth, dollar), Inside(depth, b == Chr('$')))
    decreases b
  {
    match b
    case Chr(c) => SkipsOne(c, Inside(depth, dollar));
    case Esc(c) =>
      SkipsOne(BACKSLASH, Inside(depth, dollar));
      SkipsOne(c, InsideEscaped(depth));
      SkipsBoth([BACKSLASH], [c], Inside(depth, dollar), InsideEscaped(depth), Inside(depth, false));
      assert [BACKSLASH] + [c] == WriteBit(b);
    case Sub(body) =>
      BitsSkipped(body, depth + 1, '}');
      Opens(depth, dollar);
      Closes(WriteBits(body), depth, EndsInDollar(body));
      SkipsBoth("$" + "{", WriteBits(body) + "}", Inside(depth, dollar), Inside(depth + 1, false),
                Inside(depth, false));
      assert ("$" + "{") + (WriteBits(body) + "}") == WriteBit(b);
  }

  lemma Opens(depth: nat, dollar: bool)
    ensures Skips("$" + "{", Inside(depth, dollar), Inside(depth + 1, false))
  {
    SkipsOne('$', Inside(depth, dollar));
    SkipsOne('{', Inside(depth, true));
    SkipsBoth("$", "{", Inside(depth, dollar), Inside(depth, true), Inside(depth + 1, false));
  }

  lemma Closes(body: string, depth: nat, dollar: bool)
    requires Skips(body, Inside(depth + 1, false), Inside(depth + 1, dollar))
    ensures Skips(body + "}", Inside(depth + 1, false), Inside(depth, false))
  {
    SkipsOne('}', Inside(depth + 1, dollar));
    SkipsBoth(body, "}", Inside(depth + 1, false), Inside(depth + 1, dollar), Inside(depth, false));
  }

  lemma {:induction false} BitsSkipped(bits: seq<Bit>, depth: nat, end: char)
    requires BitsOk(bits, end) && Ends(depth, end)
    ensures Skips(WriteBits(bits), Inside(depth, false), Inside(depth, EndsInDollar(bits)))
    decreases bits
  {
    if bits != [] {
      var front, last := bits[..|bits| - 1], bits[|bits| - 1];
      BitsSkipped(front, depth, end);
      BitSkipped(last, depth, EndsInDollar(front), end);
      SkipsBoth(WriteBits(front), WriteBit(last), Inside(depth, false), Inside(depth, EndsInDollar(front)),
                Inside(depth, EndsInDollar(bits)));
    }
  }

  /** A piece of a source text: a character, an escaped one, or a whole template. */
  datatype Piece = Plain(c: char) | Pair(c: char) | Template(bits: seq<Bit>)

  predicate PieceOk(p: Piece) {
    match p
    case Plain(c) => c != BACKSLASH && c != BACKTICK
    case Pair(_) => true
    case Template(bits) => BitsOk(bits, BACKTICK)
  }

  function WritePiece(p: Piece): string {
    match p
    case Plain(c) => [c]
    case Pair(c) => [BACKSLASH, c]
    case Template(bits) => [BACKTICK] + WriteBits(bits) + [BACKTICK]
  }

  function Write(ps: seq<Piece>): string {
    if ps == [] then "" else Write(ps[..|ps| - 1]) + WritePiece(ps[|ps| - 1])
  }

  /** What is left of a text: its characters, two blanks for an escaped one, nothing of a template. */
  function Left(ps: seq<Piece>): string {
    if ps == [] then ""
    else
      Left(ps[..|ps| - 1])
      + match ps[|ps| - 1]
        case Plain(c) => [c]
        case Pair(_) => "  "
        case Template(_) => ""
  }

  lemma TemplateSkipped(bits: seq<Bit>)
    requires BitsOk(bits, BACKTICK)
    ensures Skips([BACKTICK] + WriteBits(bits), Outside, Inside(0, EndsInDollar(bits)))
    ensures Skips(WritePiece(Template(bits)), Outside, Outside)
  {
    OneCharacter(BACKTICK, Outside);
    BitsSkipped(bits, 0, BACKTICK);
    var open := [BACKTICK] + WriteBits(bits);
    SkipsBoth([BACKTICK], WriteBits(bits), Outside, Inside(0, false), Inside(0, EndsInDollar(bits)));
    SkipsOne(BACKTICK, Inside(0, EndsInDollar(bits)));
    SkipsBoth(open, [BACKTICK], Outside, Inside(0, EndsInDollar(bits)), Outside);
  }

  lemma PieceLeft(p: Piece)
    requires PieceOk(p)
    ensures Output(WritePiece(p), Outside) == Left([p]) && End(WritePiece(p), Outside) == Outside
  {
    assert [p][..0] == [];
    assert Left([p][..0]) == "";
    match p
    case Plain(c) => OneCharacter(c, Outside);
    case Pair(c) =>
      OneCharacter(BACKSLASH, Outside);
      OneCharacter(c, Escaped);
      OutputConcat([BACKSLASH], [c], Outside);
      EndConcat([BACKSLASH], [c], Outside);
      assert [BACKSLASH] + [c] == WritePiece(p);
    case Template(bits) => TemplateSkipped(bits);
  }

  /**
   * The scanner takes out exactly the templates, whatever is nested in them, and blanks escaped
   * characters; a template that is never closed takes the rest of the text with it.
   */
  lemma {:induction false} TemplatesTakenOut(ps: seq<Piece>)
    requires forall p | p in ps :: PieceOk(p)
    ensures Output(Write(ps), Outside) == Left(ps) && End(Write(ps), Outside) == Outside
    ensures forall bits | BitsOk(bits, BACKTICK) ::
              Output(Write(ps) + ([BACKTICK] + WriteBits(bits)), Outside) == Left(ps)
  {
    if ps != [] {
      var front, last := ps[..|ps| - 1], ps[|ps| - 1];
      TemplatesTakenOut(front);
      PieceLeft(last);
      assert [last][..0] == [];
      assert Left(ps) == Left(front) + Left([last]);
      OutputConcat(Write(front), WritePiece(last), Outside);
      EndConcat(Write(front), WritePiece(last), Outside);
    }
    forall bits | BitsOk(bits, BACKTICK)
      ensures Output(Write(ps) + ([BACKTICK] + WriteBits(bits)), Outside) == Left(ps)
    {
      TemplateSkipped(bits);
      OutputConcat(Write(ps), [BACKTICK] + WriteBits(bits), Outside);
    }
  }
}
