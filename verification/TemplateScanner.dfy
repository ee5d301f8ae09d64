/**
 * scripts/deps/check-dependency-hygiene.js: taking template literals out of a source text. The
 * original scans by index and looks ahead; here it is shown to be a machine that reads one character
 * at a time, and its laws follow from that.
 */
module TemplateScanner {

  const BACKSLASH := '\\'
  const BACKTICK := '`'

  // ---------------------------------------------------------------- the machine

  /** `depth` counts the open substitutions; `dollar` says that the last character was a dollar sign. */
  datatype State = Outside | Escaped | Inside(depth: nat, dollar: bool) | InsideEscaped(depth: nat)

  function Next(q: State, c: char): State {
    match q
    case Outside => if c == BACKSLASH then Escaped else if c == BACKTICK then Inside(0, false) else Outside
    case Escaped => Outside
    case InsideEscaped(depth) => Inside(depth, false)
    case Inside(depth, dollar) =>
      if c == BACKSLASH then InsideEscaped(depth)
      else if c == '{' && dollar then Inside(depth + 1, false)
      else if c == '}' && depth > 0 then Inside(depth - 1, false)
      else if c == BACKTICK && depth == 0 then Outside
      else Inside(depth, c == '$')
  }

  function Emit(q: State, c: char): string {
    if q != Outside then "" else if c == BACKSLASH then "  " else if c == BACKTICK then "" else [c]
  }

  function Output(s: string, q: State): string {
    if s == "" then "" else Emit(q, s[0]) + Output(s[1..], Next(q, s[0]))
  }

  function End(s: string, q: State): State {
    if s == "" then q else End(s[1..], Next(q, s[0]))
  }

  lemma {:induction false} OutputConcat(s: string, t: string, q: State)
    ensures Output(s + t, q) == Output(s, q) + Output(t, End(s, q))
  {
    if s == "" {
      assert s + t == t;
    } else {
      var u := s + t;
      var q' := Next(q, s[0]);
      OutputConcat(s[1..], t, q');
      assert u[0] == s[0] && u[1..] == s[1..] + t;
      Associates(Emit(q, s[0]), Output(s[1..], q'), Output(t, End(s[1..], q')));
    }
  }

  lemma Associates(a: string, b: string, c: string)
    ensures a + (b + c) == (a + b) + c
  {
  }

  // ---------------------------------------------------------------- the scanner

  /** The output from index `i` on; a skipped pair may have put `i` one past the end. */
  function At(s: string, i: nat, q: State): string
    decreases |s| - i
  {
    if i >= |s| then "" else Emit(q, s[i]) + At(s, i + 1, Next(q, s[i]))
  }

  lemma {:induction false} AtIsOutput(s: string, i: nat, q: State)
    requires i <= |s|
    ensures At(s, i, q) == Output(s[i..], q)
    decreases |s| - i
  {
    if i < |s| {
      AtIsOutput(s, i + 1, Next(q, s[i]));
      assert s[i..][1..] == s[i + 1..];
    }
  }

  /** Nothing is emitted inside a template. */
  lemma InsideStep(s: string, i: nat, q: State)
    requires i < |s| && !q.Outside?
    ensures At(s, i, q) == At(s, i + 1, Next(q, s[i]))
  {
    assert At(s, i, q) == "" + At(s, i + 1, Next(q, s[i]));
  }

  /** After a backslash the second character, if there is one, has no effect. */
  lemma PairOutside(s: string, i: nat)
    requires i < |s| && s[i] == BACKSLASH
    ensures At(s, i, Outside) == "  " + At(s, i + 2, Outside)
  {
    if i + 1 < |s| {
      InsideStep(s, i + 1, Escaped);
    }
  }

  lemma PairInside(s: string, i: nat, depth: nat)
    requires i < |s| && s[i] == BACKSLASH
    ensures At(s, i, Inside(depth, false)) == At(s, i + 2, Inside(depth, false))
  {
    InsideStep(s, i, Inside(depth, false));
    if i + 1 < |s| {
      InsideStep(s, i + 1, InsideEscaped(depth));
    }
  }

  lemma Substitution(s: string, i: nat, depth: nat)
    requires i + 1 < |s| && s[i] == '$' && s[i + 1] == '{'
    ensures At(s, i, Inside(depth, false)) == At(s, i + 2, Inside(depth + 1, false))
  {
    InsideStep(s, i, Inside(depth, false));
    InsideStep(s, i + 1, Inside(depth, true));
  }

  /** Any other character inside; a dollar sign is only remembered for an opening brace. */
  lemma Passed(s: string, i: nat, depth: nat)
    requires i < |s| && s[i] != BACKSLASH && !(s[i] == '}' && depth > 0) && !(s[i] == BACKTICK && depth == 0)
    requires s[i] == '$' ==> i + 1 >= |s| || s[i + 1] != '{'
    ensures At(s, i, Inside(depth, false)) == At(s, i + 1, Inside(depth, false))
  {
    InsideStep(s, i, Inside(depth, false));
    if i + 1 < |s| {
      InsideStep(s, i + 1, Inside(depth, true));
      InsideStep(s, i + 1, Inside(depth, false));
    }
  }

  lemma Emitted(src: string, i: nat, out: string)
    requires i < |src| && src[i] != BACKSLASH && src[i] != BACKTICK
    ensures out + At(src, i, Outside) == (out + [src[i]]) + At(src, i + 1, Outside)
  {
    Associates(out, [src[i]], At(src, i + 1, Outside));
  }

  lemma EmittedPair(src: string, i: nat, out: string)
    requires i < |src| && src[i] == BACKSLASH
    ensures out + At(src, i, Outside) == (out + "  ") + At(src, i + 2, Outside)
  {
    PairOutside(src, i);
    Associates(out, "  ", At(src, i + 2, Outside));
  }

  lemma Opened(src: string, i: nat)
    requires i < |src| && src[i] == BACKTICK
    ensures At(src, i, Outside) == At(src, i + 1, Inside(0, false))
  {
    assert At(src, i, Outside) == "" + At(src, i + 1, Inside(0, false));
  }

  /** stripTemplateLiterals: the index loops compute the machine's output. */
  method StripTemplateLiterals(src: string) returns (out: string)
    ensures out == Output(src, Outside)
  {
    AtIsOutput(src, 0, Outside);
    assert src[0..] == src;
    out := "";
    var i: nat := 0;
    while i < |src|
      invariant At(src, 0, Outside) == out + At(src, i, Outside)
      decreases |src| - i
    {
      var ch := src[i];
      if ch == BACKSLASH {
        EmittedPair(src, i, out);
        out := out + "  ";
        i := i + 2;
        continue;
      }
      if ch == BACKTICK {
        Opened(src, i);
        i := SkipTemplate(src, i + 1);
        continue;
      }
      Emitted(src, i, out);
      out := out + [ch];
      i := i + 1;
    }
  }

  /** The inner loop, from behind an opening backtick to behind the closing one or past the end. */
  method SkipTemplate(src: string, start: nat) returns (i: nat)
    ensures i >= start
    ensures At(src, start, Inside(0, false)) == At(src, i, Outside)
  {
    i := start;
    var depth: nat := 0;
    while i < |src|
      invariant i >= start
      invariant At(src, start, Inside(0, false)) == At(src, i, Inside(depth, false))
      decreases |src| - i
    {
      if src[i] == BACKSLASH {
        PairInside(src, i, depth);
        i := i + 2;
        continue;
      }
      if src[i] == '$' && i + 1 < |src| && src[i + 1] == '{' {
        Substitution(src, i, depth);
        depth := depth + 1;
        i := i + 2;
        continue;
      }
      if src[i] == '}' && depth > 0 {
        InsideStep(src, i, Inside(depth, false));
        depth := depth - 1;
        i := i + 1;
        continue;
      }
      if src[i] == BACKTICK && depth == 0 {
        InsideStep(src, i, Inside(depth, false));
        i := i + 1;
        return;
      }
      Passed(src, i, depth);
      i := i + 1;
    }
  }

  // ---------------------------------------------------------------- laws

  /** Scanning two texts apart is scanning them together, whatever follows, exactly when the first ends outside. */
  lemma SplitsExactly(s: string)
    ensures (forall t :: Output(s + t, Outside) == Output(s, Outside) + Output(t, Outside))
            <==> End(s, Outside) == Outside
  {
    if End(s, Outside) == Outside {
      forall t
        ensures Output(s + t, Outside) == Output(s, Outside) + Output(t, Outside)
      {
        OutputConcat(s, t, Outside);
      }
    } else {
      var t := "x";
      OutputConcat(s, t, Outside);
      assert t[1..] == "";
      assert Output(t, Outside) == "x" && Output(t, End(s, Outside)) == "";
      assert |Output(s + t, Outside)| == |Output(s, Outside)|;
      assert |Output(s, Outside) + Output(t, Outside)| == |Output(s, Outside)| + 1;
    }
  }

  /** The output holds no backtick and no backslash. */
  lemma {:induction false} OutputIsPlain(s: string, q: State)
    ensures BACKTICK !in Output(s, q) && BACKSLASH !in Output(s, q)
  {
    if s != "" {
      OutputIsPlain(s[1..], Next(q, s[0]));
    }
  }

  lemma {:induction false} PlainIsKept(s: string)
    requires BACKTICK !in s && BACKSLASH !in s
    ensures Output(s, Outside) == s
  {
    if s != "" {
      PlainIsKept(s[1..]);
      assert s == [s[0]] + s[1..];
    }
  }

  /** Idempotence, and its fixed points. */
  lemma StripTwice(s: string)
    ensures Output(Output(s, Outside), Outside) == Output(s, Outside)
    ensures Output(s, Outside) == s <==> BACKTICK !in s && BACKSLASH !in s
  {
    OutputIsPlain(s, Outside);
    PlainIsKept(Output(s, Outside));
    if BACKTICK !in s && BACKSLASH !in s {
      PlainIsKept(s);
    }
  }

  /** Every character is at its place or has become a space, and anything behind is a space. */
  ghost predicate InPlace(s: string, out: string) {
    |out| >= |s| && forall i | 0 <= i < |out| :: out[i] == ' ' || (i < |s| && out[i] == s[i])
  }

  /** The scan reads no character of `s` inside a template and does not end in one. */
  ghost predicate NeverInside(s: string) {
    forall n | 0 <= n <= |s| :: End(s[..n], Outside).Outside? || End(s[..n], Outside).Escaped?
  }

  function TrailingBackslashes(s: string): nat {
    if s == "" || s[|s| - 1] != BACKSLASH then 0 else 1 + TrailingBackslashes(s[..|s| - 1])
  }

  /** An odd run of backslashes stands before every backtick. */
  ghost predicate BackticksEscaped(s: string) {
    forall i | 0 <= i < |s| && s[i] == BACKTICK :: TrailingBackslashes(s[..i]) % 2 == 1
  }

  lemma {:induction false} EndSnoc(s: string, c: char, q: State)
    ensures End(s + [c], q) == Next(End(s, q), c)
  {
    var t := s + [c];
    if s == "" {
      assert t[1..] == "";
    } else {
      assert t[1..] == s[1..] + [c];
      EndSnoc(s[1..], c, Next(q, s[0]));
    }
  }

  lemma OutputSnoc(s: string, c: char)
    ensures Output(s + [c], Outside) == Output(s, Outside) + Emit(End(s, Outside), c)
  {
    OutputConcat(s, [c], Outside);
    assert [c][1..] == "";
    assert Output([c], End(s, Outside)) == Emit(End(s, Outside), c);
  }

  lemma NeverInsideSnoc(s: string, c: char)
    ensures var q := End(s + [c], Outside); NeverInside(s + [c]) <==> NeverInside(s) && (q.Outside? || q.Escaped?)
  {
    var t := s + [c];
    assert t[..|t|] == t;
    assert forall n | 0 <= n <= |s| :: t[..n] == s[..n];
  }

  lemma EscapedSnoc(s: string, c: char)
    ensures BackticksEscaped(s + [c]) <==>
            BackticksEscaped(s) && (c == BACKTICK ==> TrailingBackslashes(s) % 2 == 1)
  {
    var t := s + [c];
    assert t[|s|] == c && t[..|s|] == s;
    assert forall i | 0 <= i < |s| :: t[i] == s[i] && t[..i] == s[..i];
  }

  /** The scan stays outside exactly when every backtick is escaped; an odd run of backslashes leaves one pending. */
  lemma {:induction false} NeverInsideExactly(s: string)
    ensures NeverInside(s) <==> BackticksEscaped(s)
    ensures NeverInside(s) ==> (End(s, Outside) == Escaped <==> TrailingBackslashes(s) % 2 == 1)
  {
    if s != "" {
      var front, last := s[..|s| - 1], s[|s| - 1];
      assert s == front + [last];
      assert front[..|front|] == front;
      NeverInsideExactly(front);
      NeverInsideSnoc(front, last);
      EscapedSnoc(front, last);
      EndSnoc(front, last, Outside);
    }
  }

  /** A template entered costs at least one character, and one more when it is closed. */
  lemma {:induction false} LengthExactly(s: string)
    ensures var q := End(s, Outside);
            && (NeverInside(s) ==> |Output(s, Outside)| == |s| + if q == Escaped then 1 else 0)
            && (!NeverInside(s) && q == Outside ==> |Output(s, Outside)| <= |s| - 2)
            && (!NeverInside(s) && q != Outside ==> |Output(s, Outside)| < |s|)
  {
    if s != "" {
      var front, last := s[..|s| - 1], s[|s| - 1];
      assert s == front + [last];
      assert front[..|front|] == front;
      LengthExactly(front);
      NeverInsideSnoc(front, last);
      EndSnoc(front, last, Outside);
      OutputSnoc(front, last);
    }
  }

  lemma {:induction false} KeptInPlace(s: string)
    requires NeverInside(s)
    ensures InPlace(s, Output(s, Outside))
  {
    LengthExactly(s);
    if s != "" {
      var front, last := s[..|s| - 1], s[|s| - 1];
      assert s == front + [last];
      assert front[..|front|] == front;
      NeverInsideSnoc(front, last);
      KeptInPlace(front);
      LengthExactly(front);
      EndSnoc(front, last, Outside);
      OutputSnoc(front, last);
    }
  }

  /**
   * Offsets are kept exactly when the scan never enters a template, that is when every backtick is
   * escaped; the output is then as long as the text, or one longer after a backslash at its very end.
   */
  lemma OffsetsExactly(s: string)
    ensures InPlace(s, Output(s, Outside)) <==> NeverInside(s)
    ensures NeverInside(s) <==> BackticksEscaped(s)
    ensures NeverInside(s) ==>
            |Output(s, Outside)| == |s| + if TrailingBackslashes(s) % 2 == 1 then 1 else 0
  {
    NeverInsideExactly(s);
    LengthExactly(s);
    if NeverInside(s) {
      KeptInPlace(s);
    }
  }
}
