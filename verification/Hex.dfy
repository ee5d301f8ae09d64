/** Lower case, lower-case hex strings and the bytes they spell. */
module Hex {
  type byte = x: int | 0 <= x < 256

  function LowerChar(c: char): char {
    if 'A' <= c <= 'Z' then ((c as int) + 32) as char else c
  }

  function Lower(s: string): (t: string)
    ensures |t| == |s|
  {
    seq(|s|, i requires 0 <= i < |s| => LowerChar(s[i]))
  }

  predicate IsDigit(c: char) {
    '0' <= c <= '9' || 'a' <= c <= 'f'
  }

  /** Clean, even-length, lower-case hex: what the normaliser hands on. */
  predicate IsHex(s: string) {
    && |s| % 2 == 0
    && forall i | 0 <= i < |s| :: IsDigit(s[i])
  }

  function Digit(c: char): (v: nat)
    requires IsDigit(c)
    ensures v < 16
  {
    if c <= '9' then c as int - '0' as int else c as int - 'a' as int + 10
  }

  /** The byte spelled at byte position i. */
  function ByteAt(s: string, i: nat): byte
    requires IsHex(s) && i < |s| / 2
  {
    16 * Digit(s[2 * i]) + Digit(s[2 * i + 1])
  }

  function Bytes(s: string): (b: seq<byte>)
    requires IsHex(s)
    ensures |b| == |s| / 2
    ensures forall i | 0 <= i < |b| :: b[i] == ByteAt(s, i)
  {
    seq(|s| / 2, i requires 0 <= i < |s| / 2 => ByteAt(s, i))
  }

  /** Equal bytes means equal text: comparing hex strings compares byte strings. */
  lemma BytesInjective(s: string, t: string)
    requires IsHex(s) && IsHex(t)
    requires Bytes(s) == Bytes(t)
    ensures s == t
  {
    forall i | 0 <= i < |s|
      ensures s[i] == t[i]
    {
      var k := i / 2;
      assert Bytes(s)[k] == Bytes(t)[k];
      assert ByteAt(s, k) == ByteAt(t, k);
      assert i == 2 * k || i == 2 * k + 1;
      assert Digit(s[2 * k]) == Digit(t[2 * k]);
      assert Digit(s[2 * k + 1]) == Digit(t[2 * k + 1]);
    }
  }

  /** Cutting the text at a byte boundary cuts the bytes there. */
  lemma BytesSlice(s: string, lo: nat, hi: nat)
    requires IsHex(s) && lo <= hi && 2 * hi <= |s|
    ensures IsHex(s[2 * lo..2 * hi])
    ensures Bytes(s[2 * lo..2 * hi]) == Bytes(s)[lo..hi]
  {
    var t := s[2 * lo..2 * hi];
    assert |t| == 2 * (hi - lo);
    forall k | 0 <= k < hi - lo
      ensures Bytes(t)[k] == Bytes(s)[lo..hi][k]
    {
      assert t[2 * k] == s[2 * (lo + k)];
      assert t[2 * k + 1] == s[2 * (lo + k) + 1];
    }
  }

  lemma BytesConcat(s: string, t: string)
    requires IsHex(s) && IsHex(t)
    ensures IsHex(s + t)
    ensures Bytes(s + t) == Bytes(s) + Bytes(t)
  {
    forall i | 0 <= i < |s + t| / 2
      ensures ByteAt(s + t, i) == (Bytes(s) + Bytes(t))[i]
    {
      if i >= |s| / 2 {
        assert (s + t)[2 * i] == t[2 * (i - |s| / 2)];
        assert (s + t)[2 * i + 1] == t[2 * (i - |s| / 2) + 1];
      }
    }
  }

  // ---------------------------------------------------------------- what the digits are worth

  const DIGITS := "0123456789abcdef"
  const CAPITALS := "ABCDEFGHIJKLMNOPQRSTUVWXYZ"
  const SMALL := "abcdefghijklmnopqrstuvwxyz"

  /** The sixteen digits in order, and no other character, each worth its place. */
  lemma DigitExactly(c: char)
    ensures IsDigit(c) <==> c in DIGITS
    ensures forall v | 0 <= v < 16 && DIGITS[v] == c :: IsDigit(c) && Digit(c) == v
  {
    if '0' <= c <= '9' {
      assert DIGITS[c as int - '0' as int] == c;
    } else if 'a' <= c <= 'f' {
      assert DIGITS[c as int - 'a' as int + 10] == c;
    }
  }

  /** Capitals become small letters, and nothing else changes. */
  lemma LowerExactly(c: char)
    ensures forall i | 0 <= i < 26 && CAPITALS[i] == c :: LowerChar(c) == SMALL[i]
    ensures c !in CAPITALS ==> LowerChar(c) == c
  {
    if 'A' <= c <= 'Z' {
      assert CAPITALS[c as int - 'A' as int] == c;
    }
  }

  /** The text of bytes: for each the digit of its high half, then the digit of its low half. */
  function TextOf(b: seq<byte>): (s: string)
    ensures |s| == 2 * |b|
  {
    if b == [] then "" else TextOf(b[..|b| - 1]) + Pair(b[|b| - 1])
  }

  function Pair(x: byte): (s: string)
    ensures |s| == 2
  {
    [DIGITS[x / 16], DIGITS[x % 16]]
  }

  lemma ReadsPair(x: byte)
    ensures IsHex(Pair(x)) && Bytes(Pair(x)) == [x]
  {
    DigitExactly(DIGITS[x / 16]);
    DigitExactly(DIGITS[x % 16]);
    assert ByteAt(Pair(x), 0) == x;
  }

  /** Writing bytes and reading them back gives the bytes. */
  lemma {:induction false} ReadsText(b: seq<byte>)
    ensures IsHex(TextOf(b)) && Bytes(TextOf(b)) == b
  {
    if b != [] {
      var front, last := b[..|b| - 1], b[|b| - 1];
      ReadsText(front);
      ReadsPair(last);
      BytesConcat(TextOf(front), Pair(last));
      assert b == front + [last];
    }
  }

  /** Reading a clean text and writing the bytes gives the text. */
  lemma WritesBytes(s: string)
    requires IsHex(s)
    ensures TextOf(Bytes(s)) == s
  {
    ReadsText(Bytes(s));
    BytesInjective(TextOf(Bytes(s)), s);
  }
}
