// Texts as the host language has them: sequences of UTF-16 code units, and what UTF-8 makes of them.
module Text {

  type CodeUnit = u: int | 0 <= u < 0x1_0000

  type Text = seq<CodeUnit>

  const TAB: CodeUnit := 0x09
  const LF: CodeUnit := 0x0a
  const CR: CodeUnit := 0x0d
  const SPACE: CodeUnit := 0x20
  const QUOTE: CodeUnit := 0x22
  const PLUS: CodeUnit := 0x2b
  const COMMA: CodeUnit := 0x2c
  const MINUS: CodeUnit := 0x2d
  const DOT: CodeUnit := 0x2e
  const SLASH: CodeUnit := 0x2f
  const ZERO: CodeUnit := 0x30
  const COLON: CodeUnit := 0x3a
  const LBRACKET: CodeUnit := 0x5b
  const BACKSLASH: CodeUnit := 0x5c
  const RBRACKET: CodeUnit := 0x5d
  const LBRACE: CodeUnit := 0x7b
  const RBRACE: CodeUnit := 0x7d

  // A text written with characters of the basic plane.
  function Chars(s: string): (t: Text)
    ensures |t| == |s|
  {
    seq(|s|, i requires 0 <= i < |s| => if s[i] as int < 0x1_0000 then s[i] as int else 0xfffd)
  }

  // The text has just these characters.
  ghost predicate Letters(t: Text, s: string) {
    |t| == |s| && forall i :: 0 <= i < |s| ==> t[i] == s[i] as int
  }

  lemma CharsAreLetters(s: string)
    requires forall i :: 0 <= i < |s| ==> s[i] as int < 0x1_0000
    ensures Letters(Chars(s), s)
  {}

  // Texts with a separator between them.
  function JoinWith(parts: seq<Text>, separator: Text): Text {
    if parts == [] then [] else if |parts| == 1 then parts[0]
    else JoinWith(parts[..|parts| - 1], separator) + separator + parts[|parts| - 1]
  }

  // Seen from the front.
  lemma {:induction false} JoinFront(parts: seq<Text>, separator: Text)
    requires |parts| > 1
    ensures JoinWith(parts, separator) == parts[0] + separator + JoinWith(parts[1..], separator)
  {
    var init := parts[..|parts| - 1];
    assert parts[1..][..|parts| - 2] == init[1..];
    if |init| > 1 {
      JoinFront(init, separator);
    }
  }

  // The decimal digits of n.
  function Digits(n: nat): Text {
    if n < 10 then [0x30 + n] else Digits(n / 10) + [0x30 + n % 10]
  }

  predicate IsHigh(u: CodeUnit) { 0xd800 <= u <= 0xdbff }

  predicate IsLow(u: CodeUnit) { 0xdc00 <= u <= 0xdfff }

  predicate IsSurrogate(u: CodeUnit) { 0xd800 <= u <= 0xdfff }

  // The text starts with a surrogate pair.
  predicate StartsWithPair(t: Text) {
    |t| >= 2 && IsHigh(t[0]) && IsLow(t[1])
  }

  // Every surrogate is half of a pair.
  predicate Paired(t: Text) {
    if t == [] then true
    else if StartsWithPair(t) then Paired(t[2..])
    else !IsSurrogate(t[0]) && Paired(t[1..])
  }

  method HasPairedSurrogates(t: Text) returns (paired: bool)
    ensures paired == Paired(t)
  {
    var i := 0;
    while i < |t|
      invariant i <= |t|
      invariant Paired(t) == Paired(t[i..])
      decreases |t| - i
    {
      var unit := t[i];
      if 0xd800 <= unit <= 0xdbff {
        if !(i + 1 < |t| && 0xdc00 <= t[i + 1] <= 0xdfff) { return false; }
        assert t[i..][2..] == t[i + 2..];
        i := i + 1;
      } else if 0xdc00 <= unit <= 0xdfff {
        return false;
      } else {
        assert t[i..][1..] == t[i + 1..];
      }
      i := i + 1;
    }
    paired := true;
  }

  // ----- UTF-8 lengths -----

  function UnitBytes(u: CodeUnit): nat {
    if u < 0x80 then 1 else if u < 0x800 then 2 else 3
  }

  // The bytes of the UTF-8 encoding; a surrogate without its pair becomes U+FFFD, of three bytes.
  function Utf8Bytes(t: Text): nat {
    if t == [] then 0
    else if StartsWithPair(t) then 4 + Utf8Bytes(t[2..])
    else UnitBytes(t[0]) + Utf8Bytes(t[1..])
  }

  // Concatenation does not join two halves of a pair.
  predicate Seam(a: Text, b: Text) {
    a != [] && b != [] ==> !(IsHigh(a[|a| - 1]) && IsLow(b[0]))
  }

  lemma {:induction false} Utf8Concat(a: Text, b: Text)
    requires Seam(a, b)
    ensures Utf8Bytes(a + b) == Utf8Bytes(a) + Utf8Bytes(b)
  {
    if a == [] {
      assert a + b == b;
    } else if StartsWithPair(a) {
      assert (a + b)[2..] == a[2..] + b;
      Utf8Concat(a[2..], b);
    } else {
      assert (a + b)[1..] == a[1..] + b;
      Utf8Concat(a[1..], b);
    }
  }

  lemma {:induction false} Utf8AtLeastUnits(t: Text)
    ensures |t| <= Utf8Bytes(t)
  {
    if t != [] {
      Utf8AtLeastUnits(if StartsWithPair(t) then t[2..] else t[1..]);
    }
  }

  // Joining two halves of a pair shortens the encoding: never more than the sum.
  lemma {:induction false} Utf8ConcatAtMost(a: Text, b: Text)
    ensures Utf8Bytes(a + b) <= Utf8Bytes(a) + Utf8Bytes(b)
  {
    if a == [] {
      assert a + b == b;
    } else if StartsWithPair(a) {
      assert (a + b)[2..] == a[2..] + b;
      Utf8ConcatAtMost(a[2..], b);
    } else if StartsWithPair(a + b) {
      assert |a| == 1;
      assert (a + b)[2..] == b[1..];
      assert Utf8Bytes(a) == 3 + Utf8Bytes(a[1..]);
    } else {
      assert (a + b)[1..] == a[1..] + b;
      Utf8ConcatAtMost(a[1..], b);
    }
  }

  // ----- the same lengths, by code points (RFC 3629) -----

  // A high surrogate and a low one make one code point; any other surrogate becomes U+FFFD.
  ghost function CodePoints(t: Text): seq<int> {
    if t == [] then []
    else if |t| >= 2 && 0xd800 <= t[0] <= 0xdbff && 0xdc00 <= t[1] <= 0xdfff
    then [0x1_0000 + (t[0] - 0xd800) * 0x400 + (t[1] - 0xdc00)] + CodePoints(t[2..])
    else [if 0xd800 <= t[0] <= 0xdfff then 0xfffd else t[0]] + CodePoints(t[1..])
  }

  // How many bytes a code point takes.
  ghost function EncodedSize(c: int): nat {
    if c <= 0x7f then 1 else if c <= 0x7ff then 2 else if c <= 0xffff then 3 else 4
  }

  ghost function EncodedSizes(cs: seq<int>): nat {
    if cs == [] then 0 else EncodedSize(cs[0]) + EncodedSizes(cs[1..])
  }

  lemma {:induction false} Utf8IsEncoded(t: Text)
    ensures Utf8Bytes(t) == EncodedSizes(CodePoints(t))
  {
    if t != [] {
      var n := if StartsWithPair(t) then 2 else 1;
      Utf8IsEncoded(t[n..]);
      assert CodePoints(t)[1..] == CodePoints(t[n..]);
    }
  }

  predicate Ascii(t: Text) {
    forall i :: 0 <= i < |t| ==> t[i] < 0x80
  }

  // Every code unit below 0x80 is one byte.
  lemma {:induction false} PlainBytes(t: Text)
    requires Ascii(t)
    ensures Utf8Bytes(t) == |t|
  {
    if t != [] {
      PlainBytes(t[1..]);
    }
  }
}
