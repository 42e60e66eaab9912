// What the strict parser makes of a text, told with characters and tables instead of the parser's own functions.
module JsonSpelling {
  import opened Text
  import opened Json
  import opened StrictJson
  import opened StrictJsonProofs
  import opened StrictJsonTheorems

  // ----- blanks -----

  ghost predicate IsBlankOf(u: CodeUnit) {
    exists k :: 0 <= k < 4 && u == " \t\n\r"[k] as int
  }

  ghost predicate BlankText(t: Text) {
    forall i :: 0 <= i < |t| ==> IsBlankOf(t[i])
  }

  lemma BlanksAreFour(t: Text)
    ensures BlankText(t) <==> Blank(t)
  {
    assert " \t\n\r"[0] as int == 0x20 && " \t\n\r"[1] as int == 0x09;
    assert " \t\n\r"[2] as int == 0x0a && " \t\n\r"[3] as int == 0x0d;
  }

  // ----- strings -----

  // u is the hexadecimal digit d, in either case.
  ghost predicate IsHexOf(u: CodeUnit, d: int) {
    0 <= d < 16 && (u == "0123456789abcdef"[d] as int || u == "0123456789ABCDEF"[d] as int)
  }

  // The letters that may follow a backslash, and what they stand for.
  const LETTERS: string := "\"\\/bfnrt"
  const MEANINGS: seq<int> := [0x22, 0x5c, 0x2f, 0x08, 0x0c, 0x0a, 0x0d, 0x09]

  ghost predicate LetterFor(letter: CodeUnit, u: CodeUnit) {
    exists k :: 0 <= k < 8 && letter == LETTERS[k] as int && u == MEANINGS[k]
  }

  // s is one way to write the code unit u between quotes: as itself, by a letter, or by its four digits.
  ghost predicate Writes(s: Text, u: CodeUnit) {
    || (s == [u] && u >= 0x20 && u != '"' as int && u != '\\' as int)
    || (|s| == 2 && s[0] == '\\' as int && LetterFor(s[1], u))
    || (|s| == 6 && s[0] == '\\' as int && s[1] == 'u' as int
        && IsHexOf(s[2], u / 4096) && IsHexOf(s[3], u / 256 % 16) && IsHexOf(s[4], u / 16 % 16)
        && IsHexOf(s[5], u % 16))
  }

  ghost predicate WritesAll(ss: seq<Text>, t: Text) {
    |ss| == |t| && forall i :: 0 <= i < |t| ==> Writes(ss[i], t[i])
  }

  ghost function Flat(ss: seq<Text>): Text {
    if ss == [] then [] else ss[0] + Flat(ss[1..])
  }

  lemma HexOf(u: CodeUnit, d: int)
    ensures IsHexOf(u, d) <==> HexValue(u) == d >= 0
  {
    if 0 <= d < 16 {
      LowerDigit(d);
      UpperDigit(d);
    }
  }

  lemma LowerDigit(d: int)
    requires 0 <= d < 16
    ensures "0123456789abcdef"[d] as int == if d < 10 then 0x30 + d else 0x57 + d
  {}

  lemma UpperDigit(d: int)
    requires 0 <= d < 16
    ensures "0123456789ABCDEF"[d] as int == if d < 10 then 0x30 + d else 0x37 + d
  {}

  lemma LetterOf(letter: CodeUnit, u: CodeUnit)
    ensures LetterFor(letter, u) <==> ShortValue(letter) == u
  {
    assert LETTERS[0] == '"' && LETTERS[1] == '\\' && LETTERS[2] == '/' && LETTERS[3] == 'b';
    assert LETTERS[4] == 'f' && LETTERS[5] == 'n' && LETTERS[6] == 'r' && LETTERS[7] == 't';
  }

  lemma PieceWrites(p: Piece)
    requires ValidPiece(p)
    ensures Writes(PieceText(p), PieceUnit(p))
  {
    match p
    case Raw(u) =>
    case Short(u) => LetterOf(u, ShortValue(u));
    case Hex(a, b, c, d) => HexWrites(a, b, c, d);
  }

  lemma HexWrites(a: CodeUnit, b: CodeUnit, c: CodeUnit, d: CodeUnit)
    requires ValidPiece(Hex(a, b, c, d))
    ensures Writes(PieceText(Hex(a, b, c, d)), PieceUnit(Hex(a, b, c, d)))
  {
    hide IsHexOf, HexValue, LetterFor;
    var w, x, y, z := HexValue(a), HexValue(b), HexValue(c), HexValue(d);
    FourDigits(w, x, y, z);
    HexOf(a, w);
    HexOf(b, x);
    HexOf(c, y);
    HexOf(d, z);
  }

  lemma FourDigits(a: int, b: int, c: int, d: int)
    requires 0 <= a < 16 && 0 <= b < 16 && 0 <= c < 16 && 0 <= d < 16
    ensures var u := ((a * 16 + b) * 16 + c) * 16 + d;
      u / 4096 == a && u / 256 % 16 == b && u / 16 % 16 == c && u % 16 == d
  {
    var u := ((a * 16 + b) * 16 + c) * 16 + d;
    assert u == 4096 * a + (256 * b + 16 * c + d);
    assert u == 256 * (16 * a + b) + (16 * c + d);
    assert u == 16 * (256 * a + 16 * b + c) + d;
  }

  lemma FourParts(u: CodeUnit)
    ensures ((u / 4096 * 16 + u / 256 % 16) * 16 + u / 16 % 16) * 16 + u % 16 == u
    ensures 0 <= u / 4096 < 16
  {}

  lemma WrittenPiece(s: Text, u: CodeUnit) returns (p: Piece)
    requires Writes(s, u)
    ensures ValidPiece(p) && PieceText(p) == s && PieceUnit(p) == u
  {
    if s == [u] {
      p := Raw(u);
    } else if |s| == 2 {
      LetterOf(s[1], u);
      p := Short(s[1]);
    } else {
      HexOf(s[2], u / 4096);
      HexOf(s[3], u / 256 % 16);
      HexOf(s[4], u / 16 % 16);
      HexOf(s[5], u % 16);
      FourParts(u);
      p := Hex(s[2], s[3], s[4], s[5]);
    }
  }

  lemma {:induction false} PiecesWrite(ps: seq<Piece>) returns (ss: seq<Text>)
    requires ValidPieces(ps)
    ensures WritesAll(ss, PiecesValue(ps)) && Flat(ss) == PiecesText(ps)
  {
    hide Writes, PieceText, PieceUnit, ValidPiece;
    if ps == [] {
      ss := [];
    } else {
      var more := PiecesWrite(ps[1..]);
      PieceWrites(ps[0]);
      ss := [PieceText(ps[0])] + more;
      assert ss[1..] == more;
    }
  }

  lemma {:induction false} WrittenPieces(ss: seq<Text>, t: Text) returns (ps: seq<Piece>)
    requires WritesAll(ss, t)
    ensures ValidPieces(ps) && PiecesValue(ps) == t && PiecesText(ps) == Flat(ss)
  {
    hide Writes, PieceText, PieceUnit, ValidPiece;
    if ss == [] {
      ps := [];
    } else {
      var more := WrittenPieces(ss[1..], t[1..]);
      var p := WrittenPiece(ss[0], t[0]);
      ps := [p] + more;
      assert ps[1..] == more;
      assert t == [t[0]] + t[1..];
    }
  }

  // Between surrogates nothing is missing: every high one is followed by a low one, and every low one preceded by
  // a high.
  ghost predicate IsWhole(t: Text) {
    && (forall i :: 0 <= i < |t| && 0xd800 <= t[i] < 0xdc00 ==> i + 1 < |t| && 0xdc00 <= t[i + 1] < 0xe000)
    && (forall i :: 0 <= i < |t| && 0xdc00 <= t[i] < 0xe000 ==> i > 0 && 0xd800 <= t[i - 1] < 0xdc00)
  }

  lemma {:induction false} PairedIsWhole(t: Text)
    ensures Paired(t) <==> IsWhole(t)
  {
    if t != [] {
      if StartsWithPair(t) {
        PairedIsWhole(t[2..]);
        WholeAfter(t, 2);
      } else if !IsSurrogate(t[0]) {
        PairedIsWhole(t[1..]);
        WholeAfter(t, 1);
      } else {
        assert t[0] == t[0];
      }
    }
  }

  // Behind a pair, or a character that is no surrogate, the rest stands alone.
  lemma WholeAfter(t: Text, n: nat)
    requires n <= |t| && (if n == 2 then StartsWithPair(t) else n == 1 && !IsSurrogate(t[0]))
    ensures IsWhole(t) <==> IsWhole(t[n..])
  {
    var u := t[n..];
    if IsWhole(u) {
      forall i | 0 <= i < |t| && 0xd800 <= t[i] < 0xdc00 ensures i + 1 < |t| && 0xdc00 <= t[i + 1] < 0xe000 {
        if i >= n { assert u[i - n] == t[i]; }
      }
      forall i | 0 <= i < |t| && 0xdc00 <= t[i] < 0xe000 ensures i > 0 && 0xd800 <= t[i - 1] < 0xdc00 {
        if i >= n { assert u[i - n] == t[i]; }
      }
    }
    if IsWhole(t) {
      forall i | 0 <= i < |u| && 0xd800 <= u[i] < 0xdc00 ensures i + 1 < |u| && 0xdc00 <= u[i + 1] < 0xe000 {
        assert u[i] == t[n + i];
      }
      forall i | 0 <= i < |u| && 0xdc00 <= u[i] < 0xe000 ensures i > 0 && 0xd800 <= u[i - 1] < 0xdc00 {
        assert u[i] == t[n + i];
      }
    }
  }

  // s is the text t between quotes, each code unit written in one of its ways, between blanks.
  ghost predicate Spelling(s: Text, t: Text, lead: Text, ss: seq<Text>, trail: Text) {
    BlankText(lead) && BlankText(trail) && WritesAll(ss, t)
    && s == lead + ['"' as int] + Flat(ss) + ['"' as int] + trail
  }

  // A text is read as a string exactly when it is one of its spellings, and nothing is missing between its surrogates.
  lemma StringsAreSpelled(s: Text, t: Text)
    ensures Parse(s) == Success(Str(t)) <==> IsWhole(t) && exists lead, ss, trail :: Spelling(s, t, lead, ss, trail)
  {
    PairedIsWhole(t);
    ParseIsCorrect(s, Str(t));
    hide Parse, Writes, WritesAll, IsWhole, PiecesValue, ValidPieces;
    if Within(Str(t)) && exists c :: JsonText(s, c) && Meaning(c) == Str(t) {
      var c :| JsonText(s, c) && Meaning(c) == Str(t);
      var ps := c.pieces;
      var lead: Text, trail: Text :| Blank(lead) && Blank(trail) && s == lead + Render(c) + trail;
      var ss := PiecesWrite(ps);
      BlanksAreFour(lead);
      BlanksAreFour(trail);
      Around(lead, PiecesText(ps), trail);
      assert Spelling(s, t, lead, ss, trail);
    }
    if IsWhole(t) && exists lead, ss, trail :: Spelling(s, t, lead, ss, trail) {
      var lead, ss, trail :| Spelling(s, t, lead, ss, trail);
      var ps := WrittenPieces(ss, t);
      BlanksAreFour(lead);
      BlanksAreFour(trail);
      Around(lead, Flat(ss), trail);
      assert JsonText(s, StringLiteral(ps)) && Meaning(StringLiteral(ps)) == Str(t);
    }
  }

  lemma Around(lead: Text, t: Text, trail: Text)
    ensures lead + ([QUOTE] + t + [QUOTE]) + trail == lead + ['"' as int] + t + ['"' as int] + trail
  {}

  // Where something is missing between the surrogates, that is the error.
  lemma BrokenPairIsUnicode(s: Text, t: Text, lead: Text, ss: seq<Text>, trail: Text)
    requires Spelling(s, t, lead, ss, trail) && !IsWhole(t)
    ensures Parse(s) == Failure(InvalidUnicode)
  {
    PairedIsWhole(t);
    var ps := WrittenPieces(ss, t);
    BlanksAreFour(lead);
    BlanksAreFour(trail);
    var c := StringLiteral(ps);
    var u := Render(c) + trail;
    Around(lead, Flat(ss), trail);
    assert s == lead + u;
    hide Writes, WritesAll, IsWhole, PiecesText, PiecesValue, ValidPiece, Flat, ReadChars;
    SkipBlank(lead, u);
    ParseRendered(c, trail, 0, 0);
  }

  // After a backslash any other letter is malformed, and so is anything but four digits after u.
  lemma OtherEscapes(written: seq<Text>, t: Text, bad: Text)
    requires WritesAll(written, t) && Starts(bad, '\\' as int)
    requires |bad| >= 2 ==> !(exists u: CodeUnit :: LetterFor(bad[1], u))
    requires |bad| >= 6 && bad[1] == 'u' as int ==>
      !(exists a, b, c, d :: IsHexOf(bad[2], a) && IsHexOf(bad[3], b) && IsHexOf(bad[4], c) && IsHexOf(bad[5], d))
    ensures Parse(['"' as int] + Flat(written) + bad) == Failure(Malformed)
  {
    BadEscape(bad, t);
    ReadThenBad(written, t, bad);
  }

  lemma ReadThenBad(written: seq<Text>, t: Text, bad: Text)
    requires WritesAll(written, t) && ReadChars(bad, t) == Bad(Malformed)
    ensures Parse(['"' as int] + Flat(written) + bad) == Failure(Malformed)
  {
    hide WritesAll, ReadChars, Flat, PiecesText, Parse;
    var ps := WrittenPieces(written, t);
    var s := ['"' as int] + Flat(written) + bad;
    assert s[1..] == PiecesText(ps) + bad && [] + t == t;
    ReadBefore(ps, bad, []);
    FailingString(s, Malformed);
  }

  lemma FailingString(s: Text, e: ParseError)
    requires Starts(s, '"' as int) && ReadChars(s[1..], []) == Bad(e)
    ensures Parse(s) == Failure(e)
  {
    hide ReadChars;
    assert SkipSpace(s) == s;
  }

  lemma BadEscape(bad: Text, output: Text)
    requires Starts(bad, '\\' as int)
    requires |bad| >= 2 ==> !(exists u: CodeUnit :: LetterFor(bad[1], u))
    requires |bad| >= 6 && bad[1] == 'u' as int ==>
      !(exists a, b, c, d :: IsHexOf(bad[2], a) && IsHexOf(bad[3], b) && IsHexOf(bad[4], c) && IsHexOf(bad[5], d))
    ensures ReadChars(bad, output) == Bad(Malformed)
  {
    if |bad| >= 2 && ShortValue(bad[1]) >= 0 {
      LetterOf(bad[1], ShortValue(bad[1]));
    }
    if |bad| >= 6 && bad[1] == 0x75 && ValidPiece(Hex(bad[2], bad[3], bad[4], bad[5])) {
      HexOf(bad[2], HexValue(bad[2]));
      HexOf(bad[3], HexValue(bad[3]));
      HexOf(bad[4], HexValue(bad[4]));
      HexOf(bad[5], HexValue(bad[5]));
    }
  }

  lemma {:induction false} ReadBefore(ps: seq<Piece>, tail: Text, output: Text)
    requires ValidPieces(ps)
    ensures ReadChars(PiecesText(ps) + tail, output) == ReadChars(tail, output + PiecesValue(ps))
  {
    if ps == [] {
      assert PiecesText(ps) + tail == tail && output + [] == output;
    } else {
      var more := PiecesText(ps[1..]) + tail;
      assert PiecesText(ps) + tail == PieceText(ps[0]) + more;
      ReadPiece(ps[0], more, output);
      ReadBefore(ps[1..], tail, output + [PieceUnit(ps[0])]);
      assert output + PiecesValue(ps) == output + [PieceUnit(ps[0])] + PiecesValue(ps[1..]);
    }
  }

  // ----- the printer -----

  // Half of a surrogate pair of t.
  ghost predicate InPair(t: Text, i: nat)
    requires i < |t|
  {
    || (0xd800 <= t[i] < 0xdc00 && i + 1 < |t| && 0xdc00 <= t[i + 1] < 0xe000)
    || (0xdc00 <= t[i] < 0xe000 && i > 0 && 0xd800 <= t[i - 1] < 0xdc00)
  }

  ghost predicate IsLowerHex(u: CodeUnit, d: int) {
    0 <= d < 16 && u == "0123456789abcdef"[d] as int
  }

  // How the printer writes a code unit: with a letter when there is one, but for the slash; with four digits below the
  // space and for a surrogate on its own; otherwise as itself.
  ghost predicate Printed(s: Text, u: CodeUnit, alone: bool) {
    if u != '/' as int && exists letter: CodeUnit :: LetterFor(letter, u)
    then |s| == 2 && s[0] == '\\' as int && LetterFor(s[1], u)
    else if u < 0x20 || (alone && 0xd800 <= u < 0xe000)
    then |s| == 6 && s[0] == '\\' as int && s[1] == 'u' as int
         && IsLowerHex(s[2], u / 4096) && IsLowerHex(s[3], u / 256 % 16) && IsLowerHex(s[4], u / 16 % 16)
         && IsLowerHex(s[5], u % 16)
    else s == [u]
  }

  ghost predicate PrintedAll(ss: seq<Text>, t: Text) {
    |ss| == |t| && forall i :: 0 <= i < |t| ==> Printed(ss[i], t[i], !InPair(t, i))
  }

  lemma LowerHexOf(d: int)
    requires 0 <= d < 16
    ensures IsLowerHex(HexDigit(d), d)
  {
    LowerDigit(d);
  }

  lemma UnitIsPrinted(u: CodeUnit)
    ensures Printed(EscapeUnit(u), u, true)
  {
    LetterIs(u);
    hide LetterFor, IsLowerHex;
    if u < 0x20 || IsSurrogate(u) {
      DigitsArePrinted(u);
      hide HexEscape;
    }
  }

  lemma DigitsArePrinted(u: CodeUnit)
    ensures var s := HexEscape(u);
      && |s| == 6 && s[0] == '\\' as int && s[1] == 'u' as int
      && IsLowerHex(s[2], u / 4096) && IsLowerHex(s[3], u / 256 % 16) && IsLowerHex(s[4], u / 16 % 16)
      && IsLowerHex(s[5], u % 16)
  {
    FourParts(u);
    LowerHexOf(u / 4096);
    LowerHexOf(u / 256 % 16);
    LowerHexOf(u / 16 % 16);
    LowerHexOf(u % 16);
    hide IsLowerHex, HexDigit;
  }

  // The units with a letter, and the letter the printer uses.
  lemma LetterIs(u: CodeUnit)
    ensures (exists letter: CodeUnit :: LetterFor(letter, u)) <==>
      u == '/' as int || (|EscapeUnit(u)| == 2 && EscapeUnit(u)[0] == '\\' as int && LetterFor(EscapeUnit(u)[1], u))
    ensures |EscapeUnit(u)| == 2 ==> LetterFor(EscapeUnit(u)[1], u)
  {
    forall letter: CodeUnit ensures LetterFor(letter, u) <==> ShortValue(letter) == u {
      LetterOf(letter, u);
    }
    hide LetterFor;
    if u == '/' as int { assert ShortValue('/' as int) == u; }
    if |EscapeUnit(u)| == 2 { assert ShortValue(EscapeUnit(u)[1]) == u; }
  }

  // A pair is printed as it is.
  lemma HalfIsPrinted(u: CodeUnit)
    requires 0xd800 <= u < 0xe000
    ensures Printed([u], u, false)
  {
    forall letter: CodeUnit ensures !LetterFor(letter, u) {
      LetterOf(letter, u);
    }
  }

  // Behind a pair, or a unit that starts none, nothing changes.
  lemma PairBehind(t: Text)
    requires StartsWithPair(t)
    ensures InPair(t, 0) && InPair(t, 1)
    ensures forall i: nat :: i < |t| - 2 ==> (InPair(t[2..], i) <==> InPair(t, i + 2))
  {}

  lemma UnitBehind(t: Text)
    requires t != [] && !StartsWithPair(t)
    ensures !InPair(t, 0)
    ensures forall i: nat :: i < |t| - 1 ==> (InPair(t[1..], i) <==> InPair(t, i + 1))
  {}

  lemma PairIsPrinted(t: Text, more: seq<Text>)
    requires StartsWithPair(t) && PrintedAll(more, t[2..])
    ensures PrintedAll([[t[0]], [t[1]]] + more, t)
  {
    var ss := [[t[0]], [t[1]]] + more;
    PairBehind(t);
    forall i | 0 <= i < |t| ensures Printed(ss[i], t[i], !InPair(t, i)) {
      hide Printed, InPair;
      if i < 2 {
        assert ss[i] == [t[i]];
        HalfIsPrinted(t[i]);
      } else {
        assert InPair(t[2..], i - 2) <==> InPair(t, i);
        assert ss[i] == more[i - 2] && t[i] == t[2..][i - 2];
      }
    }
  }

  lemma FirstIsPrinted(t: Text, more: seq<Text>)
    requires t != [] && !StartsWithPair(t) && PrintedAll(more, t[1..])
    ensures PrintedAll([EscapeUnit(t[0])] + more, t)
  {
    UnitIsPrinted(t[0]);
    UnitBehind(t);
    hide Printed, InPair, EscapeUnit;
    var ss := [EscapeUnit(t[0])] + more;
    forall i | 0 <= i < |t| ensures Printed(ss[i], t[i], !InPair(t, i)) {
      if i >= 1 { assert ss[i] == more[i - 1] && t[i] == t[1..][i - 1]; }
    }
  }

  lemma {:induction false} EscapesAreLocal(t: Text) returns (ss: seq<Text>)
    ensures PrintedAll(ss, t) && Flat(ss) == Escape(t)
  {
    hide PrintedAll, EscapeUnit;
    if t == [] {
      ss := [];
      NothingPrinted();
    } else if StartsWithPair(t) {
      var more := EscapesAreLocal(t[2..]);
      PairIsPrinted(t, more);
      ss := [[t[0]], [t[1]]] + more;
      assert ss[1..] == [[t[1]]] + more && ss[1..][1..] == more;
      assert t[..2] + Flat(more) == [t[0]] + ([t[1]] + Flat(more));
    } else {
      var more := EscapesAreLocal(t[1..]);
      FirstIsPrinted(t, more);
      ss := [EscapeUnit(t[0])] + more;
      assert ss[1..] == more;
    }
  }

  lemma NothingPrinted()
    ensures PrintedAll([], [])
  {}

  // A quoted text is its units between quotes.
  lemma QuotedIsPrinted(t: Text) returns (ss: seq<Text>)
    ensures PrintedAll(ss, t) && Quoted(t) == ['"' as int] + Flat(ss) + ['"' as int]
  {
    ss := EscapesAreLocal(t);
  }
}
