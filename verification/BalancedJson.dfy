// Extracting a balanced JSON value from surrounding text (src/worker.ts).
module BalancedJson {
  import opened Basics
  import opened Text
  import opened Json

  // Where the scan is: bracket depth, inside a string, just after a backslash in a string.
  datatype State = State(depth: int, inString: bool, escaped: bool)

  function Advance(s: State, ch: CodeUnit, open: CodeUnit, close: CodeUnit): State {
    if s.inString then
      if s.escaped then s.(escaped := false)
      else if ch == BACKSLASH then s.(escaped := true)
      else if ch == QUOTE then s.(inString := false)
      else s
    else if ch == QUOTE then s.(inString := true)
    else if ch == open then s.(depth := s.depth + 1)
    else if ch == close then s.(depth := s.depth - 1)
    else s
  }

  // The character is a closing bracket that brings the depth back to zero.
  predicate Ends(s: State, ch: CodeUnit, open: CodeUnit, close: CodeUnit) {
    !s.inString && ch == close && ch != open && ch != QUOTE && s.depth == 1
  }

  // The length of t up to and including the bracket that ends the scan, or -1.
  ghost function EndOf(t: Text, open: CodeUnit, close: CodeUnit, s: State): (end: int)
    ensures end == -1 || 1 <= end <= |t|
  {
    if t == [] then -1
    else if Ends(s, t[0], open, close) then 1
    else Later(1, EndOf(t[1..], open, close, Advance(s, t[0], open, close)))
  }

  ghost function Later(n: nat, end: int): int {
    if end < 0 then -1 else n + end
  }

  function CloserOf(open: CodeUnit): CodeUnit {
    if open == LBRACE then RBRACE else RBRACKET
  }

  lemma ScanStep(text: Text, i: nat, open: CodeUnit, close: CodeUnit, s: State, n: nat)
    requires i < |text|
    ensures Later(n, EndOf(text[i..], open, close, s))
         == if Ends(s, text[i], open, close) then n + 1
            else Later(n + 1, EndOf(text[i + 1..], open, close, Advance(s, text[i], open, close)))
  {
    assert text[i..][0] == text[i] && text[i..][1..] == text[i + 1..];
  }

  method ExtractBalancedJson(text: Text, start: nat) returns (r: Option<Text>)
    ensures start >= |text| || (text[start] != LBRACE && text[start] != LBRACKET) ==> r == None
    ensures start < |text| && (text[start] == LBRACE || text[start] == LBRACKET) ==>
      var end := EndOf(text[start..], text[start], CloserOf(text[start]), State(0, false, false));
      r == if end < 0 then None else Some(text[start..][..end])
    ensures r.Some? ==> r.value <= text[start..]
  {
    if start >= |text| { return None; }
    var open := text[start];
    if open != LBRACE && open != LBRACKET { return None; }
    r := Scan(text, start, open, if open == LBRACE then RBRACE else RBRACKET);
  }

  // The loop.
  method Scan(text: Text, start: nat, open: CodeUnit, close: CodeUnit) returns (r: Option<Text>)
    requires start < |text| && open == text[start] && open != close && open != QUOTE && close != QUOTE
    ensures var end := EndOf(text[start..], open, close, State(0, false, false));
      r == if end < 0 then None else Some(text[start..][..end])
  {
    hide EndOf;
    var depth, inString, escaped := 0, false, false;
    ghost var whole := EndOf(text[start..], open, close, State(0, false, false));
    for i := start to |text|
      invariant whole == Later(i - start, EndOf(text[i..], open, close, State(depth, inString, escaped)))
    {
      var ch := text[i];
      ScanStep(text, i, open, close, State(depth, inString, escaped), i - start);
      if inString {
        if escaped { escaped := false; }
        else if ch == BACKSLASH { escaped := true; }
        else if ch == QUOTE { inString := false; }
        continue;
      }
      if ch == QUOTE { inString := true; }
      else if ch == open { depth := depth + 1; }
      else if ch == close {
        depth := depth - 1;
        if depth == 0 {
          assert text[start..i + 1] == text[start..][..i + 1 - start];
          return Some(text[start..i + 1]);
        }
      }
    }
    NothingLeft(text, open, close, State(depth, inString, escaped));
    r := None;
  }

  lemma NothingLeft(text: Text, open: CodeUnit, close: CodeUnit, s: State)
    ensures EndOf(text[|text|..], open, close, s) == -1
  {}

  // ----- texts the scan passes over -----

  // At this depth, the scan walks over x and comes out as it went in.
  ghost predicate Through(x: Text, rest: Text, open: CodeUnit, depth: nat) {
    EndOf(x + rest, open, CloserOf(open), State(depth, false, false))
      == Later(|x|, EndOf(rest, open, CloserOf(open), State(depth, false, false)))
  }

  // So it is at every depth inside brackets, whatever follows.
  ghost predicate Neutral(x: Text, open: CodeUnit) {
    forall rest: Text, depth: nat :: depth >= 1 ==> Through(x, rest, open, depth)
  }

  lemma NeutralConcat(x: Text, y: Text, open: CodeUnit)
    requires Neutral(x, open) && Neutral(y, open)
    ensures Neutral(x + y, open)
  {
    forall rest: Text, depth: nat | depth >= 1 ensures Through(x + y, rest, open, depth) {
      assert x + y + rest == x + (y + rest);
      assert Through(x, y + rest, open, depth) && Through(y, rest, open, depth);
    }
  }

  ghost predicate Plain(u: CodeUnit) {
    u != QUOTE && u != LBRACE && u != RBRACE && u != LBRACKET && u != RBRACKET
  }

  lemma {:induction false} NeutralPlain(x: Text, open: CodeUnit)
    requires forall i :: 0 <= i < |x| ==> Plain(x[i])
    requires open == LBRACE || open == LBRACKET
    ensures Neutral(x, open)
  {
    if x == [] {
      forall rest: Text, depth: nat | depth >= 1 ensures Through(x, rest, open, depth) {
        assert x + rest == rest;
      }
    } else {
      NeutralPlain(x[1..], open);
      forall rest: Text, depth: nat | depth >= 1 ensures Through(x, rest, open, depth) {
        assert (x + rest)[1..] == x[1..] + rest;
        assert Through(x[1..], rest, open, depth);
      }
    }
  }

  lemma PieceStaysInside(p: Piece, tail: Text, open: CodeUnit, depth: nat)
    requires ValidPiece(p)
    ensures EndOf(PieceText(p) + tail, open, CloserOf(open), State(depth, true, false))
         == Later(|PieceText(p)|, EndOf(tail, open, CloserOf(open), State(depth, true, false)))
  {
    var t := PieceText(p) + tail;
    var s := State(depth, true, false);
    match p
    case Raw(u) => assert t[1..] == tail;
    case Short(u) =>
      assert t[1..][1..] == tail;
    case Hex(a, b, c, d) =>
      assert t[1..][1..] == [a, b, c, d] + tail;
      HexStaysInside([a, b, c, d], tail, open, s);
  }

  lemma {:induction false} HexStaysInside(x: Text, tail: Text, open: CodeUnit, s: State)
    requires s.inString && !s.escaped
    requires forall i :: 0 <= i < |x| ==> HexValue(x[i]) >= 0
    ensures EndOf(x + tail, open, CloserOf(open), s) == Later(|x|, EndOf(tail, open, CloserOf(open), s))
  {
    if x == [] {
      assert x + tail == tail;
    } else {
      assert (x + tail)[1..] == x[1..] + tail;
      HexStaysInside(x[1..], tail, open, s);
    }
  }

  lemma {:induction false} PiecesStayInside(ps: seq<Piece>, tail: Text, open: CodeUnit, depth: nat)
    requires ValidPieces(ps)
    ensures EndOf(PiecesText(ps) + tail, open, CloserOf(open), State(depth, true, false))
         == Later(|PiecesText(ps)|, EndOf(tail, open, CloserOf(open), State(depth, true, false)))
  {
    if ps == [] {
      assert PiecesText(ps) + tail == tail;
    } else {
      assert PiecesText(ps) + tail == PieceText(ps[0]) + (PiecesText(ps[1..]) + tail);
      PieceStaysInside(ps[0], PiecesText(ps[1..]) + tail, open, depth);
      PiecesStayInside(ps[1..], tail, open, depth);
    }
  }

  lemma NeutralString(ps: seq<Piece>, open: CodeUnit)
    requires ValidPieces(ps) && (open == LBRACE || open == LBRACKET)
    ensures Neutral(StringText(ps), open)
  {
    forall rest: Text, depth: nat | depth >= 1 ensures Through(StringText(ps), rest, open, depth) {
      var tail := [QUOTE] + rest;
      assert (StringText(ps) + rest)[1..] == PiecesText(ps) + tail;
      assert tail[1..] == rest;
      PiecesStayInside(ps, tail, open, depth);
    }
  }

  lemma NeutralNumber(n: Number, open: CodeUnit)
    requires ValidNumber(n) && (open == LBRACE || open == LBRACKET)
    ensures Neutral(NumberText(n), open)
  {
    NeutralPlain(if n.negative then [MINUS] else [], open);
    NeutralPlain(n.integer, open);
    NeutralPlain(FractionText(n.fraction), open);
    NeutralPlain(ExponentText(n.marker, n.expSign, n.exponent), open);
    var sign: Text := if n.negative then [MINUS] else [];
    NeutralConcat(sign, n.integer, open);
    NeutralConcat(sign + n.integer, FractionText(n.fraction), open);
    NeutralConcat(sign + n.integer + FractionText(n.fraction), ExponentText(n.marker, n.expSign, n.exponent), open);
  }

  // A neutral text between brackets of one kind is neutral again, whichever kind is being counted.
  lemma NeutralBrackets(left: CodeUnit, x: Text, open: CodeUnit)
    requires (left == LBRACE || left == LBRACKET) && (open == LBRACE || open == LBRACKET)
    requires Neutral(x, open)
    ensures Neutral([left] + x + [CloserOf(left)], open)
  {
    forall rest: Text, depth: nat | depth >= 1 ensures Through([left] + x + [CloserOf(left)], rest, open, depth) {
      NeutralBracketsAt(left, x, open, rest, depth);
    }
  }

  lemma NeutralBracketsAt(left: CodeUnit, x: Text, open: CodeUnit, rest: Text, depth: nat)
    requires (left == LBRACE || left == LBRACKET) && (open == LBRACE || open == LBRACKET)
    requires Neutral(x, open) && depth >= 1
    ensures Through([left] + x + [CloserOf(left)], rest, open, depth)
  {
    var close, right := CloserOf(open), CloserOf(left);
    var t, tail := [left] + x + [right] + rest, [right] + rest;
    var inner := if left == open then depth + 1 else depth;
    assert t[0] == left && t[1..] == x + tail && tail[1..] == rest;
    assert Through(x, tail, open, inner);
    assert EndOf(t, open, close, State(depth, false, false))
        == Later(1, EndOf(x + tail, open, close, State(inner, false, false)));
    assert EndOf(tail, open, close, State(inner, false, false))
        == Later(1, EndOf(rest, open, close, State(depth, false, false)));
  }

  lemma {:induction false} NeutralValue(c: Syntax, open: CodeUnit)
    requires Valid(c) && (open == LBRACE || open == LBRACKET)
    ensures Neutral(Render(c), open)
    decreases c, 4
  {
    match c
    case NumberLiteral(n) => NeutralNumber(n, open);
    case StringLiteral(ps) => NeutralString(ps, open);
    case ArrayLiteral(_, _) =>
      var body := NeutralBody(c, open);
      NeutralBrackets(LBRACKET, body, open);
    case ObjectLiteral(_, _) =>
      var body := NeutralBody(c, open);
      NeutralBrackets(LBRACE, body, open);
    case _ => NeutralPlain(Render(c), open);
  }

  // What stands between the brackets of an array or object.
  lemma {:induction false} NeutralBody(c: Syntax, open: CodeUnit) returns (body: Text)
    requires Valid(c) && (c.ArrayLiteral? || c.ObjectLiteral?) && (open == LBRACE || open == LBRACKET)
    ensures Neutral(body, open)
    ensures var left := if c.ArrayLiteral? then LBRACKET else LBRACE;
      Render(c) == [left] + body + [CloserOf(left)]
    decreases c, 3
  {
    match c
    case ArrayLiteral(pad, items) =>
      NeutralPlain(pad, open);
      var inner := [];
      if items == [] { NeutralPlain([], open); } else { inner := NeutralItems(items, open); }
      body := pad + inner;
      NeutralConcat(pad, inner, open);
    case ObjectLiteral(pad, members) =>
      NeutralPlain(pad, open);
      var inner := [];
      if members == [] { NeutralPlain([], open); } else { inner := NeutralMembers(members, open); }
      body := pad + inner;
      NeutralConcat(pad, inner, open);
  }

  // The items without the closing bracket.
  lemma {:induction false} NeutralItems(items: seq<Item>, open: CodeUnit) returns (body: Text)
    requires items != [] && ValidItems(items) && (open == LBRACE || open == LBRACKET)
    ensures Neutral(body, open) && RenderItems(items) == body + [RBRACKET]
    decreases items, 0
  {
    var item := items[0];
    NeutralValue(item.value, open);
    NeutralPlain(item.after, open);
    NeutralConcat(Render(item.value), item.after, open);
    body := Render(item.value) + item.after;
    if |items| > 1 {
      var more := NeutralItems(items[1..], open);
      NeutralPlain([COMMA] + item.ahead, open);
      NeutralConcat([COMMA] + item.ahead, more, open);
      NeutralConcat(body, [COMMA] + item.ahead + more, open);
      body := body + ([COMMA] + item.ahead + more);
      assert RenderItems(items) == body + [RBRACKET];
    }
  }

  lemma {:induction false} NeutralMember(m: Member, open: CodeUnit)
    requires ValidMembers([m]) && (open == LBRACE || open == LBRACKET)
    ensures Neutral(RenderMember(m), open)
    decreases m, 5
  {
    NeutralString(m.key, open);
    NeutralPlain(m.afterKey, open);
    NeutralPlain([COLON], open);
    NeutralPlain(m.beforeValue, open);
    NeutralValue(m.value, open);
    NeutralPlain(m.after, open);
    var k := StringText(m.key);
    NeutralConcat(k, m.afterKey, open);
    NeutralConcat(k + m.afterKey, [COLON], open);
    NeutralConcat(k + m.afterKey + [COLON], m.beforeValue, open);
    NeutralConcat(k + m.afterKey + [COLON] + m.beforeValue, Render(m.value), open);
    NeutralConcat(MemberHead(m), m.after, open);
  }

  lemma {:induction false} NeutralMembers(members: seq<Member>, open: CodeUnit) returns (body: Text)
    requires members != [] && ValidMembers(members) && (open == LBRACE || open == LBRACKET)
    ensures Neutral(body, open) && RenderMembers(members) == body + [RBRACE]
    decreases members, 0
  {
    var m := members[0];
    assert ValidMembers([m]);
    NeutralMember(m, open);
    body := RenderMember(m);
    if |members| > 1 {
      var more := NeutralMembers(members[1..], open);
      NeutralPlain([COMMA] + m.ahead, open);
      NeutralConcat([COMMA] + m.ahead, more, open);
      NeutralConcat(body, [COMMA] + m.ahead + more, open);
      body := body + ([COMMA] + m.ahead + more);
      assert RenderMembers(members) == body + [RBRACE];
    }
  }

  // ----- main results -----

  // Started at the bracket of any JSON array or object, the scan returns exactly that value, whatever follows.
  lemma ExtractsExactly(c: Syntax, rest: Text)
    requires Valid(c) && (c.ArrayLiteral? || c.ObjectLiteral?)
    ensures var t := Render(c) + rest;
      && (t[0] == LBRACE || t[0] == LBRACKET)
      && EndOf(t, t[0], CloserOf(t[0]), State(0, false, false)) == |Render(c)|
  {
    var left := if c.ArrayLiteral? then LBRACKET else LBRACE;
    var body := NeutralBody(c, left);
    var right := CloserOf(left);
    var t := Render(c) + rest;
    var tail := [right] + rest;
    assert t[0] == left && t[1..] == body + tail;
    assert EndOf(tail, left, right, State(1, false, false)) == 1;
    assert Through(body, tail, left, 1);
  }

  method ExtractsPrinted(before: Text, v: Json, rest: Text) returns (r: Option<Text>)
    requires ValidNumbers(v) && (v.Arr? || v.Obj?)
    ensures r == Some(Print(v))
  {
    r := ExtractBalancedJson(before + Print(v) + rest, |before|);
    assert (before + Print(v) + rest)[|before|..] == Print(v) + rest;
    TreeFacts(v);
    ExtractsExactly(Tree(v), rest);
    assert (Print(v) + rest)[..|Print(v)|] == Print(v);
  }
}
