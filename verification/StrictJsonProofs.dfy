// The strict parser accepts exactly the texts of RFC 8259 within its limits, and gives them their meaning.
module StrictJsonProofs {
  import opened Text
  import opened Json
  import opened StrictJson

  // ----- the limits, checked in the order in which a text is read -----

  datatype Verdict = Pass(nodes: nat) | Reject(error: ParseError)

  ghost function Check(c: Syntax, depth: nat, nodes: nat): Verdict
    requires Valid(c)
    decreases c, 1
  {
    if depth > MAX_DEPTH || nodes + 1 > MAX_NODES then Reject(TooComplex) else
      match c
      case NumberLiteral(n) => if Finite(n) then Pass(nodes + 1) else Reject(Malformed)
      case StringLiteral(ps) => if Paired(PiecesValue(ps)) then Pass(nodes + 1) else Reject(InvalidUnicode)
      case ArrayLiteral(_, items) => CheckItems(items, depth + 1, nodes + 1)
      case ObjectLiteral(_, members) => CheckMembers(members, depth + 1, nodes + 1, {})
      case _ => Pass(nodes + 1)
  }

  ghost function CheckItems(items: seq<Item>, depth: nat, nodes: nat): Verdict
    requires ValidItems(items)
    decreases items, 0
  {
    if items == [] then Pass(nodes) else
      match Check(items[0].value, depth, nodes)
      case Reject(e) => Reject(e)
      case Pass(n) => CheckItems(items[1..], depth, n)
  }

  ghost function CheckMembers(members: seq<Member>, depth: nat, nodes: nat, keys: set<Text>): Verdict
    requires ValidMembers(members)
    decreases members, 0
  {
    if members == [] then Pass(nodes) else
      var key := PiecesValue(members[0].key);
      if !Paired(key) then Reject(InvalidUnicode)
      else if key in keys then Reject(DuplicateField)
      else
        match Check(members[0].value, depth, nodes)
        case Reject(e) => Reject(e)
        case Pass(n) => CheckMembers(members[1..], depth, n, keys + {key})
  }

  // ----- tokens -----

  // What may follow a value in a JSON text.
  ghost predicate Follow(rest: Text) {
    rest == [] || IsSpace(rest[0]) || rest[0] == COMMA || rest[0] == RBRACKET || rest[0] == RBRACE
  }

  lemma {:induction false} SkipBlank(ws: Text, t: Text)
    requires Blank(ws) && (t == [] || !IsSpace(t[0]))
    ensures SkipSpace(ws + t) == t
  {
    if ws == [] {
      assert ws + t == t;
    } else {
      assert (ws + t)[1..] == ws[1..] + t;
      SkipBlank(ws[1..], t);
    }
  }

  lemma {:induction false} SkipSplits(t: Text) returns (ws: Text)
    ensures Blank(ws) && t == ws + SkipSpace(t)
  {
    if t != [] && IsSpace(t[0]) {
      var more := SkipSplits(t[1..]);
      ws := [t[0]] + more;
    } else {
      ws := [];
    }
  }

  lemma {:induction false} ReadPieces(ps: seq<Piece>, rest: Text, output: Text)
    requires ValidPieces(ps)
    ensures var s := output + PiecesValue(ps);
      ReadChars(PiecesText(ps) + [QUOTE] + rest, output) == if Paired(s) then Read(s, rest) else Bad(InvalidUnicode)
  {
    var t := PiecesText(ps) + [QUOTE] + rest;
    if ps == [] {
      assert t == [QUOTE] + rest && output + PiecesValue(ps) == output;
    } else {
      var p, tail := ps[0], PiecesText(ps[1..]) + [QUOTE] + rest;
      assert t == PieceText(p) + tail;
      ReadPiece(p, tail, output);
      ReadPieces(ps[1..], rest, output + [PieceUnit(p)]);
      assert output + [PieceUnit(p)] + PiecesValue(ps[1..]) == output + PiecesValue(ps);
    }
  }

  lemma ReadPiece(p: Piece, tail: Text, output: Text)
    requires ValidPiece(p)
    ensures ReadChars(PieceText(p) + tail, output) == ReadChars(tail, output + [PieceUnit(p)])
  {
    var t := PieceText(p) + tail;
    match p
    case Raw(u) => assert t[1..] == tail;
    case Short(u) => assert t[2..] == tail;
    case Hex(a, b, c, d) => assert t[6..] == tail;
  }

  lemma PieceRead(t: Text, output: Text) returns (p: Piece, tail: Text)
    requires ReadChars(t, output).Read? && t[0] != QUOTE
    ensures ValidPiece(p) && t == PieceText(p) + tail && |tail| < |t|
    ensures ReadChars(t, output) == ReadChars(tail, output + [PieceUnit(p)])
  {
    p := if t[0] != BACKSLASH then Raw(t[0])
         else if ShortValue(t[1]) >= 0 then Short(t[1])
         else Hex(t[2], t[3], t[4], t[5]);
    tail := t[|PieceText(p)|..];
  }

  lemma EndRead(t: Text, output: Text)
    requires ReadChars(t, output).Read? && t[0] == QUOTE
    ensures ReadChars(t, output) == Read(output, t[1..]) && Paired(output) && t == [QUOTE] + t[1..]
  {}

  // `ps` spells the characters read from t.
  ghost predicate Spells(ps: seq<Piece>, t: Text, output: Text, r: Scan<Text>) {
    && ValidPieces(ps) && r.Read? && Paired(r.value)
    && t == PiecesText(ps) + [QUOTE] + r.rest
    && r.value == output + PiecesValue(ps)
  }

  lemma SpellsMore(p: Piece, more: seq<Piece>, tail: Text, output: Text, r: Scan<Text>)
    requires ValidPiece(p) && Spells(more, tail, output + [PieceUnit(p)], r)
    ensures Spells([p] + more, PieceText(p) + tail, output, r)
  {
    PiecesCons(p, more);
    JoinThree(PieceText(p), PiecesText(more), [QUOTE], r.rest);
    JoinOne(output, [PieceUnit(p)], PiecesValue(more));
  }

  lemma JoinThree(a: Text, b: Text, c: Text, d: Text)
    ensures a + (b + c + d) == a + b + c + d
  {}

  lemma JoinOne(a: Text, b: Text, c: Text)
    ensures a + b + c == a + (b + c)
  {}

  lemma {:induction false} PiecesRead(t: Text, output: Text) returns (ps: seq<Piece>)
    requires ReadChars(t, output).Read?
    ensures Spells(ps, t, output, ReadChars(t, output))
    decreases |t|
  {
    if t[0] == QUOTE {
      ps := [];
      EndRead(t, output);
      assert [] + [QUOTE] + t[1..] == [QUOTE] + t[1..];
      assert output + [] == output;
    } else {
      var p, tail := PieceRead(t, output);
      var more := PiecesRead(tail, output + [PieceUnit(p)]);
      ps := [p] + more;
      SpellsMore(p, more, tail, output, ReadChars(t, output));
    }
  }

  lemma PiecesCons(p: Piece, more: seq<Piece>)
    requires ValidPiece(p) && ValidPieces(more)
    ensures ValidPieces([p] + more)
    ensures PiecesText([p] + more) == PieceText(p) + PiecesText(more)
    ensures PiecesValue([p] + more) == [PieceUnit(p)] + PiecesValue(more)
  {
    assert ([p] + more)[1..] == more;
  }

  lemma {:induction false} DigitRunOf(digits: Text, rest: Text)
    requires AllDigits(digits) && (rest == [] || !IsDigit(rest[0]))
    ensures DigitRun(digits + rest) == |digits|
  {
    if digits == [] {
      assert digits + rest == rest;
    } else {
      assert (digits + rest)[1..] == digits[1..] + rest;
      DigitRunOf(digits[1..], rest);
    }
  }

  lemma ReadDigitsOf(digits: Text, rest: Text)
    requires digits != [] && AllDigits(digits) && (rest == [] || !IsDigit(rest[0]))
    ensures ReadDigits(digits + rest) == Read(digits, rest)
  {
    DigitRunOf(digits, rest);
    assert (digits + rest)[..|digits|] == digits && (digits + rest)[|digits|..] == rest;
  }

  lemma ReadIntegerOf(n: Number, rest: Text)
    requires ValidNumber(n) && (rest == [] || !IsDigit(rest[0]))
    ensures ReadInteger(n.integer + rest) == Read(n.integer, rest)
  {
    var t := n.integer + rest;
    if n.integer == [ZERO] {
      assert t[1..] == rest;
      assert |t| > 1 ==> t[1] == rest[0];
    } else {
      DigitRunOf(n.integer, rest);
      assert t[..|n.integer|] == n.integer && t[|n.integer|..] == rest;
    }
  }

  lemma ReadFractionOf(digits: Text, rest: Text)
    requires AllDigits(digits) && (rest == [] || (!IsDigit(rest[0]) && rest[0] != DOT))
    ensures ReadFraction(FractionText(digits) + rest) == Read(digits, rest)
  {
    var t := FractionText(digits) + rest;
    if digits == [] {
      assert t == rest;
    } else {
      assert t[1..] == digits + rest;
      ReadDigitsOf(digits, rest);
    }
  }

  lemma ReadExponentOf(n: Number, rest: Text)
    requires ValidNumber(n) && Follow(rest)
    ensures ReadExponent(ExponentText(n.marker, n.expSign, n.exponent) + rest)
      == Read(Exponent(n.marker, n.expSign, n.exponent), rest)
  {
    var t := ExponentText(n.marker, n.expSign, n.exponent) + rest;
    if n.exponent == [] {
      assert t == rest;
    } else {
      assert t[0] == n.marker && t[1..] == n.expSign + n.exponent + rest;
      assert SignText(t[1..]) == n.expSign;
      assert t[1 + |n.expSign|..] == n.exponent + rest;
      ReadDigitsOf(n.exponent, rest);
    }
  }

  lemma NumberPartsStart(n: Number, rest: Text)
    requires ValidNumber(n) && Follow(rest)
    ensures var t3 := ExponentText(n.marker, n.expSign, n.exponent) + rest;
      var t2 := FractionText(n.fraction) + t3;
      && (t3 == [] || (!IsDigit(t3[0]) && t3[0] != DOT))
      && (t2 == [] || !IsDigit(t2[0]))
  {}

  lemma NumberTextSplits(n: Number, rest: Text)
    requires ValidNumber(n)
    ensures var t1 := n.integer + (FractionText(n.fraction) + (ExponentText(n.marker, n.expSign, n.exponent) + rest));
      var t := NumberText(n) + rest;
      t == (if n.negative then [MINUS] + t1 else t1) && (if n.negative then t[1..] else t) == t1
    ensures Starts(NumberText(n) + rest, MINUS) == n.negative
    ensures NumberText(n) != [] && (NumberText(n)[0] == MINUS || IsDigit(NumberText(n)[0]))
  {}

  lemma ReadTokenOf(n: Number, rest: Text)
    requires ValidNumber(n) && Follow(rest)
    ensures ReadToken(NumberText(n) + rest) == Read(n, rest)
  {
    var t3 := ExponentText(n.marker, n.expSign, n.exponent) + rest;
    var t2 := FractionText(n.fraction) + t3;
    NumberPartsStart(n, rest);
    ReadIntegerOf(n, t2);
    ReadFractionOf(n.fraction, t3);
    ReadExponentOf(n, rest);
    NumberTextSplits(n, rest);
  }

  lemma ReadNumberOf(n: Number, rest: Text)
    requires ValidNumber(n) && Follow(rest)
    ensures ReadNumber(NumberText(n) + rest) == if Finite(n) then Read(n, rest) else Bad(Malformed)
  {
    ReadTokenOf(n, rest);
  }

  lemma IntegerRead(t: Text)
    requires ReadInteger(t).Read?
    ensures var i := ReadInteger(t); t == i.value + i.rest
  {}

  lemma FractionRead(t: Text)
    requires ReadFraction(t).Read?
    ensures var f := ReadFraction(t); t == FractionText(f.value) + f.rest
  {
    if Starts(t, DOT) {
      assert t == [DOT] + t[1..];
    }
  }

  lemma ExponentRead(t: Text)
    requires ReadExponent(t).Read?
    ensures var x := ReadExponent(t); t == ExponentText(x.value.marker, x.value.sign, x.value.digits) + x.rest
  {
    if t != [] && IsMarker(t[0]) {
      var sign := SignText(t[1..]);
      var d := ReadDigits(t[1 + |sign|..]);
      assert t[1 + |sign|..] == d.value + d.rest;
      assert t == [t[0]] + sign + t[1 + |sign|..];
    }
  }

  lemma TokenRead(t: Text)
    requires ReadToken(t).Read?
    ensures var r := ReadToken(t); ValidNumber(r.value) && t == NumberText(r.value) + r.rest
  {
    var t0 := if Starts(t, MINUS) then t[1..] else t;
    var i := ReadInteger(t0);
    IntegerRead(t0);
    var f := ReadFraction(i.rest);
    FractionRead(i.rest);
    var x := ReadExponent(f.rest);
    ExponentRead(f.rest);
    var sign: Text := if Starts(t, MINUS) then [MINUS] else [];
    assert t == sign + t0;
    JoinNumber(sign, i.value, FractionText(f.value), ExponentText(x.value.marker, x.value.sign, x.value.digits),
               x.rest);
  }

  lemma JoinNumber(a: Text, b: Text, c: Text, d: Text, rest: Text)
    ensures a + (b + (c + (d + rest))) == a + b + c + d + rest
  {}

  // ----- completeness: every valid text is read as it should be -----

  lemma RenderStarts(c: Syntax)
    requires Valid(c)
    ensures Render(c) != [] && !IsSpace(Render(c)[0]) && Render(c)[0] != RBRACKET && Render(c)[0] != RBRACE
    ensures c.NumberLiteral? ==> Render(c)[0] == MINUS || IsDigit(Render(c)[0])
  {}

  lemma DelimiterCloses(after: Text, close: CodeUnit, rest: Text)
    requires Blank(after) && close in {RBRACKET, RBRACE}
    ensures Delimiter(after + [close] + rest, close) == Closed(rest)
    ensures Follow(after + [close] + rest)
  {
    assert after + [close] + rest == after + ([close] + rest);
    SkipBlank(after, [close] + rest);
  }

  lemma DelimiterContinues(after: Text, close: CodeUnit, ahead: Text, more: Text)
    requires Blank(after) && Blank(ahead) && close in {RBRACKET, RBRACE}
    requires more != [] && !IsSpace(more[0])
    ensures Delimiter(after + [COMMA] + ahead + more, close) == More(more)
    ensures Follow(after + [COMMA] + ahead + more)
  {
    var u := [COMMA] + (ahead + more);
    assert after + [COMMA] + ahead + more == after + u;
    SkipBlank(after, u);
    assert u[1..] == ahead + more;
    SkipBlank(ahead, more);
  }

  ghost function Expected<T>(verdict: Verdict, value: T, rest: Text): Step<T> {
    match verdict
    case Reject(e) => Failed(e)
    case Pass(n) => Done(value, rest, n)
  }

  lemma ParseLeaf(c: Syntax, rest: Text, depth: nat, nodes: nat)
    requires Valid(c) && Follow(rest) && depth <= MAX_DEPTH && nodes + 1 <= MAX_NODES
    requires c.NullLiteral? || c.BoolLiteral?
    ensures ParseValue(Render(c) + rest, depth, nodes) == Done(Meaning(c), rest, nodes + 1)
  {
    var t := Render(c) + rest;
    assert t[|Render(c)|..] == rest;
    assert Render(c) <= t;
  }

  lemma ParseNumberAt(t: Text, depth: nat, nodes: nat)
    requires t != [] && (t[0] == MINUS || IsDigit(t[0])) && depth <= MAX_DEPTH && nodes + 1 <= MAX_NODES
    ensures ParseValue(t, depth, nodes)
         == match ReadNumber(t) case Bad(e) => Failed(e) case Read(n, rest) => Done(Num(n), rest, nodes + 1)
  {}

  lemma ParseNumberLiteral(n: Number, rest: Text, depth: nat, nodes: nat)
    requires ValidNumber(n) && Follow(rest) && depth <= MAX_DEPTH && nodes + 1 <= MAX_NODES
    ensures ParseValue(NumberText(n) + rest, depth, nodes)
         == if Finite(n) then Done(Num(n), rest, nodes + 1) else Failed(Malformed)
  {
    NumberTextSplits(n, rest);
    ReadNumberOf(n, rest);
    ParseNumberAt(NumberText(n) + rest, depth, nodes);
  }

  lemma ParseStringLiteral(ps: seq<Piece>, rest: Text, depth: nat, nodes: nat)
    requires ValidPieces(ps) && depth <= MAX_DEPTH && nodes + 1 <= MAX_NODES
    ensures ParseValue(StringText(ps) + rest, depth, nodes)
         == if Paired(PiecesValue(ps)) then Done(Str(PiecesValue(ps)), rest, nodes + 1) else Failed(InvalidUnicode)
  {
    var t := StringText(ps) + rest;
    ReadPieces(ps, rest, []);
    assert t[1..] == PiecesText(ps) + [QUOTE] + rest;
    assert [] + PiecesValue(ps) == PiecesValue(ps);
  }

  lemma {:induction false} ParseRendered(c: Syntax, rest: Text, depth: nat, nodes: nat)
    requires Valid(c) && Follow(rest)
    ensures ParseValue(Render(c) + rest, depth, nodes) == Expected(Check(c, depth, nodes), Meaning(c), rest)
    decreases c, 3
  {
    if depth <= MAX_DEPTH && nodes + 1 <= MAX_NODES {
      match c
      case NumberLiteral(n) => ParseNumberLiteral(n, rest, depth, nodes);
      case StringLiteral(ps) => ParseStringLiteral(ps, rest, depth, nodes);
      case ArrayLiteral(pad, items) =>
        ParseRenderedArray(pad, items, rest, depth + 1, nodes + 1);
        assert (Render(c) + rest)[0] == LBRACKET;
      case ObjectLiteral(pad, members) =>
        ParseRenderedObject(pad, members, rest, depth + 1, nodes + 1);
        assert (Render(c) + rest)[0] == LBRACE;
      case _ => ParseLeaf(c, rest, depth, nodes);
    }
  }

  lemma {:induction false} ParseRenderedArray(pad: Text, items: seq<Item>, rest: Text, depth: nat, nodes: nat)
    requires Blank(pad) && ValidItems(items)
    ensures ParseArray((Render(ArrayLiteral(pad, items)) + rest)[1..], depth, nodes)
         == Expected(CheckItems(items, depth, nodes), Arr(ItemValues(items)), rest)
    decreases items, 2
  {
    var t := (Render(ArrayLiteral(pad, items)) + rest)[1..];
    if items == [] {
      assert t == pad + ([RBRACKET] + rest);
      SkipBlank(pad, [RBRACKET] + rest);
    } else {
      var u := RenderItems(items) + rest;
      assert t == pad + u;
      RenderStarts(items[0].value);
      SkipBlank(pad, u);
      ParseRenderedItems(items, rest, depth, nodes, []);
      assert [] + ItemValues(items) == ItemValues(items);
    }
  }

  lemma {:induction false} ParseRenderedItems(items: seq<Item>, rest: Text, depth: nat, nodes: nat, output: seq<Json>)
    requires items != [] && ValidItems(items)
    ensures ParseItems(RenderItems(items) + rest, depth, nodes, output)
         == Expected(CheckItems(items, depth, nodes), Arr(output + ItemValues(items)), rest)
    decreases items, 0
  {
    var item, t := items[0], RenderItems(items) + rest;
    var value := Meaning(item.value);
    var verdict := Check(item.value, depth, nodes);
    RenderStarts(item.value);
    if |items| == 1 {
      var tail := item.after + [RBRACKET] + rest;
      DelimiterCloses(item.after, RBRACKET, rest);
      assert t == Render(item.value) + tail;
      ParseRendered(item.value, tail, depth, nodes);
      assert items[1..] == [] && ItemValues(items) == [value];
    } else {
      var more := RenderItems(items[1..]) + rest;
      var tail := item.after + [COMMA] + item.ahead + more;
      RenderStarts(items[1].value);
      DelimiterContinues(item.after, RBRACKET, item.ahead, more);
      assert t == Render(item.value) + tail;
      ParseRendered(item.value, tail, depth, nodes);
      if verdict.Pass? {
        ParseRenderedItems(items[1..], rest, depth, verdict.nodes, output + [value]);
      }
      assert output + [value] + ItemValues(items[1..]) == output + ItemValues(items);
    }
  }

  lemma {:induction false} ParseRenderedObject(pad: Text, members: seq<Member>, rest: Text, depth: nat, nodes: nat)
    requires Blank(pad) && ValidMembers(members)
    ensures ParseObject((Render(ObjectLiteral(pad, members)) + rest)[1..], depth, nodes)
         == Expected(CheckMembers(members, depth, nodes, {}), Obj(MemberValues(members)), rest)
    decreases members, 2
  {
    var t := (Render(ObjectLiteral(pad, members)) + rest)[1..];
    if members == [] {
      assert t == pad + ([RBRACE] + rest);
      SkipBlank(pad, [RBRACE] + rest);
    } else {
      var u := RenderMembers(members) + rest;
      assert t == pad + u;
      MembersStart(members);
      SkipBlank(pad, u);
      assert Keys([]) == {};
      ParseRenderedMembers(members, rest, depth, nodes, []);
      assert [] + MemberValues(members) == MemberValues(members);
    }
  }

  // The member's own verdict.
  ghost function CheckMember(m: Member, depth: nat, nodes: nat, keys: set<Text>): Verdict
    requires ValidMembers([m])
  {
    var key := PiecesValue(m.key);
    if !Paired(key) then Reject(InvalidUnicode)
    else if key in keys then Reject(DuplicateField)
    else Check(m.value, depth, nodes)
  }

  lemma {:induction false} ParseRenderedMember(m: Member, rest: Text, depth: nat, nodes: nat, output: seq<Field>)
    requires ValidMembers([m]) && Follow(rest)
    ensures ParseMember(MemberHead(m) + rest, depth, nodes, output)
         == Expected(CheckMember(m, depth, nodes, Keys(output)), Field(PiecesValue(m.key), Meaning(m.value)), rest)
    decreases m, 4
  {
    var value := Render(m.value) + rest;
    var colon := [COLON] + (m.beforeValue + value);
    hide Meaning, Check, Render, PiecesText, PiecesValue;
    MemberHeadSplits(m, rest);
    ReadPieces(m.key, m.afterKey + colon, []);
    assert [] + PiecesValue(m.key) == PiecesValue(m.key);
    SkipBlank(m.afterKey, colon);
    assert colon[1..] == m.beforeValue + value;
    RenderStarts(m.value);
    SkipBlank(m.beforeValue, value);
    ParseRendered(m.value, rest, depth, nodes);
  }

  lemma MemberHeadSplits(m: Member, rest: Text)
    ensures var t := MemberHead(m) + rest;
      && Starts(t, QUOTE)
      && t[1..] == PiecesText(m.key) + [QUOTE] + (m.afterKey + ([COLON] + (m.beforeValue + (Render(m.value) + rest))))
  {
    hide Render, PiecesText;
  }

  lemma MembersStart(members: seq<Member>)
    requires members != []
    ensures RenderMembers(members) != [] && RenderMembers(members)[0] == QUOTE
  {
    var m := members[0];
    assert StringText(m.key)[0] == QUOTE;
    assert MemberHead(m)[0] == QUOTE;
    assert RenderMember(m)[0] == QUOTE;
  }

  lemma JoinTail(head: Text, after: Text, x: Text, rest: Text)
    ensures head + after + x + rest == head + (after + x + rest)
  {}

  lemma JoinContinued(head: Text, after: Text, ahead: Text, more: Text, rest: Text)
    ensures head + after + ([COMMA] + ahead + more) + rest == head + (after + [COMMA] + ahead + (more + rest))
  {}

  lemma {:induction false} ParseRenderedLast(m: Member, rest: Text, depth: nat, nodes: nat, output: seq<Field>)
    requires ValidMembers([m])
    ensures ParseMembers(RenderMembers([m]) + rest, depth, nodes, output)
         == Expected(CheckMember(m, depth, nodes, Keys(output)),
                     Obj(output + [Field(PiecesValue(m.key), Meaning(m.value))]), rest)
    decreases m, 5
  {
    DelimiterCloses(m.after, RBRACE, rest);
    JoinTail(MemberHead(m), m.after, [RBRACE], rest);
    ParseRenderedMember(m, m.after + [RBRACE] + rest, depth, nodes, output);
  }

  // The first of several members, and then the rest.
  lemma {:induction false} ParseRenderedFirst(m: Member, more: Text, rest: Text, depth: nat, nodes: nat,
                                              output: seq<Field>)
    requires ValidMembers([m]) && Starts(more, QUOTE)
    ensures ParseMembers(RenderMember(m) + ([COMMA] + m.ahead + more) + rest, depth, nodes, output)
         == match CheckMember(m, depth, nodes, Keys(output))
            case Reject(e) => Failed(e)
            case Pass(n) => ParseMembers(more + rest, depth, n, output + [Field(PiecesValue(m.key), Meaning(m.value))])
    decreases m, 5
  {
    DelimiterContinues(m.after, RBRACE, m.ahead, more + rest);
    JoinContinued(MemberHead(m), m.after, m.ahead, more, rest);
    ParseRenderedMember(m, m.after + [COMMA] + m.ahead + (more + rest), depth, nodes, output);
  }

  lemma {:induction false} ParseRenderedMembers(members: seq<Member>, rest: Text, depth: nat, nodes: nat,
                                                output: seq<Field>)
    requires members != [] && ValidMembers(members)
    ensures ParseMembers(RenderMembers(members) + rest, depth, nodes, output)
         == Expected(CheckMembers(members, depth, nodes, Keys(output)), Obj(output + MemberValues(members)), rest)
    decreases members, 0
  {
    hide ParseMembers, Meaning, RenderMember, Check, Paired;
    var m := members[0];
    var field := Field(PiecesValue(m.key), Meaning(m.value));
    var verdict := CheckMember(m, depth, nodes, Keys(output));
    assert ValidMembers([m]);
    if |members| == 1 {
      assert members == [m] && members[1..] == [];
      assert MemberValues(members) == [field];
      ParseRenderedLast(m, rest, depth, nodes, output);
    } else {
      MembersStart(members[1..]);
      ParseRenderedFirst(m, RenderMembers(members[1..]), rest, depth, nodes, output);
      if verdict.Pass? {
        KeysGrow(output, field);
        ParseRenderedMembers(members[1..], rest, depth, verdict.nodes, output + [field]);
        assert output + [field] + MemberValues(members[1..]) == output + ([field] + MemberValues(members[1..]));
      }
    }
  }
}
