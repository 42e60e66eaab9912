// JSON values, the text JSON.stringify gives them, and the grammar of RFC 8259 as concrete syntax trees.
module Json {
  import opened Basics
  import opened Text

  // ----- numbers (RFC 8259, section 6) -----

  // The parts of a number token: sign, integer digits, fraction digits, exponent marker, sign and digits.
  // An absent fraction or exponent is an empty digit sequence.
  datatype Number = Number(negative: bool, integer: Text, fraction: Text, marker: CodeUnit, expSign: Text,
                           exponent: Text)

  predicate IsDigit(u: CodeUnit) { 0x30 <= u <= 0x39 }

  predicate IsDigitOneToNine(u: CodeUnit) { 0x31 <= u <= 0x39 }

  predicate AllDigits(t: Text) {
    forall i :: 0 <= i < |t| ==> IsDigit(t[i])
  }

  predicate IsMarker(u: CodeUnit) { u == 0x65 || u == 0x45 }

  predicate ValidNumber(n: Number) {
    && (n.integer == [ZERO] || (n.integer != [] && IsDigitOneToNine(n.integer[0]) && AllDigits(n.integer)))
    && AllDigits(n.fraction) && AllDigits(n.exponent)
    && (n.exponent == [] ==> n.expSign == [] && n.marker == 0x65)
    && (n.exponent != [] ==> IsMarker(n.marker) && (n.expSign == [] || n.expSign == [PLUS] || n.expSign == [MINUS]))
  }

  function FractionText(digits: Text): Text {
    if digits == [] then [] else [DOT] + digits
  }

  function ExponentText(marker: CodeUnit, sign: Text, digits: Text): Text {
    if digits == [] then [] else [marker] + sign + digits
  }

  function NumberText(n: Number): Text {
    (if n.negative then [MINUS] else []) + n.integer + FractionText(n.fraction)
      + ExponentText(n.marker, n.expSign, n.exponent)
  }

  function DigitsValue(t: Text): real {
    if t == [] then 0.0 else 10.0 * DigitsValue(t[..|t| - 1]) + (t[|t| - 1] as int - 0x30) as real
  }

  lemma {:induction false} PowAtLeastOne(b: real, k: nat)
    requires b >= 1.0
    ensures Pow(b, k) >= 1.0
  {
    if k > 0 {
      PowAtLeastOne(b, k - 1);
      GrowsBy(b, Pow(b, k - 1));
    }
  }

  lemma GrowsBy(b: real, x: real)
    requires b >= 1.0 && x >= 1.0
    ensures b * x >= 1.0
  {}

  function DigitsNat(t: Text): nat
    requires AllDigits(t)
  {
    if t == [] then 0 else 10 * DigitsNat(t[..|t| - 1]) + (t[|t| - 1] - 0x30)
  }

  // The decimal number a token denotes.
  function NumberValue(n: Number): real
    requires ValidNumber(n)
  {
    PowAtLeastOne(10.0, |n.fraction|);
    PowAtLeastOne(10.0, DigitsNat(n.exponent));
    var mantissa := DigitsValue(n.integer + n.fraction) / Pow(10.0, |n.fraction|);
    var scaled := if n.expSign == [MINUS] then mantissa / Pow(10.0, DigitsNat(n.exponent))
                  else mantissa * Pow(10.0, DigitsNat(n.exponent));
    if n.negative then -scaled else scaled
  }

  // Reading the token as a double does not overflow: its magnitude is below 2^1024 - 2^970.
  predicate Finite(n: Number)
    requires ValidNumber(n)
  {
    var bound := 18014398509481983.0 * Pow(2.0, 970);
    -bound < NumberValue(n) < bound
  }

  // ----- values -----

  datatype Json =
    | Null
    | Bool(flag: bool)
    | Num(number: Number)
    | Str(text: Text)
    | Arr(items: seq<Json>)
    | Obj(members: seq<Field>)

  datatype Field = Field(key: Text, value: Json)

  const TRUE_TEXT: Text := [0x74, 0x72, 0x75, 0x65]
  const FALSE_TEXT: Text := [0x66, 0x61, 0x6c, 0x73, 0x65]
  const NULL_TEXT: Text := [0x6e, 0x75, 0x6c, 0x6c]

  // ----- printing, as JSON.stringify does -----

  function HexDigit(d: int): CodeUnit
    requires 0 <= d < 16
  {
    if d < 10 then 0x30 + d else 0x61 + d - 10
  }

  function HexEscape(u: CodeUnit): Text {
    [BACKSLASH, 0x75, HexDigit(u / 4096), HexDigit(u / 256 % 16), HexDigit(u / 16 % 16), HexDigit(u % 16)]
  }

  function EscapeUnit(u: CodeUnit): Text {
    if u == QUOTE || u == BACKSLASH then [BACKSLASH, u]
    else if u == 0x08 then [BACKSLASH, 0x62]
    else if u == 0x0c then [BACKSLASH, 0x66]
    else if u == LF then [BACKSLASH, 0x6e]
    else if u == CR then [BACKSLASH, 0x72]
    else if u == TAB then [BACKSLASH, 0x74]
    else if u < 0x20 || IsSurrogate(u) then HexEscape(u)
    else [u]
  }

  // A surrogate without its pair is escaped; a pair is copied.
  function Escape(t: Text): Text {
    if t == [] then []
    else if StartsWithPair(t) then t[..2] + Escape(t[2..])
    else EscapeUnit(t[0]) + Escape(t[1..])
  }

  function Quoted(t: Text): Text {
    [QUOTE] + Escape(t) + [QUOTE]
  }

  function Print(v: Json): Text
    decreases v, 1
  {
    match v
    case Null => NULL_TEXT
    case Bool(b) => if b then TRUE_TEXT else FALSE_TEXT
    case Num(n) => NumberText(n)
    case Str(t) => Quoted(t)
    case Arr(items) => [LBRACKET] + PrintItems(items) + [RBRACKET]
    case Obj(members) => [LBRACE] + PrintMembers(members) + [RBRACE]
  }

  function PrintItems(items: seq<Json>): Text
    decreases items, 0
  {
    if items == [] then []
    else if |items| == 1 then Print(items[0])
    else Print(items[0]) + [COMMA] + PrintItems(items[1..])
  }

  function PrintMember(m: Field): Text
    decreases m, 2
  {
    Quoted(m.key) + [COLON] + Print(m.value)
  }

  function PrintMembers(members: seq<Field>): Text
    decreases members, 0
  {
    if members == [] then []
    else if |members| == 1 then PrintMember(members[0])
    else PrintMember(members[0]) + [COMMA] + PrintMembers(members[1..])
  }

  // ----- concrete syntax (RFC 8259, sections 2 to 7) -----

  predicate IsSpace(u: CodeUnit) { u == SPACE || u == TAB || u == LF || u == CR }

  predicate Blank(t: Text) {
    forall i :: 0 <= i < |t| ==> IsSpace(t[i])
  }

  // One character of a string: itself, a two-character escape, or four hexadecimal digits.
  datatype Piece =
    | Raw(unit: CodeUnit)
    | Short(letter: CodeUnit)
    | Hex(a: CodeUnit, b: CodeUnit, c: CodeUnit, d: CodeUnit)

  function HexValue(u: CodeUnit): (v: int)
    ensures -1 <= v <= 15
  {
    if 0x30 <= u <= 0x39 then u - 0x30
    else if 0x41 <= u <= 0x46 then u - 0x41 + 10
    else if 0x61 <= u <= 0x66 then u - 0x61 + 10
    else -1
  }

  // The character a two-character escape stands for.
  function ShortValue(u: CodeUnit): int {
    if u == QUOTE || u == BACKSLASH || u == SLASH then u
    else if u == 0x62 then 0x08
    else if u == 0x66 then 0x0c
    else if u == 0x6e then LF
    else if u == 0x72 then CR
    else if u == 0x74 then TAB
    else -1
  }

  predicate ValidPiece(p: Piece) {
    match p
    case Raw(u) => u > 0x1f && u != QUOTE && u != BACKSLASH
    case Short(u) => ShortValue(u) >= 0
    case Hex(a, b, c, d) => HexValue(a) >= 0 && HexValue(b) >= 0 && HexValue(c) >= 0 && HexValue(d) >= 0
  }

  predicate ValidPieces(ps: seq<Piece>) {
    forall i :: 0 <= i < |ps| ==> ValidPiece(ps[i])
  }

  function PieceText(p: Piece): Text {
    match p
    case Raw(u) => [u]
    case Short(u) => [BACKSLASH, u]
    case Hex(a, b, c, d) => [BACKSLASH, 0x75, a, b, c, d]
  }

  function PieceUnit(p: Piece): CodeUnit
    requires ValidPiece(p)
  {
    match p
    case Raw(u) => u
    case Short(u) => ShortValue(u)
    case Hex(a, b, c, d) => ((HexValue(a) * 16 + HexValue(b)) * 16 + HexValue(c)) * 16 + HexValue(d)
  }

  function PiecesText(ps: seq<Piece>): Text {
    if ps == [] then [] else PieceText(ps[0]) + PiecesText(ps[1..])
  }

  function PiecesValue(ps: seq<Piece>): Text
    requires ValidPieces(ps)
  {
    if ps == [] then [] else [PieceUnit(ps[0])] + PiecesValue(ps[1..])
  }

  function StringText(ps: seq<Piece>): Text {
    [QUOTE] + PiecesText(ps) + [QUOTE]
  }

  // `after` follows the value; `ahead` follows the comma, when there is one.
  datatype Item = Item(value: Syntax, after: Text, ahead: Text)

  datatype Member = Member(key: seq<Piece>, afterKey: Text, beforeValue: Text, value: Syntax, after: Text, ahead: Text)

  datatype Syntax =
    | NullLiteral
    | BoolLiteral(flag: bool)
    | NumberLiteral(number: Number)
    | StringLiteral(pieces: seq<Piece>)
    | ArrayLiteral(pad: Text, items: seq<Item>)
    | ObjectLiteral(pad: Text, members: seq<Member>)

  ghost predicate Valid(c: Syntax)
    decreases c, 1
  {
    match c
    case NullLiteral => true
    case BoolLiteral(_) => true
    case NumberLiteral(n) => ValidNumber(n)
    case StringLiteral(ps) => ValidPieces(ps)
    case ArrayLiteral(pad, items) => Blank(pad) && ValidItems(items)
    case ObjectLiteral(pad, members) => Blank(pad) && ValidMembers(members)
  }

  ghost predicate ValidItems(items: seq<Item>)
    decreases items, 0
  {
    items != [] ==>
      && Valid(items[0].value) && Blank(items[0].after) && Blank(items[0].ahead)
      && ValidItems(items[1..])
  }

  ghost predicate ValidMembers(members: seq<Member>)
    decreases members, 0
  {
    members != [] ==>
      var m := members[0];
      && ValidPieces(m.key) && Blank(m.afterKey) && Blank(m.beforeValue)
      && Valid(m.value) && Blank(m.after) && Blank(m.ahead)
      && ValidMembers(members[1..])
  }

  // The text of a syntax tree.
  ghost function Render(c: Syntax): Text
    decreases c, 1
  {
    match c
    case NullLiteral => NULL_TEXT
    case BoolLiteral(b) => if b then TRUE_TEXT else FALSE_TEXT
    case NumberLiteral(n) => NumberText(n)
    case StringLiteral(ps) => StringText(ps)
    case ArrayLiteral(pad, items) => [LBRACKET] + pad + if items == [] then [RBRACKET] else RenderItems(items)
    case ObjectLiteral(pad, members) => [LBRACE] + pad + if members == [] then [RBRACE] else RenderMembers(members)
  }

  // The items with their commas and the closing bracket.
  ghost function RenderItems(items: seq<Item>): Text
    requires items != []
    decreases items, 0
  {
    Render(items[0].value) + items[0].after
      + if |items| == 1 then [RBRACKET] else [COMMA] + items[0].ahead + RenderItems(items[1..])
  }

  ghost function RenderMembers(members: seq<Member>): Text
    requires members != []
    decreases members, 0
  {
    RenderMember(members[0])
      + if |members| == 1 then [RBRACE] else [COMMA] + members[0].ahead + RenderMembers(members[1..])
  }

  ghost function RenderMember(m: Member): Text
    decreases m, 3
  {
    MemberHead(m) + m.after
  }

  // The member up to the end of its value.
  ghost function MemberHead(m: Member): Text
    decreases m, 2
  {
    StringText(m.key) + m.afterKey + [COLON] + m.beforeValue + Render(m.value)
  }

  // The value a syntax tree denotes.
  ghost function Meaning(c: Syntax): Json
    requires Valid(c)
    decreases c, 1
  {
    match c
    case NullLiteral => Null
    case BoolLiteral(b) => Bool(b)
    case NumberLiteral(n) => Num(n)
    case StringLiteral(ps) => Str(PiecesValue(ps))
    case ArrayLiteral(_, items) => Arr(ItemValues(items))
    case ObjectLiteral(_, members) => Obj(MemberValues(members))
  }

  ghost function ItemValues(items: seq<Item>): seq<Json>
    requires ValidItems(items)
    decreases items, 0
  {
    if items == [] then [] else [Meaning(items[0].value)] + ItemValues(items[1..])
  }

  ghost function MemberValues(members: seq<Member>): seq<Field>
    requires ValidMembers(members)
    decreases members, 0
  {
    if members == [] then []
    else [Field(PiecesValue(members[0].key), Meaning(members[0].value))] + MemberValues(members[1..])
  }

  // ----- the syntax tree of a printed value -----

  ghost predicate ValidNumbers(v: Json)
    decreases v, 1
  {
    match v
    case Num(n) => ValidNumber(n)
    case Arr(items) => ItemsValidNumbers(items)
    case Obj(members) => MembersValidNumbers(members)
    case _ => true
  }

  ghost predicate ItemsValidNumbers(items: seq<Json>)
    decreases items, 0
  {
    items != [] ==> ValidNumbers(items[0]) && ItemsValidNumbers(items[1..])
  }

  ghost predicate MembersValidNumbers(members: seq<Field>)
    decreases members, 0
  {
    members != [] ==>
      var m := members[0];
      ValidNumbers(m.value) && MembersValidNumbers(members[1..])
  }

  function UnitPiece(u: CodeUnit): Piece {
    if u == QUOTE || u == BACKSLASH then Short(u)
    else if u == 0x08 then Short(0x62)
    else if u == 0x0c then Short(0x66)
    else if u == LF then Short(0x6e)
    else if u == CR then Short(0x72)
    else if u == TAB then Short(0x74)
    else if u < 0x20 || IsSurrogate(u)
    then Hex(HexDigit(u / 4096), HexDigit(u / 256 % 16), HexDigit(u / 16 % 16), HexDigit(u % 16))
    else Raw(u)
  }

  function Pieces(t: Text): seq<Piece> {
    if t == [] then []
    else if StartsWithPair(t) then [Raw(t[0]), Raw(t[1])] + Pieces(t[2..])
    else [UnitPiece(t[0])] + Pieces(t[1..])
  }

  ghost function Tree(v: Json): Syntax
    decreases v, 1
  {
    match v
    case Null => NullLiteral
    case Bool(b) => BoolLiteral(b)
    case Num(n) => NumberLiteral(n)
    case Str(t) => StringLiteral(Pieces(t))
    case Arr(items) => ArrayLiteral([], ItemTrees(items))
    case Obj(members) => ObjectLiteral([], MemberTrees(members))
  }

  ghost function ItemTrees(items: seq<Json>): seq<Item>
    decreases items, 0
  {
    if items == [] then [] else [Item(Tree(items[0]), [], [])] + ItemTrees(items[1..])
  }

  ghost function MemberTrees(members: seq<Field>): seq<Member>
    decreases members, 0
  {
    if members == [] then []
    else
      var m := members[0];
      [Member(Pieces(m.key), [], [], Tree(m.value), [], [])] + MemberTrees(members[1..])
  }

  lemma HexDigitValue(d: int)
    requires 0 <= d < 16
    ensures HexValue(HexDigit(d)) == d
  {}

  lemma HexDigits(u: CodeUnit)
    ensures HexValue(HexDigit(u / 4096)) == u / 4096
    ensures HexValue(HexDigit(u / 256 % 16)) == u / 256 % 16
    ensures HexValue(HexDigit(u / 16 % 16)) == u / 16 % 16
    ensures HexValue(HexDigit(u % 16)) == u % 16
    ensures ((u / 4096 * 16 + u / 256 % 16) * 16 + u / 16 % 16) * 16 + u % 16 == u
  {
    hide HexValue, HexDigit;
    HexDigitValue(u / 4096);
    HexDigitValue(u / 256 % 16);
    HexDigitValue(u / 16 % 16);
    HexDigitValue(u % 16);
  }

  lemma UnitPieceFacts(u: CodeUnit)
    ensures ValidPiece(UnitPiece(u)) && PieceUnit(UnitPiece(u)) == u && PieceText(UnitPiece(u)) == EscapeUnit(u)
  {
    HexDigits(u);
  }

  lemma {:induction false} PiecesFacts(t: Text)
    ensures ValidPieces(Pieces(t)) && PiecesValue(Pieces(t)) == t && PiecesText(Pieces(t)) == Escape(t)
  {
    if t != [] {
      if StartsWithPair(t) {
        PiecesFacts(t[2..]);
        var rest := Pieces(t[2..]);
        var ps := [Raw(t[0]), Raw(t[1])] + rest;
        assert ps[1..] == [Raw(t[1])] + rest && ps[1..][1..] == rest;
        assert PiecesText(ps) == [t[0]] + ([t[1]] + PiecesText(rest));
        assert PiecesValue(ps) == [t[0]] + ([t[1]] + PiecesValue(rest));
      } else {
        PiecesFacts(t[1..]);
        UnitPieceFacts(t[0]);
        assert ([UnitPiece(t[0])] + Pieces(t[1..]))[1..] == Pieces(t[1..]);
      }
    }
  }

  // Printing a value writes a syntax tree that denotes it.
  lemma {:induction false} TreeFacts(v: Json)
    requires ValidNumbers(v)
    ensures Valid(Tree(v)) && Meaning(Tree(v)) == v && Render(Tree(v)) == Print(v)
    decreases v, 1
  {
    match v
    case Str(t) => PiecesFacts(t);
    case Arr(items) => ItemTreesFacts(items);
    case Obj(members) => MemberTreesFacts(members);
    case _ =>
  }

  lemma {:induction false} ItemTreesFacts(items: seq<Json>)
    requires ItemsValidNumbers(items)
    ensures ValidItems(ItemTrees(items)) && ItemValues(ItemTrees(items)) == items
    ensures |ItemTrees(items)| == |items|
    ensures items != [] ==> RenderItems(ItemTrees(items)) == PrintItems(items) + [RBRACKET]
    decreases items, 0
  {
    if items != [] {
      TreeFacts(items[0]);
      ItemTreesFacts(items[1..]);
      var trees := ItemTrees(items);
      assert trees[0] == Item(Tree(items[0]), [], []) && trees[1..] == ItemTrees(items[1..]);
      assert Print(items[0]) + [] == Print(items[0]);
      if |items| > 1 {
        JoinMore(Print(items[0]), PrintItems(items[1..]), RBRACKET);
      }
    }
  }

  lemma JoinMore(a: Text, p: Text, close: CodeUnit)
    ensures a + ([COMMA] + [] + (p + [close])) == a + [COMMA] + p + [close]
  {}

  lemma {:induction false} MemberTreesFacts(members: seq<Field>)
    requires MembersValidNumbers(members)
    ensures ValidMembers(MemberTrees(members)) && MemberValues(MemberTrees(members)) == members
    ensures |MemberTrees(members)| == |members|
    ensures members != [] ==> RenderMembers(MemberTrees(members)) == PrintMembers(members) + [RBRACE]
    decreases members, 0
  {
    if members != [] {
      var m := members[0];
      MemberTreeFacts(m);
      MemberTreesFacts(members[1..]);
      var trees := MemberTrees(members);
      assert trees[0] == Member(Pieces(m.key), [], [], Tree(m.value), [], [])
          && trees[1..] == MemberTrees(members[1..]);
      if |members| > 1 {
        JoinMore(PrintMember(m), PrintMembers(members[1..]), RBRACE);
      }
    }
  }

  lemma {:induction false} MemberTreeFacts(m: Field)
    requires ValidNumbers(m.value)
    ensures var t := Member(Pieces(m.key), [], [], Tree(m.value), [], []);
      && ValidPieces(t.key) && PiecesValue(t.key) == m.key
      && Valid(t.value) && Meaning(t.value) == m.value
      && RenderMember(t) == PrintMember(m)
    decreases m, 2
  {
    PiecesFacts(m.key);
    TreeFacts(m.value);
    assert Quoted(m.key) + [] + [COLON] + [] + Print(m.value) + [] == Quoted(m.key) + [COLON] + Print(m.value);
  }
}
