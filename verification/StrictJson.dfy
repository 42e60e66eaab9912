// The strict parser of typed compaction requests (src/compaction/instructions.ts).
module StrictJson {
  import opened Basics
  import opened Text
  import opened Json

  const MAX_DEPTH := 32
  const MAX_NODES := 4096

  datatype ParseError = Malformed | DuplicateField | InvalidUnicode | TooComplex

  datatype Outcome<+T> = Success(value: T) | Failure(error: ParseError)

  // ----- specification: the parser as functions on the text that remains -----

  // A token and the text after it.
  datatype Scan<+T> = Read(value: T, rest: Text) | Bad(error: ParseError) {
    predicate IsFailure() { Bad? }
    function PropagateFailure<U>(): Step<U> requires Bad? { Failed(error) }
    function Extract(): (T, Text) requires Read? { (value, rest) }
  }

  // A value, the text after it, and the number of values counted so far.
  datatype Step<+T> = Done(value: T, rest: Text, nodes: nat) | Failed(error: ParseError) {
    predicate IsFailure() { Failed? }
    function PropagateFailure<U>(): Step<U> requires Failed? { Failed(error) }
    function Extract(): (T, Text, nat) requires Done? { (value, rest, nodes) }
  }

  function SkipSpace(t: Text): (r: Text)
    ensures |r| <= |t|
  {
    if t != [] && IsSpace(t[0]) then SkipSpace(t[1..]) else t
  }

  predicate Starts(t: Text, u: CodeUnit) {
    t != [] && t[0] == u
  }

  // The characters of a string, from after its opening quote.
  function ReadChars(t: Text, output: Text): (r: Scan<Text>)
    ensures r.Read? ==> |r.rest| < |t|
    decreases |t|
  {
    if t == [] then Bad(Malformed)
    else if t[0] == QUOTE then (if Paired(output) then Read(output, t[1..]) else Bad(InvalidUnicode))
    else if t[0] <= 0x1f then Bad(Malformed)
    else if t[0] != BACKSLASH then ReadChars(t[1..], output + [t[0]])
    else if |t| >= 2 && ShortValue(t[1]) >= 0 then ReadChars(t[2..], output + [ShortValue(t[1])])
    else if |t| >= 6 && t[1] == 0x75 && ValidPiece(Hex(t[2], t[3], t[4], t[5]))
    then ReadChars(t[6..], output + [PieceUnit(Hex(t[2], t[3], t[4], t[5]))])
    else Bad(Malformed)
  }

  function DigitRun(t: Text): (k: nat)
    ensures k <= |t| && AllDigits(t[..k])
  {
    if t != [] && IsDigit(t[0]) then
      var k := DigitRun(t[1..]);
      assert t[..k + 1] == [t[0]] + t[1..][..k];
      k + 1
    else 0
  }

  // The digits of the integer part: a single zero, or digits that do not start with one.
  function ReadInteger(t: Text): (r: Scan<Text>)
    ensures r.Read? ==> |r.rest| < |t|
  {
    if Starts(t, ZERO) then (if |t| > 1 && IsDigit(t[1]) then Bad(Malformed) else Read([ZERO], t[1..]))
    else if t != [] && IsDigitOneToNine(t[0]) then Read(t[..DigitRun(t)], t[DigitRun(t)..])
    else Bad(Malformed)
  }

  // At least one digit.
  function ReadDigits(t: Text): (r: Scan<Text>)
    ensures r.Read? ==> |r.rest| < |t|
  {
    var k := DigitRun(t);
    if k == 0 then Bad(Malformed) else Read(t[..k], t[k..])
  }

  function ReadFraction(t: Text): (r: Scan<Text>)
    ensures r.Read? ==> |r.rest| <= |t|
  {
    if Starts(t, DOT) then ReadDigits(t[1..]) else Read([], t)
  }

  function SignText(t: Text): Text {
    if Starts(t, PLUS) || Starts(t, MINUS) then t[..1] else []
  }

  datatype Exponent = Exponent(marker: CodeUnit, sign: Text, digits: Text)

  function ReadExponent(t: Text): (r: Scan<Exponent>)
    ensures r.Read? ==> |r.rest| <= |t|
  {
    if t != [] && IsMarker(t[0]) then
      var sign := SignText(t[1..]);
      match ReadDigits(t[1 + |sign|..])
      case Bad(e) => Bad(e)
      case Read(digits, rest) => Read(Exponent(t[0], sign, digits), rest)
    else Read(Exponent(0x65, [], []), t)
  }

  function ReadToken(t: Text): (r: Scan<Number>)
    ensures r.Read? ==> |r.rest| < |t| && ValidNumber(r.value)
  {
    var negative := Starts(t, MINUS);
    match ReadInteger(if negative then t[1..] else t)
    case Bad(e) => Bad(e)
    case Read(integer, t1) =>
      match ReadFraction(t1)
      case Bad(e) => Bad(e)
      case Read(fraction, t2) =>
        match ReadExponent(t2)
        case Bad(e) => Bad(e)
        case Read(x, t3) => Read(Number(negative, integer, fraction, x.marker, x.sign, x.digits), t3)
  }

  function ReadNumber(t: Text): (r: Scan<Number>)
    ensures r.Read? ==> |r.rest| < |t| && ValidNumber(r.value)
  {
    var r := ReadToken(t);
    if r.Read? && !Finite(r.value) then Bad(Malformed) else r
  }

  function ReadLiteral(t: Text, literal: Text, v: Json, nodes: nat): (r: Step<Json>)
    requires literal != []
    ensures r.Done? ==> |r.rest| < |t|
  {
    if literal <= t then Done(v, t[|literal|..], nodes) else Failed(Malformed)
  }

  function ParseValue(t: Text, depth: nat, nodes: nat): (r: Step<Json>)
    ensures r.Done? ==> |r.rest| < |t|
    decreases |t|, 1
  {
    if depth > MAX_DEPTH || nodes + 1 > MAX_NODES then Failed(TooComplex)
    else if t == [] then Failed(Malformed)
    else if t[0] == LBRACE then ParseObject(t[1..], depth + 1, nodes + 1)
    else if t[0] == LBRACKET then ParseArray(t[1..], depth + 1, nodes + 1)
    else if t[0] == QUOTE then
      var (s, rest) :- ReadChars(t[1..], []);
      Done(Str(s), rest, nodes + 1)
    else if t[0] == 0x74 then ReadLiteral(t, TRUE_TEXT, Bool(true), nodes + 1)
    else if t[0] == 0x66 then ReadLiteral(t, FALSE_TEXT, Bool(false), nodes + 1)
    else if t[0] == 0x6e then ReadLiteral(t, NULL_TEXT, Null, nodes + 1)
    else if t[0] == MINUS || IsDigit(t[0]) then
      var (n, rest) :- ReadNumber(t);
      Done(Num(n), rest, nodes + 1)
    else Failed(Malformed)
  }

  // From after the opening brace.
  function ParseObject(t: Text, depth: nat, nodes: nat): (r: Step<Json>)
    ensures r.Done? ==> |r.rest| < |t|
    decreases |t|, 3
  {
    var u := SkipSpace(t);
    if Starts(u, RBRACE) then Done(Obj([]), u[1..], nodes) else ParseMembers(u, depth, nodes, [])
  }

  function Keys(members: seq<Field>): set<Text> {
    set m | m in members :: m.key
  }

  lemma KeysGrow(members: seq<Field>, m: Field)
    ensures Keys(members + [m]) == Keys(members) + {m.key}
  {
    forall k | k in Keys(members) + {m.key} ensures k in Keys(members + [m]) {
      if k == m.key {
        assert m in members + [m];
      } else {
        var x :| x in members && x.key == k;
        assert x in members + [m];
      }
    }
  }

  // What follows a value inside brackets: the closing one, a comma and more, or neither.
  datatype Turn = Closed(rest: Text) | More(rest: Text) | Neither

  function Delimiter(t: Text, close: CodeUnit): (r: Turn)
    ensures !r.Neither? ==> |r.rest| < |t|
  {
    var u := SkipSpace(t);
    if Starts(u, close) then Closed(u[1..])
    else if Starts(u, COMMA) then More(SkipSpace(u[1..]))
    else Neither
  }

  // A member, given those read before it.
  function ParseMember(t: Text, depth: nat, nodes: nat, output: seq<Field>): (r: Step<Field>)
    ensures r.Done? ==> |r.rest| < |t|
    decreases |t|, 0
  {
    if !Starts(t, QUOTE) then Failed(Malformed) else
      var (key, afterKey) :- ReadChars(t[1..], []);
      if key in Keys(output) then Failed(DuplicateField) else
        var colon := SkipSpace(afterKey);
        if !Starts(colon, COLON) then Failed(Malformed) else
          var (value, rest, nodes') :- ParseValue(SkipSpace(colon[1..]), depth, nodes);
          Done(Field(key, value), rest, nodes')
  }

  // From the key of a member to the closing brace.
  function ParseMembers(t: Text, depth: nat, nodes: nat, output: seq<Field>): (r: Step<Json>)
    ensures r.Done? ==> |r.rest| < |t|
    decreases |t|, 2
  {
    var (member, afterValue, nodes') :- ParseMember(t, depth, nodes, output);
    match Delimiter(afterValue, RBRACE)
    case Closed(rest) => Done(Obj(output + [member]), rest, nodes')
    case More(rest) => ParseMembers(rest, depth, nodes', output + [member])
    case Neither => Failed(Malformed)
  }

  function ParseArray(t: Text, depth: nat, nodes: nat): (r: Step<Json>)
    ensures r.Done? ==> |r.rest| < |t|
    decreases |t|, 3
  {
    var u := SkipSpace(t);
    if Starts(u, RBRACKET) then Done(Arr([]), u[1..], nodes) else ParseItems(u, depth, nodes, [])
  }

  function ParseItems(t: Text, depth: nat, nodes: nat, output: seq<Json>): (r: Step<Json>)
    ensures r.Done? ==> |r.rest| < |t|
    decreases |t|, 2
  {
    if t == [] then Failed(Malformed) else
      var (value, afterValue, nodes') :- ParseValue(t, depth, nodes);
      match Delimiter(afterValue, RBRACKET)
      case Closed(rest) => Done(Arr(output + [value]), rest, nodes')
      case More(rest) => ParseItems(rest, depth, nodes', output + [value])
      case Neither => Failed(Malformed)
  }

  // The whole text.
  function Parse(source: Text): Outcome<Json> {
    match ParseValue(SkipSpace(source), 0, 0)
    case Failed(e) => Failure(e)
    case Done(v, rest, _) => if SkipSpace(rest) == [] then Success(v) else Failure(Malformed)
  }

  // ----- the parser -----

  class StrictJsonParser {
    const source: Text
    var index: nat
    var nodes: nat

    constructor (source: Text)
      ensures this.source == source && index == 0 && nodes == 0
    {
      this.source := source;
      index, nodes := 0, 0;
    }

    // What remains to be read.
    ghost function Remaining(): Text
      reads this
      requires index <= |source|
    {
      source[index..]
    }

    ghost predicate Scanned<T>(r: Outcome<T>, s: Scan<T>)
      reads this
    {
      match s
      case Bad(e) => r == Failure(e)
      case Read(v, rest) => r == Success(v) && index <= |source| && Remaining() == rest
    }

    ghost predicate Stepped<T>(r: Outcome<T>, s: Step<T>)
      reads this
    {
      match s
      case Failed(e) => r == Failure(e)
      case Done(v, rest, n) => r == Success(v) && index <= |source| && Remaining() == rest && nodes == n
    }

    method ParseText() returns (r: Outcome<Json>)
      requires index == 0 && nodes == 0
      modifies this
      ensures r == Parse(source)
    {
      assert Remaining() == source;
      SkipWhitespace();
      r := ParseAny(0);
      if r.Failure? { return; }
      SkipWhitespace();
      if index != |source| { r := Failure(Malformed); }
    }

    method SkipWhitespace()
      requires index <= |source|
      modifies this`index
      ensures old(index) <= index <= |source|
      ensures Remaining() == SkipSpace(old(Remaining()))
    {
      while index < |source|
        invariant old(index) <= index <= |source|
        invariant SkipSpace(Remaining()) == SkipSpace(old(Remaining()))
      {
        if !IsSpace(source[index]) { return; }
        assert Remaining()[1..] == source[index + 1..];
        index := index + 1;
      }
    }

    // The character at the index.
    predicate At(u: CodeUnit)
      requires index <= |source|
      reads this
      ensures At(u) == Starts(Remaining(), u)
    {
      index < |source| && source[index] == u
    }

    method Advance()
      requires index < |source|
      modifies this`index
      ensures index == old(index) + 1 && Remaining() == old(Remaining())[1..]
    {
      assert Remaining()[1..] == source[index + 1..];
      index := index + 1;
    }

    method ParseDelimiter(close: CodeUnit) returns (d: Found)
      requires index <= |source|
      modifies this`index
      ensures old(index) <= index <= |source|
      ensures match Delimiter(old(Remaining()), close)
        case Closed(rest) => d == FoundClose && Remaining() == rest && old(index) < index
        case More(rest) => d == FoundComma && Remaining() == rest && old(index) < index
        case Neither => d == FoundNeither
    {
      SkipWhitespace();
      if At(close) { Advance(); return FoundClose; }
      if !At(COMMA) { return FoundNeither; }
      Advance();
      SkipWhitespace();
      d := FoundComma;
    }

    method ParseAny(depth: nat) returns (r: Outcome<Json>)
      requires index <= |source|
      modifies this
      ensures Stepped(r, ParseValue(old(Remaining()), depth, old(nodes)))
      ensures r.Success? ==> old(index) < index
      decreases |source| - index, 1
    {
      ghost var t := Remaining();
      if depth > MAX_DEPTH { return Failure(TooComplex); }
      nodes := nodes + 1;
      if nodes > MAX_NODES { return Failure(TooComplex); }
      if index == |source| { return Failure(Malformed); }
      var character := source[index];
      assert t[0] == character && t[1..] == source[index + 1..];
      if character == LBRACE { r := ParseBraces(depth + 1); }
      else if character == LBRACKET { r := ParseBrackets(depth + 1); }
      else if character == QUOTE {
        var s := ParseString();
        r := if s.Failure? then Failure(s.error) else Success(Str(s.value));
      }
      else if character == 0x74 { r := ParseLiteral(TRUE_TEXT, Bool(true)); }
      else if character == 0x66 { r := ParseLiteral(FALSE_TEXT, Bool(false)); }
      else if character == 0x6e { r := ParseLiteral(NULL_TEXT, Null); }
      else if character == MINUS || IsDigit(character) {
        var n := ParseNumber();
        r := if n.Failure? then Failure(n.error) else Success(Num(n.value));
      }
      else { r := Failure(Malformed); }
    }

    method ParseLiteral(literal: Text, v: Json) returns (r: Outcome<Json>)
      requires index <= |source| && literal != []
      modifies this`index
      ensures Stepped(r, ReadLiteral(old(Remaining()), literal, v, nodes))
      ensures r.Success? ==> old(index) < index
    {
      if !(literal <= source[index..]) { return Failure(Malformed); }
      assert Remaining()[|literal|..] == source[index + |literal|..];
      index := index + |literal|;
      r := Success(v);
    }

    method ParseString() returns (r: Outcome<Text>)
      requires index < |source|
      modifies this`index
      ensures Scanned(r, ReadChars(source[old(index) + 1..], []))
      ensures r.Success? ==> old(index) < index
    {
      index := index + 1;
      var output: Text := [];
      while index < |source|
        invariant old(index) < index <= |source|
        invariant ReadChars(Remaining(), output) == ReadChars(source[old(index) + 1..], [])
      {
        ghost var t := Remaining();
        var unit := source[index];
        assert t[0] == unit && t[1..] == source[index + 1..];
        if unit == QUOTE {
          index := index + 1;
          var paired := HasPairedSurrogates(output);
          return if paired then Success(output) else Failure(InvalidUnicode);
        }
        if unit <= 0x1f { return Failure(Malformed); }
        if unit != BACKSLASH {
          output := output + [unit];
          index := index + 1;
          continue;
        }
        if index + 1 == |source| { return Failure(Malformed); }
        var letter := source[index + 1];
        assert t[1] == letter && t[2..] == source[index + 2..];
        if ShortValue(letter) >= 0 {
          output := output + [ShortValue(letter)];
          index := index + 2;
        } else if letter == 0x75 {
          var value := ParseHex(index + 2);
          if value.None? { return Failure(Malformed); }
          assert t[6..] == source[index + 6..];
          output := output + [value.value];
          index := index + 6;
        } else {
          return Failure(Malformed);
        }
      }
      r := Failure(Malformed);
    }

    // The four hexadecimal digits at position `at`.
    method ParseHex(at: nat) returns (value: Option<CodeUnit>)
      ensures value ==
        if at + 4 <= |source| && ValidPiece(Hex(source[at], source[at + 1], source[at + 2], source[at + 3]))
                       then Some(PieceUnit(Hex(source[at], source[at + 1], source[at + 2], source[at + 3]))) else None
    {
      hide HexValue;
      var v := 0;
      for offset := 0 to 4
        invariant at + offset <= |source| || offset == 0
        invariant offset >= 1 ==> HexValue(source[at]) >= 0
        invariant offset >= 2 ==> HexValue(source[at + 1]) >= 0
        invariant offset >= 3 ==> HexValue(source[at + 2]) >= 0
        invariant offset >= 4 ==> HexValue(source[at + 3]) >= 0
        invariant offset == 0 ==> v == 0
        invariant offset == 1 ==> v == HexValue(source[at])
        invariant offset == 2 ==> v == HexValue(source[at]) * 16 + HexValue(source[at + 1])
        invariant offset == 3 ==>
          v == (HexValue(source[at]) * 16 + HexValue(source[at + 1])) * 16 + HexValue(source[at + 2])
        invariant offset == 4 ==>
          v == ((HexValue(source[at]) * 16 + HexValue(source[at + 1])) * 16 + HexValue(source[at + 2])) * 16
               + HexValue(source[at + 3])
      {
        if at + offset >= |source| { return None; }
        var digit := HexValue(source[at + offset]);
        if digit < 0 { return None; }
        v := v * 16 + digit;
      }
      value := Some(v);
    }

    method SkipDigits()
      requires index <= |source|
      modifies this`index
      ensures old(index) <= index <= |source|
      ensures index - old(index) == DigitRun(old(Remaining()))
    {
      ghost var start := index;
      while index < |source| && IsDigit(source[index])
        invariant start <= index <= |source|
        invariant DigitRun(source[start..]) == index - start + DigitRun(source[index..])
      {
        assert source[index..][1..] == source[index + 1..];
        index := index + 1;
      }
    }

    method ParseInteger() returns (r: Outcome<Text>)
      requires index <= |source|
      modifies this`index
      ensures Scanned(r, ReadInteger(old(Remaining())))
      ensures r.Success? ==> old(index) < index
    {
      var start := index;
      ghost var t := Remaining();
      if At(ZERO) {
        index := index + 1;
        if index < |source| && IsDigit(source[index]) { return Failure(Malformed); }
        assert source[start..index] == [ZERO];
      } else {
        if !(index < |source| && IsDigitOneToNine(source[index])) { return Failure(Malformed); }
        SkipDigits();
      }
      assert source[start..index] == t[..index - start] && Remaining() == t[index - start..];
      r := Success(source[start..index]);
    }

    method ParseDigits() returns (r: Outcome<Text>)
      requires index <= |source|
      modifies this`index
      ensures Scanned(r, ReadDigits(old(Remaining())))
      ensures r.Success? ==> old(index) < index
    {
      var start := index;
      ghost var t := Remaining();
      if !(index < |source| && IsDigit(source[index])) { return Failure(Malformed); }
      SkipDigits();
      assert source[start..index] == t[..index - start] && Remaining() == t[index - start..];
      r := Success(source[start..index]);
    }

    method ParseFraction() returns (r: Outcome<Text>)
      requires index <= |source|
      modifies this`index
      ensures Scanned(r, ReadFraction(old(Remaining())))
      ensures r.Success? ==> old(index) <= index
    {
      if !At(DOT) { return Success([]); }
      assert Remaining()[1..] == source[index + 1..];
      index := index + 1;
      r := ParseDigits();
    }

    method ParseExponent() returns (r: Outcome<Exponent>)
      requires index <= |source|
      modifies this`index
      ensures Scanned(r, ReadExponent(old(Remaining())))
      ensures r.Success? ==> old(index) <= index
    {
      if !(index < |source| && IsMarker(source[index])) { return Success(Exponent(0x65, [], [])); }
      var marker := source[index];
      ghost var t := Remaining();
      index := index + 1;
      assert t[1..] == Remaining();
      var sign: Text := [];
      if At(PLUS) || At(MINUS) {
        sign := [source[index]];
        assert sign == Remaining()[..1];
        index := index + 1;
      }
      assert t[1 + |sign|..] == Remaining();
      var digits := ParseDigits();
      r := if digits.Failure? then Failure(digits.error) else Success(Exponent(marker, sign, digits.value));
    }

    method ParseToken() returns (r: Outcome<Number>)
      requires index < |source|
      modifies this`index
      ensures Scanned(r, ReadToken(old(Remaining())))
      ensures r.Success? ==> old(index) < index
    {
      ghost var t := Remaining();
      var negative := At(MINUS);
      if negative {
        index := index + 1;
        assert t[1..] == Remaining();
      }
      var integer := ParseInteger();
      if integer.Failure? { return Failure(integer.error); }
      var fraction := ParseFraction();
      if fraction.Failure? { return Failure(fraction.error); }
      var exponent := ParseExponent();
      if exponent.Failure? { return Failure(exponent.error); }
      var x := exponent.value;
      r := Success(Number(negative, integer.value, fraction.value, x.marker, x.sign, x.digits));
    }

    method ParseNumber() returns (r: Outcome<Number>)
      requires index < |source|
      modifies this`index
      ensures Scanned(r, ReadNumber(old(Remaining())))
      ensures r.Success? ==> old(index) < index
    {
      r := ParseToken();
      if r.Success? && !Finite(r.value) { r := Failure(Malformed); }
    }

    // One member; `keys` are the keys of the members read so far.
    method ParseOne(depth: nat, keys: set<Text>, ghost output: seq<Field>) returns (r: Outcome<Field>)
      requires index <= |source|
      requires keys == Keys(output)
      modifies this
      ensures Stepped(r, ParseMember(old(Remaining()), depth, old(nodes), output))
      ensures r.Success? ==> old(index) < index
      decreases |source| - index, 2
    {
      if !At(QUOTE) { return Failure(Malformed); }
      assert Remaining()[1..] == source[index + 1..];
      var key := ParseString();
      if key.Failure? { return Failure(key.error); }
      if key.value in keys { return Failure(DuplicateField); }
      SkipWhitespace();
      if !At(COLON) { return Failure(Malformed); }
      Advance();
      SkipWhitespace();
      var value := ParseAny(depth);
      r := if value.Failure? then Failure(value.error) else Success(Field(key.value, value.value));
    }

    method ParseBraces(depth: nat) returns (r: Outcome<Json>)
      requires index < |source|
      modifies this
      ensures Stepped(r, ParseObject(old(Remaining())[1..], depth, old(nodes)))
      ensures r.Success? ==> old(index) < index
      decreases |source| - index, 0
    {
      ghost var start := index;
      Advance();
      ghost var whole := ParseObject(Remaining(), depth, nodes);
      SkipWhitespace();
      var output: seq<Field> := [];
      var keys: set<Text> := {};
      if At(RBRACE) {
        Advance();
        return Success(Obj(output));
      }
      while index < |source|
        invariant start < index <= |source|
        invariant keys == Keys(output)
        invariant ParseMembers(Remaining(), depth, nodes, output) == whole
      {
        var member := ParseOne(depth, keys, output);
        if member.Failure? { return Failure(member.error); }
        KeysGrow(output, member.value);
        keys := keys + {member.value.key};
        output := output + [member.value];
        var d := ParseDelimiter(RBRACE);
        if d == FoundClose { return Success(Obj(output)); }
        if d == FoundNeither { return Failure(Malformed); }
      }
      r := Failure(Malformed);
    }

    method ParseBrackets(depth: nat) returns (r: Outcome<Json>)
      requires index < |source|
      modifies this
      ensures Stepped(r, ParseArray(old(Remaining())[1..], depth, old(nodes)))
      ensures r.Success? ==> old(index) < index
      decreases |source| - index, 0
    {
      ghost var start := index;
      Advance();
      ghost var whole := ParseArray(Remaining(), depth, nodes);
      SkipWhitespace();
      var output: seq<Json> := [];
      if At(RBRACKET) {
        Advance();
        return Success(Arr(output));
      }
      while index < |source|
        invariant start < index <= |source|
        invariant ParseItems(Remaining(), depth, nodes, output) == whole
      {
        var value := ParseAny(depth);
        if value.Failure? { return value; }
        output := output + [value.value];
        var d := ParseDelimiter(RBRACKET);
        if d == FoundClose { return Success(Arr(output)); }
        if d == FoundNeither { return Failure(Malformed); }
      }
      r := Failure(Malformed);
    }
  }

  datatype Found = FoundClose | FoundComma | FoundNeither
}
