// Typed compaction requests: encoding, decoding and their round trip (src/compaction/instructions.ts).
module Instructions {
  import opened Basics
  import opened Text
  import opened Json
  import opened Bounds
  import opened StrictJson
  import opened StrictJsonTheorems

  // "__pi_fabric_compact_request_v1__:"
  const PREFIX: Text := [
    0x5f, 0x5f, 0x70, 0x69, 0x5f, 0x66, 0x61, 0x62, 0x72, 0x69, 0x63, 0x5f, 0x63, 0x6f, 0x6d, 0x70, 0x61, 0x63, 0x74,
    0x5f, 0x72, 0x65, 0x71, 0x75, 0x65, 0x73, 0x74, 0x5f, 0x76, 0x31, 0x5f, 0x5f, 0x3a]
  const VERSION_KEY: Text := [0x76, 0x65, 0x72, 0x73, 0x69, 0x6f, 0x6e]
  const INSTRUCTIONS_KEY: Text := [0x69, 0x6e, 0x73, 0x74, 0x72, 0x75, 0x63, 0x74, 0x69, 0x6f, 0x6e, 0x73]
  const PRESERVE_KEY: Text := [0x70, 0x72, 0x65, 0x73, 0x65, 0x72, 0x76, 0x65]

  const MAX_INSTRUCTIONS_CHARS := 8 * 1024
  const MAX_INSTRUCTIONS_BYTES := 8 * 1024
  const MAX_PRESERVE_ITEMS := 16
  const MAX_PRESERVE_ITEM_CHARS := 2 * 1024
  const MAX_PRESERVE_ITEM_BYTES := 2 * 1024
  const MAX_SOURCE_BYTES := 16 * 1024

  datatype Request = Request(instructions: Option<Text>, preserve: Option<seq<Text>>)

  datatype ErrorCode =
    | EncodedSourceTooLarge
    | Json(error: ParseError)
    | InvalidObject
    | UnknownField
    | UnsupportedVersion
    | InvalidType
    | InvalidUnicodeField
    | InstructionsTooLarge
    | PreserveTooMany
    | PreserveItemTooLarge

  datatype Mode = NoMode | Plain | TypedV1

  datatype Policy = Policy(mode: Mode, canonicalized: bool, sourceBytes: nat, truncated: bool, preserveCount: nat,
                           omittedPreserveCount: nat)

  datatype Decoded = Accepted(requestLines: seq<Text>, policy: Policy) | Rejected(code: ErrorCode, sourceBytes: nat)

  // ----- bounds -----

  predicate TooLong(t: Text, chars: nat, bytes: nat) {
    |t| > chars || Utf8Bytes(t) > bytes
  }

  function ItemError(item: Text): Option<ErrorCode> {
    if !Paired(item) then Some(InvalidUnicodeField)
    else if TooLong(item, MAX_PRESERVE_ITEM_CHARS, MAX_PRESERVE_ITEM_BYTES) then Some(PreserveItemTooLarge)
    else None
  }

  // The first error among the items.
  function ItemsError(items: seq<Text>): Option<ErrorCode> {
    if items == [] then None
    else if ItemError(items[0]).Some? then ItemError(items[0])
    else ItemsError(items[1..])
  }

  function InstructionsError(t: Text): Option<ErrorCode> {
    if !Paired(t) then Some(InvalidUnicodeField)
    else if TooLong(t, MAX_INSTRUCTIONS_CHARS, MAX_INSTRUCTIONS_BYTES) then Some(InstructionsTooLarge)
    else None
  }

  function RequestError(r: Request): Option<ErrorCode> {
    if r.instructions.Some? && InstructionsError(r.instructions.value).Some?
    then InstructionsError(r.instructions.value)
    else if r.preserve.None? then None
    else if |r.preserve.value| > MAX_PRESERVE_ITEMS then Some(PreserveTooMany)
    else ItemsError(r.preserve.value)
  }

  method RequestBoundsError(r: Request) returns (e: Option<ErrorCode>)
    ensures e == RequestError(r)
  {
    if r.instructions.Some? {
      var t := r.instructions.value;
      var paired := HasPairedSurrogates(t);
      if !paired { return Some(InvalidUnicodeField); }
      if |t| > MAX_INSTRUCTIONS_CHARS || Utf8Bytes(t) > MAX_INSTRUCTIONS_BYTES { return Some(InstructionsTooLarge); }
    }
    if r.preserve.Some? {
      var items := r.preserve.value;
      if |items| > MAX_PRESERVE_ITEMS { return Some(PreserveTooMany); }
      for i := 0 to |items|
        invariant ItemsError(items) == ItemsError(items[i..])
      {
        assert items[i..][0] == items[i] && items[i..][1..] == items[i + 1..];
        var paired := HasPairedSurrogates(items[i]);
        if !paired { return Some(InvalidUnicodeField); }
        if |items[i]| > MAX_PRESERVE_ITEM_CHARS || Utf8Bytes(items[i]) > MAX_PRESERVE_ITEM_BYTES {
          return Some(PreserveItemTooLarge);
        }
      }
    }
    e := None;
  }

  // ----- encoding -----

  function One(): Number { Number(false, [0x31], [], 0x65, [], []) }

  function Strings(items: seq<Text>): seq<Json> {
    seq(|items|, i requires 0 <= i < |items| => Str(items[i]))
  }

  function Payload(r: Request): Json {
    Obj([Field(VERSION_KEY, Num(One()))]
        + (if r.instructions.Some? then [Field(INSTRUCTIONS_KEY, Str(r.instructions.value))] else [])
        + (if r.preserve.Some? then [Field(PRESERVE_KEY, Arr(Strings(r.preserve.value)))] else []))
  }

  method Encode(r: Request) returns (encoded: Option<Text>)
    ensures encoded.Some? <==> Encodable(r)
    ensures encoded.Some? ==> encoded.value == PREFIX + Print(Payload(r))
  {
    var e := RequestBoundsError(r);
    if e.Some? { return None; }
    var text := PREFIX + Print(Payload(r));
    if Utf8Bytes(text) > MAX_SOURCE_BYTES { return None; }
    encoded := Some(text);
  }

  // ----- decoding -----

  function Lookup(members: seq<Field>, key: Text): Option<Json> {
    if members == [] then None
    else if members[0].key == key then Some(members[0].value)
    else Lookup(members[1..], key)
  }

  predicate KnownKey(key: Text) {
    key == VERSION_KEY || key == INSTRUCTIONS_KEY || key == PRESERVE_KEY
  }

  predicate OnlyKnownKeys(members: seq<Field>) {
    forall i :: 0 <= i < |members| ==> KnownKey(members[i].key)
  }

  // The number token reads as the double 1: it lies between the midpoints around 1, which round to even.
  predicate ReadsAsOne(v: Json) {
    v.Num? && ValidNumber(v.number)
      && 18014398509481983.0 / 18014398509481984.0 <= NumberValue(v.number) <= 9007199254740993.0 / 9007199254740992.0
  }

  predicate AllStrings(items: seq<Json>) {
    forall i :: 0 <= i < |items| ==> items[i].Str?
  }

  function Texts(items: seq<Json>): seq<Text>
    requires AllStrings(items)
  {
    seq(|items|, i requires 0 <= i < |items| => items[i].text)
  }

  datatype Checked = Good(request: Request) | Wrong(code: ErrorCode)

  // The request a parsed value stands for, or the first check it fails.
  function Extract(v: Json): Checked {
    if !v.Obj? then Wrong(InvalidObject)
    else if !OnlyKnownKeys(v.members) then Wrong(UnknownField)
    else
      var version := Lookup(v.members, VERSION_KEY);
      var instructions := Lookup(v.members, INSTRUCTIONS_KEY);
      var preserve := Lookup(v.members, PRESERVE_KEY);
      if version.None? || !ReadsAsOne(version.value) then Wrong(UnsupportedVersion)
      else if instructions.Some? && !instructions.value.Str? then Wrong(InvalidType)
      else if preserve.Some? && !preserve.value.Arr? then Wrong(InvalidType)
      else if preserve.Some? && |preserve.value.items| > MAX_PRESERVE_ITEMS then Wrong(PreserveTooMany)
      else if preserve.Some? && !AllStrings(preserve.value.items) then Wrong(InvalidType)
      else
        var r := Request(if instructions.Some? then Some(instructions.value.text) else None,
                         if preserve.Some? then Some(Texts(preserve.value.items)) else None);
        if RequestError(r).Some? then Wrong(RequestError(r).value) else Good(r)
  }

  // "- <text> [preserve:<index>]"
  function PreserveLine(text: Text, index: nat): Text {
    [0x2d, SPACE] + text + [SPACE, 0x5b, 0x70, 0x72, 0x65, 0x73, 0x65, 0x72, 0x76, 0x65, 0x3a] + Digits(index) + [0x5d]
  }

  function InstructionLines(r: Request): seq<Text> {
    if r.instructions.Some? && Canonical(r.instructions.value) != [] then [Canonical(r.instructions.value)] else []
  }

  // The canonical form of each non-blank item, with its position.
  function PreserveLines(items: seq<Text>): seq<Text> {
    if items == [] then [] else
      var i := |items| - 1;
      PreserveLines(items[..i]) + if Canonical(items[i]) != [] then [PreserveLine(Canonical(items[i]), i)] else []
  }

  function Items(r: Request): seq<Text> {
    if r.preserve.Some? then r.preserve.value else []
  }

  // The lines of an accepted request.
  function LinesOf(r: Request): seq<Text> {
    InstructionLines(r) + PreserveLines(Items(r))
  }

  // What the encoder accepts.
  predicate Encodable(r: Request) {
    RequestError(r).None? && Utf8Bytes(PREFIX + Print(Payload(r))) <= MAX_SOURCE_BYTES
  }

  function CanonicalBytesOf(items: seq<Text>): nat {
    if items == [] then 0 else CanonicalBytesOf(items[..|items| - 1]) + Utf8Bytes(Canonical(items[|items| - 1]))
  }

  predicate AllCanonical(items: seq<Text>) {
    forall i :: 0 <= i < |items| ==> Canonical(items[i]) == items[i]
  }

  function TypedPolicy(r: Request): Policy {
    Policy(TypedV1,
           (r.instructions.Some? && Canonical(r.instructions.value) != r.instructions.value) || !AllCanonical(Items(r)),
           (if r.instructions.Some? then Utf8Bytes(Canonical(r.instructions.value)) else 0)
             + CanonicalBytesOf(Items(r)),
           false, |Items(r)|, 0)
  }

  // A text within the bounds stays within them when canonicalized, so nothing is cut.
  lemma CanonicalFits(t: Text, maxBytes: nat)
    requires Utf8Bytes(t) <= maxBytes
    ensures CanonicalizeText(t, maxBytes) == CanonicalText(Canonical(t), false, Utf8Bytes(Canonical(t)))
  {
    CanonicalBytes(t);
    ClipBounded(Canonical(t), maxBytes, ELLIPSIS);
  }

  lemma {:induction false} ItemsWithinBounds(items: seq<Text>)
    requires ItemsError(items).None?
    ensures forall i :: 0 <= i < |items| ==> Utf8Bytes(items[i]) <= MAX_PRESERVE_ITEM_BYTES && Paired(items[i])
  {
    if items != [] {
      ItemsWithinBounds(items[1..]);
      forall i | 0 <= i < |items| ensures Utf8Bytes(items[i]) <= MAX_PRESERVE_ITEM_BYTES && Paired(items[i]) {
        if i > 0 { assert items[i] == items[1..][i - 1]; }
      }
    }
  }

  lemma RequestBounds(r: Request)
    requires RequestError(r).None?
    ensures r.instructions.Some? ==> Utf8Bytes(r.instructions.value) <= MAX_INSTRUCTIONS_BYTES
    ensures ItemsError(Items(r)).None?
  {}

  // The lines and the policy of an accepted request.
  method Accept(r: Request) returns (d: Decoded)
    requires RequestError(r).None?
    ensures d == Accepted(LinesOf(r), TypedPolicy(r))
  {
    RequestBounds(r);
    hide RequestError, ItemsError, Utf8Bytes, Canonical, CanonicalizeText, AllCanonical, CanonicalBytesOf,
        PreserveLines, Items;
    var requestLines, valueSourceBytes, truncated, canonicalized := AcceptInstructions(r);
    var lines, bytes, cut, changed := AcceptItems(Items(r));
    d := Accepted(requestLines + lines,
                  Policy(TypedV1, canonicalized || changed, valueSourceBytes + bytes, truncated || cut, |Items(r)|, 0));
  }

  // The instruction text, when there is one.
  method AcceptInstructions(r: Request) returns (lines: seq<Text>, bytes: nat, truncated: bool, canonicalized: bool)
    requires r.instructions.Some? ==> Utf8Bytes(r.instructions.value) <= MAX_INSTRUCTIONS_BYTES
    ensures lines == InstructionLines(r) && !truncated
    ensures bytes == if r.instructions.Some? then Utf8Bytes(Canonical(r.instructions.value)) else 0
    ensures canonicalized == (r.instructions.Some? && Canonical(r.instructions.value) != r.instructions.value)
  {
    hide Utf8Bytes, Canonical, CanonicalizeText;
    lines, bytes, truncated, canonicalized := [], 0, false, false;
    if r.instructions.Some? {
      var instructions := CanonicalizeText(r.instructions.value, MAX_INSTRUCTIONS_BYTES);
      CanonicalFits(r.instructions.value, MAX_INSTRUCTIONS_BYTES);
      bytes := instructions.sourceBytes;
      truncated := instructions.truncated;
      canonicalized := instructions.text != r.instructions.value;
      if instructions.text != [] { lines := [instructions.text]; }
    }
  }

  // The loop over the preserved items.
  method AcceptItems(items: seq<Text>) returns (lines: seq<Text>, bytes: nat, truncated: bool, canonicalized: bool)
    requires ItemsError(items).None?
    ensures lines == PreserveLines(items) && bytes == CanonicalBytesOf(items) && !truncated
    ensures canonicalized == !AllCanonical(items)
  {
    ItemsWithinBounds(items);
    lines, bytes, truncated, canonicalized := [], 0, false, false;
    for index := 0 to |items|
      invariant lines == PreserveLines(items[..index])
      invariant bytes == CanonicalBytesOf(items[..index])
      invariant canonicalized == !AllCanonical(items[..index])
      invariant !truncated
    {
      var item := CanonicalizeText(items[index], MAX_PRESERVE_ITEM_BYTES);
      CanonicalFits(items[index], MAX_PRESERVE_ITEM_BYTES);
      assert items[..index + 1][..index] == items[..index];
      AllCanonicalStep(items, index);
      bytes := bytes + item.sourceBytes;
      truncated := truncated || item.truncated;
      canonicalized := canonicalized || item.text != items[index];
      if item.text != [] { lines := lines + [PreserveLine(item.text, index)]; }
    }
    assert items[..|items|] == items;
  }

  lemma AllCanonicalStep(items: seq<Text>, i: nat)
    requires i < |items|
    ensures AllCanonical(items[..i + 1]) <==> AllCanonical(items[..i]) && Canonical(items[i]) == items[i]
  {
    if AllCanonical(items[..i + 1]) {
      assert forall k :: 0 <= k < i ==> items[..i][k] == items[..i + 1][k];
      assert items[..i + 1][i] == items[i];
    }
  }

  function PlainDecoded(source: Text): Decoded {
    var c := CanonicalizeText(source);
    Accepted(if c.text != [] then [c.text] else [], Policy(Plain, c.text != source, c.sourceBytes, c.truncated, 0, 0))
  }

  method Decode(source: Option<Text>) returns (d: Decoded)
    ensures source.None? || source.value == [] ==> d == Accepted([], Policy(NoMode, false, 0, false, 0, 0))
    ensures source.Some? && source.value != [] && !(PREFIX <= source.value) ==> d == PlainDecoded(source.value)
    ensures source.Some? && PREFIX <= source.value ==>
      var bytes := Utf8Bytes(source.value);
      if bytes > MAX_SOURCE_BYTES then d == Rejected(EncodedSourceTooLarge, bytes) else
        match Parse(source.value[|PREFIX|..])
        case Failure(e) => d == Rejected(ErrorCode.Json(e), bytes)
        case Success(v) =>
          match Extract(v)
          case Wrong(code) => d == Rejected(code, bytes)
          case Good(r) => d == Accepted(LinesOf(r), TypedPolicy(r))
  {
    if source.None? || source.value == [] { return Accepted([], Policy(NoMode, false, 0, false, 0, 0)); }
    if !(PREFIX <= source.value) { return PlainDecoded(source.value); }
    var bytes := Utf8Bytes(source.value);
    if bytes > MAX_SOURCE_BYTES { return Rejected(EncodedSourceTooLarge, bytes); }
    var parser := new StrictJsonParser(source.value[|PREFIX|..]);
    var parsed := parser.ParseText();
    if parsed.Failure? { return Rejected(ErrorCode.Json(parsed.error), bytes); }
    var checked := Extract(parsed.value);
    if checked.Wrong? { return Rejected(checked.code, bytes); }
    d := Accept(checked.request);
  }

  // ----- the round trip -----

  lemma OneIsOne()
    ensures ValidNumber(One()) && NumberValue(One()) == 1.0 && Finite(One())
  {
    var n := One();
    assert n.integer + n.fraction == [0x31];
    assert DigitsValue([0x31]) == 1.0 by { assert [0x31][..0] == []; }
    assert DigitsNat(n.exponent) == 0;
    assert Pow(10.0, 0) == 1.0;
    PowAtLeastOne(2.0, 970);
    FarFromBound(Pow(2.0, 970));
  }

  lemma FarFromBound(p: real)
    requires p >= 1.0
    ensures -(18014398509481983.0 * p) < 1.0 < 18014398509481983.0 * p
  {}

  lemma {:induction false} StringsAreFlat(items: seq<Text>, js: seq<Json>)
    requires js == Strings(items) && forall i :: 0 <= i < |items| ==> Paired(items[i])
    ensures ItemsNesting(js) <= 1 && ItemsCount(js) == |js| && RegularItems(js) && ItemsValidNumbers(js)
  {
    if js != [] {
      assert js[1..] == Strings(items[1..]);
      StringsAreFlat(items[1..], js[1..]);
    }
  }

  ghost predicate FlatMember(f: Field) {
    && (f.key == VERSION_KEY || f.key == INSTRUCTIONS_KEY || f.key == PRESERVE_KEY)
    && Nesting(f.value) <= 1 && Count(f.value) <= 17 && Regular(f.value) && ValidNumbers(f.value)
  }

  lemma KeysArePaired()
    ensures Paired(VERSION_KEY) && Paired(INSTRUCTIONS_KEY) && Paired(PRESERVE_KEY)
  {
    hide Paired;
    PairedAscii(VERSION_KEY);
    PairedAscii(INSTRUCTIONS_KEY);
    PairedAscii(PRESERVE_KEY);
  }

  lemma {:induction false} PairedAscii(t: Text)
    requires Ascii(t)
    ensures Paired(t)
  {
    if t != [] {
      PairedAscii(t[1..]);
    }
  }

  lemma {:induction false} FlatMembers(ms: seq<Field>, keys: set<Text>)
    requires forall i :: 0 <= i < |ms| ==> FlatMember(ms[i]) && ms[i].key !in keys
    requires forall i, j :: 0 <= i < j < |ms| ==> ms[i].key != ms[j].key
    ensures MembersNesting(ms) <= 2 && MembersCount(ms) <= 17 * |ms| && RegularMembers(ms, keys)
      && MembersValidNumbers(ms)
  {
    if ms != [] {
      KeysArePaired();
      FlatMembers(ms[1..], keys + {ms[0].key});
    }
  }

  lemma PayloadIsWithin(r: Request)
    requires RequestError(r).None?
    ensures Within(Payload(r)) && ValidNumbers(Payload(r))
  {
    OneIsOne();
    ItemsWithinBounds(Items(r));
    StringsAreFlat(Items(r), Strings(Items(r)));
    assert FlatMember(Field(VERSION_KEY, Num(One())));
    FlatMembers(Payload(r).members, {});
  }

  lemma PayloadExtracts(r: Request)
    requires RequestError(r).None?
    ensures Extract(Payload(r)) == Good(r)
  {
    OneIsOne();
    var ms := Payload(r).members;
    LookupStep(ms, VERSION_KEY);
    LookupStep(ms, INSTRUCTIONS_KEY);
    LookupStep(ms, PRESERVE_KEY);
    if r.preserve.Some? {
      assert Texts(Strings(r.preserve.value)) == r.preserve.value;
    }
  }

  // A lookup among at most three members.
  lemma LookupStep(ms: seq<Field>, key: Text)
    requires 1 <= |ms| <= 3
    ensures Lookup(ms, key) ==
      if ms[0].key == key then Some(ms[0].value)
      else if |ms| > 1 && ms[1].key == key then Some(ms[1].value)
      else if |ms| > 2 && ms[2].key == key then Some(ms[2].value)
      else None
  {
    assert Lookup(ms[1..], key) ==
      if |ms| == 1 then None else if ms[1].key == key then Some(ms[1].value) else Lookup(ms[1..][1..], key);
    if |ms| == 3 { assert ms[1..][1..] == [ms[2]]; assert [ms[2]][1..] == []; }
    if |ms| == 2 { assert ms[1..][1..] == []; }
  }

  // Whatever the encoder accepts the decoder accepts, with the same items in order, canonicalized and uncut.
  method RoundTrip(r: Request) returns (d: Decoded)
    ensures Encodable(r) ==> d == Accepted(LinesOf(r), TypedPolicy(r))
  {
    var encoded := Encode(r);
    d := Decode(encoded);
    if encoded.Some? {
      PayloadIsWithin(r);
      ParsePrinted(Payload(r));
      PayloadExtracts(r);
      assert encoded.value[|PREFIX|..] == Print(Payload(r));
    }
  }
}
