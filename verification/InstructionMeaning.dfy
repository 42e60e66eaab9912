// What a typed request may hold, how its source is spelled and what becomes of it, told without the codec's own
// functions (src/compaction/instructions.ts).
module InstructionMeaning {
  import opened Basics
  import opened Text
  import opened Json
  import opened Bounds
  import opened JsonSpelling
  import opened Instructions

  // ----- bounds -----

  ghost predicate TextFits(t: Text, most: nat) {
    IsWhole(t) && |t| <= most && Utf8Bytes(t) <= most
  }

  ghost predicate RequestFits(r: Request) {
    && (r.instructions.Some? ==> TextFits(r.instructions.value, 8192))
    && (r.preserve.Some? ==>
          |r.preserve.value| <= 16 && forall i :: 0 <= i < |r.preserve.value| ==> TextFits(r.preserve.value[i], 2048))
  }

  // The first thing that does not fit.
  ghost predicate FirstFault(r: Request, e: ErrorCode) {
    if r.instructions.Some? && !TextFits(r.instructions.value, 8192)
    then e == if IsWhole(r.instructions.value) then InstructionsTooLarge else InvalidUnicodeField
    else r.preserve.Some? && if |r.preserve.value| > 16 then e == PreserveTooMany else ItemFault(r.preserve.value, e)
  }

  ghost predicate ItemFault(items: seq<Text>, e: ErrorCode) {
    exists i :: 0 <= i < |items| && !TextFits(items[i], 2048) && (forall j :: 0 <= j < i ==> TextFits(items[j], 2048))
                && e == if IsWhole(items[i]) then PreserveItemTooLarge else InvalidUnicodeField
  }

  lemma {:induction false} ItemsAreChecked(items: seq<Text>)
    ensures ItemsError(items).None? <==> forall i :: 0 <= i < |items| ==> TextFits(items[i], 2048)
    ensures forall e :: ItemsError(items) == Some(e) <==> ItemFault(items, e)
  {
    if items != [] {
      var rest := items[1..];
      PairedIsWhole(items[0]);
      ItemsAreChecked(rest);
      hide IsWhole, Paired, Utf8Bytes;
      assert forall i :: 0 <= i < |rest| ==> rest[i] == items[i + 1];
      if TextFits(items[0], 2048) {
        forall e ensures ItemFault(items, e) <==> ItemFault(rest, e) {
          FaultBehind(items, e);
        }
      }
    }
  }

  lemma FaultBehind(items: seq<Text>, e: ErrorCode)
    requires items != [] && TextFits(items[0], 2048)
    ensures ItemFault(items, e) <==> ItemFault(items[1..], e)
  {
    hide TextFits, IsWhole;
    var rest := items[1..];
    if ItemFault(items, e) {
      var i :| 0 <= i < |items| && !TextFits(items[i], 2048) && (forall j :: 0 <= j < i ==> TextFits(items[j], 2048))
        && e == if IsWhole(items[i]) then PreserveItemTooLarge else InvalidUnicodeField;
      assert rest[i - 1] == items[i];
      assert forall j :: 0 <= j < i - 1 ==> rest[j] == items[j + 1];
    }
    if ItemFault(rest, e) {
      var i :| 0 <= i < |rest| && !TextFits(rest[i], 2048) && (forall j :: 0 <= j < i ==> TextFits(rest[j], 2048))
        && e == if IsWhole(rest[i]) then PreserveItemTooLarge else InvalidUnicodeField;
      assert items[i + 1] == rest[i];
      assert forall j :: 0 < j < i + 1 ==> items[j] == rest[j - 1];
    }
  }

  // A request is in bounds exactly when every text fits; otherwise the first fault is the error.
  lemma RequestIsChecked(r: Request)
    ensures RequestError(r).None? <==> RequestFits(r)
    ensures forall e :: RequestError(r) == Some(e) <==> FirstFault(r, e)
  {
    if r.instructions.Some? { PairedIsWhole(r.instructions.value); }
    if r.preserve.Some? { ItemsAreChecked(r.preserve.value); }
    hide IsWhole, Paired, Utf8Bytes, ItemsError, ItemFault;
  }

  // ----- the source -----

  lemma NamesAreSpelled()
    ensures Letters(PREFIX, "__pi_fabric_compact_request_v1__:")
    ensures Letters(VERSION_KEY, "version") && Letters(INSTRUCTIONS_KEY, "instructions")
    ensures Letters(PRESERVE_KEY, "preserve")
  {}

  ghost function QuotedAll(items: seq<Text>): seq<Text> {
    if items == [] then [] else [Quoted(items[0])] + QuotedAll(items[1..])
  }

  ghost function InstructionsText(r: Request): Text {
    if r.instructions.Some? then [',' as int] + Chars("\"instructions\":") + Quoted(r.instructions.value) else []
  }

  ghost function PreserveText(r: Request): Text {
    if r.preserve.None? then []
    else [',' as int] + Chars("\"preserve\":[") + JoinWith(QuotedAll(r.preserve.value), [',' as int]) + [']' as int]
  }

  // {"version":1,"instructions":...,"preserve":[...]}
  ghost function PayloadText(r: Request): Text {
    ['{' as int] + (Chars("\"version\":1") + (InstructionsText(r) + PreserveText(r))) + ['}' as int]
  }

  lemma {:induction false} StringsAreJoined(items: seq<Text>)
    ensures PrintItems(Strings(items)) == JoinWith(QuotedAll(items), [',' as int])
  {
    if |items| > 1 {
      assert Strings(items)[1..] == Strings(items[1..]);
      StringsAreJoined(items[1..]);
      assert QuotedAll(items)[1..] == QuotedAll(items[1..]);
      JoinFront(QuotedAll(items), [',' as int]);
    } else if |items| == 1 {
      assert items[1..] == [] && QuotedAll(items) == [Quoted(items[0])];
    }
  }

  lemma {:induction false} PlainEscape(t: Text)
    requires forall i :: 0 <= i < |t| ==> 'a' as int <= t[i] <= 'z' as int
    ensures Escape(t) == t
  {
    if t != [] {
      PlainEscape(t[1..]);
    }
  }

  // Quoted, with a colon.
  ghost function Named(key: Text): Text {
    ['"' as int] + key + ['"' as int, ':' as int]
  }

  lemma KeysAreNamed()
    ensures Named(VERSION_KEY) + ['1' as int] == Chars("\"version\":1")
    ensures Named(INSTRUCTIONS_KEY) == Chars("\"instructions\":")
    ensures Named(PRESERVE_KEY) + ['[' as int] == Chars("\"preserve\":[")
  {}

  lemma MemberIsNamed(key: Text, v: Json)
    requires key == VERSION_KEY || key == INSTRUCTIONS_KEY || key == PRESERVE_KEY
    ensures PrintMember(Field(key, v)) == Named(key) + Print(v)
  {
    PlainEscape(key);
    hide Escape, Print;
  }

  // The texts of members, each after a comma.
  ghost function Further(ms: seq<Field>): Text {
    if ms == [] then [] else [',' as int] + PrintMember(ms[0]) + Further(ms[1..])
  }

  lemma {:induction false} MembersAreFurther(ms: seq<Field>)
    requires ms != []
    ensures PrintMembers(ms) == PrintMember(ms[0]) + Further(ms[1..])
  {
    hide PrintMember;
    if |ms| > 1 {
      MembersAreFurther(ms[1..]);
    }
  }

  lemma FurtherOne(a: Field)
    ensures Further([a]) == [',' as int] + PrintMember(a)
  {
    assert [a][1..] == [] && Further([]) == [];
  }

  lemma FurtherTwo(a: Field, b: Field)
    ensures Further([a] + [b]) == [',' as int] + PrintMember(a) + ([',' as int] + PrintMember(b))
  {
    FurtherOne(b);
    assert ([a] + [b])[1..] == [b];
  }

  lemma TextMember(t: Text)
    ensures [',' as int] + PrintMember(Field(INSTRUCTIONS_KEY, Str(t)))
      == [',' as int] + Chars("\"instructions\":") + Quoted(t)
  {
    MemberIsNamed(INSTRUCTIONS_KEY, Str(t));
    KeysAreNamed();
    hide Quoted, Chars, Named;
  }

  lemma ListMember(items: seq<Text>)
    ensures [',' as int] + PrintMember(Field(PRESERVE_KEY, Arr(Strings(items))))
      == [',' as int] + Chars("\"preserve\":[") + JoinWith(QuotedAll(items), [',' as int]) + [']' as int]
  {
    MemberIsNamed(PRESERVE_KEY, Arr(Strings(items)));
    KeysAreNamed();
    StringsAreJoined(items);
    Bracketed(Named(PRESERVE_KEY), Chars("\"preserve\":["), JoinWith(QuotedAll(items), [',' as int]));
    hide Chars, Named, JoinWith, PrintItems, PrintMember, QuotedAll;
  }

  lemma Bracketed(named: Text, start: Text, list: Text)
    requires named + ['[' as int] == start
    ensures [',' as int] + (named + (['[' as int] + list + [']' as int])) == [',' as int] + start + list + [']' as int]
  {}

  // The members after the first.
  lemma OthersAreSpelled(r: Request)
    ensures Payload(r).members[0] == Field(VERSION_KEY, Num(One()))
    ensures Further(Payload(r).members[1..]) == InstructionsText(r) + PreserveText(r)
  {
    var ms := Payload(r).members;
    if r.instructions.Some? {
      var i := Field(INSTRUCTIONS_KEY, Str(r.instructions.value));
      TextMember(r.instructions.value);
      if r.preserve.Some? {
        var p := Field(PRESERVE_KEY, Arr(Strings(r.preserve.value)));
        ListMember(r.preserve.value);
        assert ms[1..] == [i] + [p];
        FurtherTwo(i, p);
      } else {
        assert ms[1..] == [i];
        FurtherOne(i);
      }
    } else if r.preserve.Some? {
      var p := Field(PRESERVE_KEY, Arr(Strings(r.preserve.value)));
      ListMember(r.preserve.value);
      assert ms[1..] == [p];
      FurtherOne(p);
    } else {
      assert ms[1..] == [];
    }
  }

  lemma VersionMember()
    ensures PrintMember(Field(VERSION_KEY, Num(One()))) == Chars("\"version\":1")
  {
    MemberIsNamed(VERSION_KEY, Num(One()));
    KeysAreNamed();
    hide Named, Chars, PrintMember;
  }

  lemma PrintOfObject(ms: seq<Field>)
    ensures Print(Obj(ms)) == ['{' as int] + PrintMembers(ms) + ['}' as int]
  {}

  lemma PayloadIsSpelled(r: Request)
    ensures Print(Payload(r)) == PayloadText(r)
  {
    hide Print, PrintMembers, PrintMember, Further, Chars, InstructionsText, PreserveText;
    VersionMember();
    OthersAreSpelled(r);
    MembersAreFurther(Payload(r).members);
    PrintOfObject(Payload(r).members);
    hide Payload;
  }

  // What the encoder accepts: whatever fits, and takes at most 16384 bytes behind the prefix of 33.
  lemma EncodableExactly(r: Request)
    ensures Encodable(r) <==> RequestFits(r) && 33 + Utf8Bytes(PayloadText(r)) <= 16384
  {
    RequestIsChecked(r);
    PayloadIsSpelled(r);
    PrefixBytes(PayloadText(r));
    hide RequestError, RequestFits, Utf8Bytes, PayloadText, Print, Payload;
  }

  lemma PrefixBytes(t: Text)
    ensures Utf8Bytes(PREFIX + t) == 33 + Utf8Bytes(t)
  {
    AsciiBefore(PREFIX, t);
    hide Utf8Bytes;
  }

  lemma AsciiBefore(a: Text, t: Text)
    requires Ascii(a)
    ensures Utf8Bytes(a + t) == |a| + Utf8Bytes(t)
  {
    PlainBytes(a);
    Utf8Concat(a, t);
  }

  // ----- what an object says -----

  // Of 1 and the doubles on either side of it, the number is nearest to 1.
  ghost predicate NearestToOne(x: real) {
    && Away(x, 1.0) <= Away(x, 1.0 - Pow(0.5, 53))
    && Away(x, 1.0) <= Away(x, 1.0 + Pow(0.5, 52))
  }

  ghost function Away(x: real, y: real): real {
    if x < y then y - x else x - y
  }

  lemma HalfTo53()
    ensures Pow(0.5, 52) == 1.0 / 4503599627370496.0 && Pow(0.5, 53) == 1.0 / 9007199254740992.0
  {
    assert Pow(0.5, 10) == 1.0 / 1024.0;
    assert Pow(0.5, 20) == 1.0 / 1048576.0;
    assert Pow(0.5, 30) == 1.0 / 1073741824.0;
    assert Pow(0.5, 40) == 1.0 / 1099511627776.0;
    assert Pow(0.5, 50) == 1.0 / 1125899906842624.0;
  }

  lemma OneIsNearest(v: Json)
    ensures ReadsAsOne(v) <==> v.Num? && ValidNumber(v.number) && NearestToOne(NumberValue(v.number))
  {
    HalfTo53();
    hide NumberValue, ValidNumber, Pow;
  }

  ghost predicate NoKeyTwice(ms: seq<Field>) {
    forall i, j :: 0 <= i < j < |ms| ==> ms[i].key != ms[j].key
  }

  // The object has a member with this name and value.
  ghost predicate Says(ms: seq<Field>, name: string, value: Json) {
    exists i :: 0 <= i < |ms| && Letters(ms[i].key, name) && ms[i].value == value
  }

  ghost predicate KnownName(key: Text) {
    Letters(key, "version") || Letters(key, "instructions") || Letters(key, "preserve")
  }

  ghost predicate OnlyKnownNames(ms: seq<Field>) {
    forall i :: 0 <= i < |ms| ==> KnownName(ms[i].key)
  }

  ghost predicate SaysVersionOne(ms: seq<Field>) {
    exists v :: Says(ms, "version", v) && v.Num? && ValidNumber(v.number) && NearestToOne(NumberValue(v.number))
  }

  ghost predicate Listed(items: seq<Json>, texts: seq<Text>) {
    |items| == |texts| && forall i :: 0 <= i < |items| ==> items[i] == Str(texts[i])
  }

  // The object says just this request.
  ghost predicate SaysRequest(v: Json, r: Request) {
    v.Obj? && OnlyKnownNames(v.members) && SaysVersionOne(v.members)
    && (match r.instructions
        case None => forall x :: !Says(v.members, "instructions", x)
        case Some(t) => Says(v.members, "instructions", Str(t)))
    && (match r.preserve
        case None => forall x :: !Says(v.members, "preserve", x)
        case Some(texts) => exists items :: Says(v.members, "preserve", Arr(items)) && Listed(items, texts))
  }

  lemma SameLetters(t: Text, u: Text, name: string)
    requires Letters(u, name)
    ensures Letters(t, name) <==> t == u
  {}

  lemma {:induction false} LookupIsSays(ms: seq<Field>, key: Text, name: string)
    requires NoKeyTwice(ms) && Letters(key, name)
    ensures forall v :: Lookup(ms, key) == Some(v) <==> Says(ms, name, v)
    ensures Lookup(ms, key).None? <==> forall v :: !Says(ms, name, v)
  {
    if ms != [] {
      var rest := ms[1..];
      assert forall i :: 0 <= i < |rest| ==> rest[i] == ms[i + 1];
      LookupIsSays(rest, key, name);
      forall i | 0 <= i < |ms| ensures Letters(ms[i].key, name) <==> ms[i].key == key {
        SameLetters(ms[i].key, key, name);
      }
      hide Letters;
      forall v ensures Lookup(ms, key) == Some(v) <==> Says(ms, name, v) {
        if Says(rest, name, v) {
          var i :| 0 <= i < |rest| && Letters(rest[i].key, name) && rest[i].value == v;
          assert Letters(ms[i + 1].key, name);
        }
        if Says(ms, name, v) {
          var i :| 0 <= i < |ms| && Letters(ms[i].key, name) && ms[i].value == v;
          if i > 0 { assert Letters(rest[i - 1].key, name); }
        }
      }
      if Lookup(ms, key).Some? { assert Says(ms, name, Lookup(ms, key).value); }
    }
  }

  lemma KnownIsNamed(key: Text)
    ensures KnownKey(key) <==> KnownName(key)
  {
    NamesAreSpelled();
    SameLetters(key, VERSION_KEY, "version");
    SameLetters(key, INSTRUCTIONS_KEY, "instructions");
    SameLetters(key, PRESERVE_KEY, "preserve");
  }

  lemma KnownAreNamed(ms: seq<Field>)
    ensures OnlyKnownKeys(ms) <==> OnlyKnownNames(ms)
  {
    forall i | 0 <= i < |ms| ensures KnownKey(ms[i].key) <==> KnownName(ms[i].key) {
      KnownIsNamed(ms[i].key);
    }
  }

  lemma VersionIsSaid(ms: seq<Field>)
    requires NoKeyTwice(ms)
    ensures SaysVersionOne(ms) <==> Lookup(ms, VERSION_KEY).Some? && ReadsAsOne(Lookup(ms, VERSION_KEY).value)
  {
    NamesAreSpelled();
    LookupIsSays(ms, VERSION_KEY, "version");
    hide Lookup, Letters, ReadsAsOne, NearestToOne, Says;
    forall v ensures ReadsAsOne(v) <==> v.Num? && ValidNumber(v.number) && NearestToOne(NumberValue(v.number)) {
      OneIsNearest(v);
    }
  }

  lemma TextsAreListed(items: seq<Json>, texts: seq<Text>)
    ensures Listed(items, texts) <==> AllStrings(items) && Texts(items) == texts
  {
    if AllStrings(items) {
      assert forall i :: 0 <= i < |items| ==> items[i] == Str(Texts(items)[i]);
    }
  }

  // The three members of an object without unknown ones.
  lemma MembersAreSaid(ms: seq<Field>)
    requires NoKeyTwice(ms)
    ensures forall v :: Lookup(ms, INSTRUCTIONS_KEY) == Some(v) <==> Says(ms, "instructions", v)
    ensures forall v :: Lookup(ms, PRESERVE_KEY) == Some(v) <==> Says(ms, "preserve", v)
  {
    NamesAreSpelled();
    LookupIsSays(ms, INSTRUCTIONS_KEY, "instructions");
    LookupIsSays(ms, PRESERVE_KEY, "preserve");
  }

  ghost predicate BadlyTyped(ms: seq<Field>) {
    || (exists v :: Says(ms, "instructions", v) && !v.Str?)
    || (exists v :: Says(ms, "preserve", v) && !v.Arr?)
  }

  ghost predicate LongList(ms: seq<Field>) {
    exists items: seq<Json> :: Says(ms, "preserve", Arr(items)) && |items| > 16
  }

  ghost predicate MixedList(ms: seq<Field>) {
    exists items: seq<Json>, i: int :: Says(ms, "preserve", Arr(items)) && 0 <= i < |items| && !items[i].Str?
  }

  // Why a value is no request, in the order in which it is asked.
  ghost predicate ValueFault(v: Json, e: ErrorCode) {
    if !v.Obj? then e == InvalidObject
    else if !OnlyKnownNames(v.members) then e == UnknownField
    else if !SaysVersionOne(v.members) then e == UnsupportedVersion
    else if BadlyTyped(v.members) then e == InvalidType
    else if LongList(v.members) then e == PreserveTooMany
    else if MixedList(v.members) then e == InvalidType
    else exists r :: SaysRequest(v, r) && FirstFault(r, e)
  }

  // Every other value is refused for the first of these faults.
  lemma ExtractFaults(v: Json, e: ErrorCode)
    requires v.Obj? ==> NoKeyTwice(v.members)
    ensures Extract(v) == Wrong(e) <==> ValueFault(v, e)
  {
    if v.Obj? {
      var ms := v.members;
      KnownAreNamed(ms);
      VersionIsSaid(ms);
      hide OnlyKnownKeys, OnlyKnownNames, SaysVersionOne, Lookup, Says, ReadsAsOne, NoKeyTwice, RequestError,
          FirstFault;
      if OnlyKnownNames(ms) && SaysVersionOne(ms) {
        TypedMembers(ms);
        if !BadlyTyped(ms) && !LongList(ms) && !MixedList(ms) {
          var r := SaidRequest(v);
          RequestIsChecked(r);
          forall other | SaysRequest(v, other) ensures other == r {
            OneRequest(v, r, other);
          }
        }
      }
    }
  }

  // Each of the three faults of the members, as a lookup.
  lemma TypedMembers(ms: seq<Field>)
    requires NoKeyTwice(ms)
    ensures var i, p := Lookup(ms, INSTRUCTIONS_KEY), Lookup(ms, PRESERVE_KEY);
      && (BadlyTyped(ms) <==> (i.Some? && !i.value.Str?) || (p.Some? && !p.value.Arr?))
      && (LongList(ms) <==> p.Some? && p.value.Arr? && |p.value.items| > 16)
      && (MixedList(ms) <==> p.Some? && p.value.Arr? && !AllStrings(p.value.items))
  {
    MembersAreSaid(ms);
    hide Lookup, Says;
  }

  // The request an object says whose members are of the right types.
  lemma SaidRequest(v: Json) returns (r: Request)
    requires v.Obj? && NoKeyTwice(v.members) && OnlyKnownNames(v.members) && SaysVersionOne(v.members)
    requires !BadlyTyped(v.members) && !LongList(v.members) && !MixedList(v.members)
    ensures SaysRequest(v, r)
    ensures Extract(v) == if RequestError(r).Some? then Wrong(RequestError(r).value) else Good(r)
  {
    var ms := v.members;
    KnownAreNamed(ms);
    VersionIsSaid(ms);
    TypedMembers(ms);
    MembersAreSaid(ms);
    hide OnlyKnownKeys, OnlyKnownNames, SaysVersionOne, Lookup, Says, ReadsAsOne, NoKeyTwice, RequestError;
    hide BadlyTyped, LongList, MixedList;
    var i, p := Lookup(ms, INSTRUCTIONS_KEY), Lookup(ms, PRESERVE_KEY);
    r := Request(if i.Some? then Some(i.value.text) else None, if p.Some? then Some(Texts(p.value.items)) else None);
    if p.Some? { TextsAreListed(p.value.items, Texts(p.value.items)); }
  }

  lemma OneRequest(v: Json, r: Request, other: Request)
    requires v.Obj? && NoKeyTwice(v.members) && SaysRequest(v, r) && SaysRequest(v, other)
    ensures r == other
  {
    MembersAreSaid(v.members);
    hide Lookup, Says, NoKeyTwice;
    if r.preserve.Some? && other.preserve.Some? {
      var items :| Says(v.members, "preserve", Arr(items)) && Listed(items, r.preserve.value);
      var others :| Says(v.members, "preserve", Arr(others)) && Listed(others, other.preserve.value);
      assert items == others;
      assert forall i :: 0 <= i < |items| ==> Str(r.preserve.value[i]) == Str(other.preserve.value[i]);
      assert r.preserve.value == other.preserve.value;
    }
  }

  // What says a request has none of the faults of its members but a long list.
  lemma SayingIsTyped(v: Json, r: Request)
    requires v.Obj? && NoKeyTwice(v.members) && SaysRequest(v, r)
    ensures !BadlyTyped(v.members) && !MixedList(v.members)
    ensures LongList(v.members) ==> r.preserve.Some? && |r.preserve.value| > 16
  {
    TypedMembers(v.members);
    MembersAreSaid(v.members);
    hide Lookup, Says, NoKeyTwice, BadlyTyped, LongList, MixedList, SaysVersionOne, OnlyKnownNames;
    if r.preserve.Some? {
      var items :| Says(v.members, "preserve", Arr(items)) && Listed(items, r.preserve.value);
      assert AllStrings(items);
    }
  }

  // A parsed value is accepted as a request exactly when it is an object that says this request, and the request fits.
  lemma ExtractIsExact(v: Json, r: Request)
    requires v.Obj? ==> NoKeyTwice(v.members)
    ensures Extract(v) == Good(r) <==> SaysRequest(v, r) && RequestFits(r)
  {
    if v.Obj? && SaysRequest(v, r) && RequestFits(r) {
      SayingIsTyped(v, r);
      var said := SaidRequest(v);
      OneRequest(v, r, said);
      RequestIsChecked(r);
    }
    if Extract(v) == Good(r) {
      forall e ensures !ValueFault(v, e) {
        ExtractFaults(v, e);
      }
      SaidByAccepted(v);
      var said := SaidRequest(v);
      RequestIsChecked(said);
    }
  }

  lemma SaidByAccepted(v: Json)
    requires forall e :: !ValueFault(v, e)
    ensures v.Obj? && OnlyKnownNames(v.members) && SaysVersionOne(v.members)
    ensures !BadlyTyped(v.members) && !LongList(v.members) && !MixedList(v.members)
  {
    assert !ValueFault(v, InvalidObject) && !ValueFault(v, UnknownField) && !ValueFault(v, UnsupportedVersion);
    assert !ValueFault(v, InvalidType) && !ValueFault(v, PreserveTooMany);
    hide OnlyKnownNames, SaysVersionOne, BadlyTyped, LongList, MixedList;
  }

  // ----- what becomes of a request -----

  // Its lines: the instructions, when there is something in them, then each item with something in it and its position.
  lemma LinesAreListed(r: Request) returns (rest: seq<Text>, at: seq<nat>)
    ensures LinesOf(r) == rest || (r.instructions.Some? && LinesOf(r) == [Canonical(r.instructions.value)] + rest)
    ensures LinesOf(r) == rest <==> r.instructions.None? || Canonical(r.instructions.value) == []
    ensures Chosen(Items(r), (t: Text) => Canonical(t) != [], at) && |rest| == |at|
    ensures forall i :: 0 <= i < |at| ==> at[i] < |Items(r)| && IsItemLine(rest[i], Items(r)[at[i]], at[i])
  {
    rest := PreserveLines(Items(r));
    at := ItemLines(Items(r));
    hide Canonical, PreserveLines, IsItemLine, Chosen, Items;
  }

  // "- text [preserve:3]"
  ghost predicate IsItemLine(line: Text, item: Text, position: nat) {
    line == Chars("- ") + Canonical(item) + Chars(" [preserve:") + Digits(position) + Chars("]")
  }

  lemma ItemLineIsSpelled(item: Text, position: nat)
    ensures IsItemLine(PreserveLine(Canonical(item), position), item, position)
  {
    assert Chars("- ") == [0x2d, SPACE] && Chars("]") == [0x5d];
    assert Chars(" [preserve:") == [SPACE, 0x5b, 0x70, 0x72, 0x65, 0x73, 0x65, 0x72, 0x76, 0x65, 0x3a];
  }

  lemma {:induction false} ItemLines(items: seq<Text>) returns (at: seq<nat>)
    ensures Chosen(items, (t: Text) => Canonical(t) != [], at) && |PreserveLines(items)| == |at|
    ensures forall i :: 0 <= i < |at| ==>
      at[i] < |items| && IsItemLine(PreserveLines(items)[i], items[at[i]], at[i])
  {
    hide Canonical, PreserveLine, IsItemLine;
    var keep := (t: Text) => Canonical(t) != [];
    if items == [] {
      at := [];
    } else {
      var i := |items| - 1;
      at := ItemLines(items[..i]);
      ChosenSnoc(items[..i], keep, at, items[i]);
      assert items == items[..i] + [items[i]];
      ItemLineIsSpelled(items[i], i);
      at := at + if keep(items[i]) then [i] else [];
    }
  }

  ghost function CanonicalSizes(ts: seq<Text>): nat {
    if ts == [] then 0 else Utf8Bytes(Canonical(ts[0])) + CanonicalSizes(ts[1..])
  }

  ghost function TextsOf(r: Request): seq<Text> {
    (if r.instructions.Some? then [r.instructions.value] else []) + (if r.preserve.Some? then r.preserve.value else [])
  }

  lemma {:induction false} SizesSnoc(ts: seq<Text>, t: Text)
    ensures CanonicalSizes(ts + [t]) == CanonicalSizes(ts) + Utf8Bytes(Canonical(t))
  {
    hide Utf8Bytes, Canonical;
    if ts == [] {
      assert ([] + [t])[1..] == [];
    } else {
      SizesSnoc(ts[1..], t);
      assert (ts + [t])[1..] == ts[1..] + [t];
    }
  }

  lemma {:induction false} SizesAreBytes(items: seq<Text>)
    ensures CanonicalSizes(items) == CanonicalBytesOf(items)
  {
    if items != [] {
      var i := |items| - 1;
      SizesAreBytes(items[..i]);
      SizesSnoc(items[..i], items[i]);
      assert items == items[..i] + [items[i]];
    }
  }

  // Its policy: nothing is cut or left out, every item is counted, blank or not, and so are the bytes of the texts.
  lemma PolicyIsCounted(r: Request)
    ensures var p := TypedPolicy(r);
      && p.mode == TypedV1 && !p.truncated && p.omittedPreserveCount == 0
      && p.preserveCount == (if r.preserve.Some? then |r.preserve.value| else 0)
      && (p.canonicalized <==> exists i :: 0 <= i < |TextsOf(r)| && Canonical(TextsOf(r)[i]) != TextsOf(r)[i])
      && p.sourceBytes == CanonicalSizes(TextsOf(r))
  {
    hide Utf8Bytes, Canonical;
    var items := Items(r);
    SizesAreBytes(items);
    if r.instructions.Some? {
      var t := r.instructions.value;
      assert TextsOf(r) == [t] + items && TextsOf(r)[1..] == items;
      assert forall i :: 0 <= i < |items| ==> items[i] == TextsOf(r)[i + 1];
      if Canonical(t) != t { assert TextsOf(r)[0] == t; }
    } else {
      assert TextsOf(r) == items;
    }
  }

  // Any other source is one line, canonical and cut to 8192 bytes.
  lemma PlainIsClipped(source: Text)
    ensures match PlainDecoded(source)
      case Accepted(lines, p) =>
        && (exists text :: IsClipped(Canonical(source), 8192, ['\U{2026}' as int], text)
              && lines == (if text == [] then [] else [text]) && (p.canonicalized <==> text != source))
        && p.mode == Plain && (p.truncated <==> Utf8Bytes(Canonical(source)) > 8192)
        && p.sourceBytes == Utf8Bytes(Canonical(source)) && p.preserveCount == 0 && p.omittedPreserveCount == 0
      case Rejected(_, _) => false
  {
    ClipIsExact(Canonical(source), 8192, ELLIPSIS);
    hide Canonical, IsClipped, Clip;
  }
}
